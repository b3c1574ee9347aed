/**
 * The global repository registry the build steps and the version parameter
 * look repositories up in, together with the filesystem and engine they run
 * against.
 */
module RepositoryRegistry {
  import opened Wrappers
  import opened JavaStrings
  import opened Configs
  import opened RepositoryConnector

  /**
   * The repository registry, the temporary-directory filesystem and the
   * engine a build step or a form check runs against.
   */
  datatype Host = Host(repositories: map<string, RepositoryConfig>, tempDir: TempDirOracle, engine: Engine)

  /** `getRepositoryMap().get(id)`; no repository is registered under `null`. */
  function Lookup(repositories: map<string, RepositoryConfig>, id: JString): (r: Option<RepositoryConfig>)
    ensures r.Some? <==> id.Some? && id.value in repositories
    ensures r.Some? ==> r.value == repositories[id.value]
  {
    if id.Some? && id.value in repositories then Some(repositories[id.value]) else None
  }
}
