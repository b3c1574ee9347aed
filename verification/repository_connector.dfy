/**
 * The repository connector: a session-scoped local repository directory, the
 * mapping of repository configurations to remote repositories, the version
 * listing query and the batch download loop. The resolution engine and the
 * filesystem are oracles passed in as values.
 */
module RepositoryConnector {
  import opened Wrappers
  import opened JavaStrings
  import opened Configs

  /** The sink progress lines go to; the connector keeps one. */
  datatype PrintStream = SystemOut | Stream(id: nat)

  datatype ConnectorState = Open | Closed

  /** A connector over `configs` whose local repository lives at `tmpRepo`. */
  datatype Connector = Connector(
    logger: PrintStream,
    configs: seq<RepositoryConfig>,
    tmpRepo: string,
    state: ConnectorState)

  /**
   * What the filesystem does with the temporary local repository:
   * `createTempFile` yields the path of a fresh file (or an I/O error),
   * then deleting it, creating a directory in its place, and the recursive
   * delete on close each succeed or fail.
   */
  datatype TempDirOracle = TempDirOracle(
    createTempFile: Result<string, string>,
    deleteSucceeds: bool,
    mkdirsSucceeds: bool,
    deleteDirectorySucceeds: bool)

  /**
   * Opens a connector. A missing logger means standard output. The
   * temporary file must be deleted and a directory created in its place;
   * each failure is an I/O error with its own message.
   */
  function NewConnector(logger: Option<PrintStream>, configs: seq<RepositoryConfig>, fs: TempDirOracle)
    : (r: Result<Connector, string>)
    ensures r.Success? <==> fs.createTempFile.Success? && fs.deleteSucceeds && fs.mkdirsSucceeds
    ensures r.Success? ==> r.value.state == Open && r.value.configs == configs
    ensures r.Success? ==> r.value.tmpRepo == fs.createTempFile.value
    ensures r.Success? && logger.None? ==> r.value.logger == SystemOut
    ensures r.Success? && logger.Some? ==> r.value.logger == logger.value
    ensures fs.createTempFile.Failure? ==> r == Failure(fs.createTempFile.error)
    ensures fs.createTempFile.Success? && !fs.deleteSucceeds
            ==> r == Failure("failed to create tmp file: " + fs.createTempFile.value)
    ensures fs.createTempFile.Success? && fs.deleteSucceeds && !fs.mkdirsSucceeds
            ==> r == Failure("failed to create tmp file!")
  {
    var out := if logger.None? then SystemOut else logger.value;
    match fs.createTempFile
    case Failure(e) => Failure(e)
    case Success(path) =>
      if !fs.deleteSucceeds then Failure("failed to create tmp file: " + path)
      else if !fs.mkdirsSucceeds then Failure("failed to create tmp file!")
      else Success(Connector(out, configs, path, Open))
  }

  /**
   * Releases the connector by deleting its local repository recursively.
   * Deleting a directory that is already gone succeeds, so closing twice is
   * the same as closing once.
   */
  function Close(c: Connector, fs: TempDirOracle): (r: Result<Connector, string>)
    ensures c.state == Closed ==> r == Success(c)
    ensures c.state == Open ==> (r.Success? <==> fs.deleteDirectorySucceeds)
    ensures r.Success? ==> r.value == c.(state := Closed)
  {
    if c.state == Closed then Success(c)
    else if fs.deleteDirectorySucceeds then Success(c.(state := Closed))
    else Failure("Unable to delete directory " + c.tmpRepo + ".")
  }

  /** Open, then Closed: a successful close ends the lifecycle, and a second close changes nothing. */
  lemma Lifecycle(logger: Option<PrintStream>, configs: seq<RepositoryConfig>, fs: TempDirOracle)
    requires NewConnector(logger, configs, fs).Success?
    requires fs.deleteDirectorySucceeds
    ensures Close(NewConnector(logger, configs, fs).value, fs).Success?
    ensures Close(NewConnector(logger, configs, fs).value, fs).value.state == Closed
    ensures Close(Close(NewConnector(logger, configs, fs).value, fs).value, fs)
         == Close(NewConnector(logger, configs, fs).value, fs)
  {
  }

  datatype Authentication = Authentication(username: string, password: JString)

  datatype RemoteRepository = RemoteRepository(
    id: JString,
    contentType: JString,
    url: JString,
    authentication: Option<Authentication>)

  /** The remote repository for one configuration; credentials only when a user name is set. */
  function ToRemote(conf: RepositoryConfig): (r: RemoteRepository)
    ensures r.id == conf.id && r.contentType == conf.repoType && r.url == conf.url
    ensures r.authentication.Some? <==> !IsEmpty(conf.user)
    ensures r.authentication.Some? ==> r.authentication.value == Authentication(conf.user.value, conf.password)
  {
    var auth := if IsEmpty(conf.user) then None else Some(Authentication(conf.user.value, conf.password));
    RemoteRepository(conf.id, conf.repoType, conf.url, auth)
  }

  /** One remote per configuration, in configuration order. */
  function GetRepositories(configs: seq<RepositoryConfig>): (r: seq<RemoteRepository>)
    ensures |r| == |configs|
    ensures forall i :: 0 <= i < |configs| ==> r[i] == ToRemote(configs[i])
  {
    if |configs| == 0 then [] else [ToRemote(configs[0])] + GetRepositories(configs[1..])
  }

  /** A version as the engine reports it, with its `toString` text. */
  datatype Version = Version(text: string)

  datatype VersionRangeRequest = VersionRangeRequest(artifact: string, repositories: seq<RemoteRepository>)

  datatype ArtifactCoordinate = ArtifactCoordinate(groupId: JString, artifactId: JString, extension: JString, version: JString)

  datatype ArtifactRequest = ArtifactRequest(artifact: ArtifactCoordinate, repositories: seq<RemoteRepository>)

  /**
   * The resolution engine and the file streams, as oracles:
   * `session` is whether building the repository system and a session worked;
   * `resolveVersionRange` answers a range query in the engine's own order;
   * `resolveArtifact` yields the local file of a resolved artifact;
   * `openInput`, `openOutput` and `copy` are the stream operations of the copy
   * step, and `closeSucceeds` whether closing a stream on a path works.
   */
  datatype Engine = Engine(
    session: Result<(), string>,
    resolveVersionRange: VersionRangeRequest -> Result<seq<Version>, string>,
    resolveArtifact: ArtifactRequest -> Result<string, string>,
    openInput: string -> Result<(), string>,
    openOutput: string -> Result<(), string>,
    copy: (string, string) -> Result<(), string>,
    closeSucceeds: string -> bool)

  /** The range coordinate of every version query: group, artifact, then all versions from 0 up. */
  function RangeCoordinate(groupId: JString, artifactId: JString): string
  {
    Text(groupId) + ":" + Text(artifactId) + ":[0,)"
  }

  /** Split at its colons, the range coordinate gives back exactly its three parts. */
  lemma RangeCoordinateParts(groupId: JString, artifactId: JString)
    requires ':' !in Text(groupId) && ':' !in Text(artifactId)
    ensures Split(RangeCoordinate(groupId, artifactId), ':') == [Text(groupId), Text(artifactId), "[0,)"]
  {
    var g, a := Text(groupId), Text(artifactId);
    assert RangeCoordinate(groupId, artifactId) == g + [':'] + (a + [':'] + "[0,)");
    SplitAfter(g, ':', a + [':'] + "[0,)");
    SplitAfter(a, ':', "[0,)");
    SplitNone("[0,)", ':');
  }

  /**
   * `listVersions`: the packaging, classifier and version-constraint
   * arguments take no part in the query.
   */
  function ListVersions(
    c: Connector, engine: Engine,
    groupId: JString, artifactId: JString,
    packaging: JString, classifier: JString, versionConstraints: JString)
    : (r: Result<seq<Version>, string>)
    ensures engine.session.Failure? ==> r == Failure(engine.session.error)
    ensures engine.session.Success? ==>
              r == engine.resolveVersionRange(VersionRangeRequest(RangeCoordinate(groupId, artifactId), GetRepositories(c.configs)))
  {
    if engine.session.Failure? then Failure(engine.session.error)
    else engine.resolveVersionRange(VersionRangeRequest(RangeCoordinate(groupId, artifactId), GetRepositories(c.configs)))
  }

  /**
   * Listing versions asks the engine for all versions from 0 up of
   * group:artifact against every configured repository and returns its
   * answer unchanged, whatever packaging, classifier or constraint is given.
   */
  lemma ListVersionsQuery(
    c: Connector, engine: Engine,
    groupId: JString, artifactId: JString,
    packaging: JString, classifier: JString, versionConstraints: JString)
    requires engine.session.Success?
    ensures exists q: VersionRangeRequest ::
      && ListVersions(c, engine, groupId, artifactId, packaging, classifier, versionConstraints) == engine.resolveVersionRange(q)
      && (':' !in Text(groupId) && ':' !in Text(artifactId) ==>
            Split(q.artifact, ':') == [Text(groupId), Text(artifactId), "[0,)"])
      && |q.repositories| == |c.configs|
      && forall i :: 0 <= i < |c.configs| ==> q.repositories[i] == ToRemote(c.configs[i])
  {
    var q := VersionRangeRequest(RangeCoordinate(groupId, artifactId), GetRepositories(c.configs));
    if ':' !in Text(groupId) && ':' !in Text(artifactId) {
      RangeCoordinateParts(groupId, artifactId);
    }
    assert ListVersions(c, engine, groupId, artifactId, packaging, classifier, versionConstraints) == engine.resolveVersionRange(q);
  }

  /** Why one item of a batch was not copied. */
  datatype DownloadError =
    | ResolutionFailed(message: string)
    | MissingTarget
    | OpenInputFailed(message: string)
    | OpenOutputFailed(message: string)
    | CopyFailed(message: string)

  /**
   * The outcome of one item. `closeWarnings` counts the ignored
   * "unable to close file" events of the clean-up (a stream that was never
   * opened cannot be closed either).
   */
  datatype ItemOutcome =
    | Downloaded(coordinate: ArtifactCoordinate, target: string, closeWarnings: nat)
    | Failed(coordinate: ArtifactCoordinate, reason: DownloadError, closeWarnings: nat)

  /** The coordinate requested for an artifact: group, artifact, extension, version. */
  function CoordinateOf(ac: ArtifactConfig): ArtifactCoordinate {
    ArtifactCoordinate(ac.groupId, ac.artifactId, ac.extension, ac.version)
  }

  /**
   * One iteration of the batch loop: resolve, open the local file, open the
   * target, copy; then close both streams, ignoring any failure to close.
   */
  function DownloadOne(engine: Engine, remotes: seq<RemoteRepository>, ac: ArtifactConfig): (r: ItemOutcome)
    ensures r.coordinate == CoordinateOf(ac)
    ensures r.Downloaded? <==>
      && engine.resolveArtifact(ArtifactRequest(CoordinateOf(ac), remotes)).Success?
      && ac.targetFileName.Some?
      && engine.openInput(engine.resolveArtifact(ArtifactRequest(CoordinateOf(ac), remotes)).value).Success?
      && engine.openOutput(ac.targetFileName.value).Success?
      && engine.copy(engine.resolveArtifact(ArtifactRequest(CoordinateOf(ac), remotes)).value, ac.targetFileName.value).Success?
    ensures r.Downloaded? ==> r.target == ac.targetFileName.value
    ensures r.closeWarnings <= 2
  {
    var coord := CoordinateOf(ac);
    match engine.resolveArtifact(ArtifactRequest(coord, remotes))
    case Failure(e) => Failed(coord, ResolutionFailed(e), 2)
    case Success(fIn) =>
      if ac.targetFileName.None? then Failed(coord, MissingTarget, 2)
      else
        var fOut := ac.targetFileName.value;
        match engine.openInput(fIn)
        case Failure(e) => Failed(coord, OpenInputFailed(e), 2)
        case Success(_) =>
          var inWarning := if engine.closeSucceeds(fIn) then 0 else 1;
          match engine.openOutput(fOut)
          case Failure(e) => Failed(coord, OpenOutputFailed(e), inWarning + 1)
          case Success(_) =>
            var warnings := inWarning + (if engine.closeSucceeds(fOut) then 0 else 1);
            match engine.copy(fIn, fOut)
            case Failure(e) => Failed(coord, CopyFailed(e), warnings)
            case Success(_) => Downloaded(coord, fOut, warnings)
  }

  /** Whether streams close or not never changes whether an item was downloaded. */
  lemma CloseFailuresIgnored(engine: Engine, remotes: seq<RemoteRepository>, ac: ArtifactConfig, closeSucceeds: string -> bool)
    ensures DownloadOne(engine.(closeSucceeds := closeSucceeds), remotes, ac).Downloaded?
        == DownloadOne(engine, remotes, ac).Downloaded?
  {
  }

  /** The per-item outcomes of a batch and their conjunction. */
  datatype Batch = Batch(ok: bool, items: seq<ItemOutcome>)

  /**
   * `downloadArtifacts`. A failure to set up the session aborts the call;
   * otherwise every artifact is attempted in order, each outcome depends
   * only on its own request, and the result is true exactly when every item
   * was downloaded (so true for an empty batch).
   */
  method DownloadArtifacts(c: Connector, engine: Engine, artifacts: seq<ArtifactConfig>)
    returns (r: Result<Batch, string>)
    ensures engine.session.Failure? ==> r == Failure(engine.session.error)
    ensures engine.session.Success? ==> r.Success?
    ensures r.Success? ==> |r.value.items| == |artifacts|
    ensures r.Success? ==> forall i :: 0 <= i < |artifacts| ==>
              r.value.items[i] == DownloadOne(engine, GetRepositories(c.configs), artifacts[i])
    ensures r.Success? ==> (r.value.ok <==> forall i :: 0 <= i < |artifacts| ==> r.value.items[i].Downloaded?)
  {
    if engine.session.Failure? {
      return Failure(engine.session.error);
    }
    var remotes := GetRepositories(c.configs);
    var out := true;
    var items: seq<ItemOutcome> := [];
    for i := 0 to |artifacts|
      invariant |items| == i
      invariant forall j :: 0 <= j < i ==> items[j] == DownloadOne(engine, remotes, artifacts[j])
      invariant out <==> forall j :: 0 <= j < i ==> items[j].Downloaded?
    {
      var item := DownloadOne(engine, remotes, artifacts[i]);
      if item.Failed? {
        out := false;
      }
      items := items + [item];
    }
    return Success(Batch(out, items));
  }
}
