/**
 * The "resolve artifacts" build step: constructor defaults, the target
 * directory, the version override taken from build parameters, and the
 * building of one resolved request per configured artifact.
 */
module ArtifactResolver {
  import opened Wrappers
  import opened JavaStrings
  import opened Seqs
  import opened Configs
  import opened RepositoryConnector
  import opened RepositoryRegistry

  /** The step as configured: repository id, target directory and artifacts (fields may be null). */
  datatype Resolver = Resolver(repoid: JString, targetDirectory: JString, artifacts: Option<seq<ArtifactConfig>>)

  const DefaultTarget: string := ""

  /** The constructor: a null artifact list becomes empty, a blank directory becomes the default. */
  function NewResolver(repoid: JString, targetDirectory: JString, artifacts: Option<seq<ArtifactConfig>>): (r: Resolver)
    ensures r.repoid == repoid
    ensures r.artifacts.Some?
    ensures artifacts.Some? ==> r.artifacts == artifacts
    ensures artifacts.None? ==> r.artifacts.value == []
    ensures IsBlank(targetDirectory) ==> r.targetDirectory == Some(DefaultTarget)
    ensures !IsBlank(targetDirectory) ==> r.targetDirectory == targetDirectory
  {
    Resolver(
      repoid,
      if IsBlank(targetDirectory) then Some(DefaultTarget) else targetDirectory,
      Some(if artifacts.Some? then artifacts.value else []))
  }

  /** `getTargetDirectory`: the default for a blank field, otherwise the field; never null, never blank unless empty. */
  function TargetDirectory(r: Resolver): (d: string)
    ensures IsBlank(r.targetDirectory) ==> d == DefaultTarget
    ensures !IsBlank(r.targetDirectory) ==> r.targetDirectory == Some(d)
    ensures d == "" || !IsBlank(Some(d))
  {
    if IsBlank(r.targetDirectory) then DefaultTarget else r.targetDirectory.value
  }

  /**
   * The expanded target directory gets a trailing "/" unless it is empty or
   * already ends with one.
   */
  function NormaliseTargetDirectory(dir: JString): (r: JString)
    ensures IsEmpty(dir) ==> r == dir
    ensures !IsEmpty(dir) ==> r.Some? && EndsWith(r.value, "/")
    ensures !IsEmpty(dir) ==> dir.value <= r.value && |r.value| <= |dir.value| + 1
    ensures !IsEmpty(dir) ==> (r == dir <==> EndsWith(dir.value, "/"))
  {
    if IsEmpty(dir) then dir
    else if EndsWith(dir.value, "/") then dir
    else Some(dir.value + "/")
  }

  /** Normalising twice is normalising once. */
  lemma NormaliseIdempotent(dir: JString)
    ensures NormaliseTargetDirectory(NormaliseTargetDirectory(dir)) == NormaliseTargetDirectory(dir)
  {
  }

  /**
   * A build parameter overrides the version of group:artifact when it is a
   * version parameter value whose group and artifact ids equal the non-null
   * ids asked for.
   */
  predicate Matches(groupId: JString, artifactId: JString, p: ParameterValue) {
    && p.VersionParameterValue?
    && groupId.Some? && p.groupid == groupId
    && artifactId.Some? && p.artifactid == artifactId
  }

  /** The version after visiting `parameters` in order, each match replacing the previous result. */
  function OverriddenVersion(parameters: seq<ParameterValue>, groupId: JString, artifactId: JString, version: JString): JString
  {
    if |parameters| == 0 then version
    else
      var last := parameters[|parameters| - 1];
      if Matches(groupId, artifactId, last) then last.value
      else OverriddenVersion(parameters[..|parameters| - 1], groupId, artifactId, version)
  }

  /** Without a matching parameter the configured version stands. */
  lemma {:induction false} OverrideWithoutMatch(parameters: seq<ParameterValue>, groupId: JString, artifactId: JString, version: JString)
    requires forall k :: 0 <= k < |parameters| ==> !Matches(groupId, artifactId, parameters[k])
    ensures OverriddenVersion(parameters, groupId, artifactId, version) == version
    decreases |parameters|
  {
    if |parameters| > 0 {
      OverrideWithoutMatch(parameters[..|parameters| - 1], groupId, artifactId, version);
    }
  }

  /** A null group or artifact id is never overridden. */
  lemma NullIdsNeverOverridden(parameters: seq<ParameterValue>, groupId: JString, artifactId: JString, version: JString)
    requires groupId.None? || artifactId.None?
    ensures OverriddenVersion(parameters, groupId, artifactId, version) == version
  {
    OverrideWithoutMatch(parameters, groupId, artifactId, version);
  }

  /** The last matching parameter decides the version. */
  lemma {:induction false} OverrideLastMatchWins(parameters: seq<ParameterValue>, groupId: JString, artifactId: JString, version: JString, k: nat)
    requires k < |parameters| && Matches(groupId, artifactId, parameters[k])
    requires forall j :: k < j < |parameters| ==> !Matches(groupId, artifactId, parameters[j])
    ensures OverriddenVersion(parameters, groupId, artifactId, version) == parameters[k].value
    decreases |parameters|
  {
    if k < |parameters| - 1 {
      OverrideLastMatchWins(parameters[..|parameters| - 1], groupId, artifactId, version, k);
    }
  }

  /**
   * `checkVersionOverride`: visits the parameters of every parameters action
   * of the build, in order, keeping the value of each matching one.
   */
  method CheckVersionOverride(actions: seq<seq<ParameterValue>>, groupId: JString, artifactId: JString, version: JString)
    returns (result: JString)
    ensures result == OverriddenVersion(Flatten(actions), groupId, artifactId, version)
  {
    result := version;
    for i := 0 to |actions|
      invariant result == OverriddenVersion(Flatten(actions[..i]), groupId, artifactId, version)
    {
      var parameters := actions[i];
      assert Flatten(actions[..i]) + parameters[..0] == Flatten(actions[..i]);
      for j := 0 to |parameters|
        invariant result == OverriddenVersion(Flatten(actions[..i]) + parameters[..j], groupId, artifactId, version)
      {
        var p := parameters[j];
        if p.VersionParameterValue? {
          if groupId.Some? && groupId == p.groupid && artifactId.Some? && artifactId == p.artifactid {
            result := p.value;
          }
        }
        assert (Flatten(actions[..i]) + parameters[..j + 1])[..|Flatten(actions[..i])| + j]
            == Flatten(actions[..i]) + parameters[..j];
      }
      assert parameters[..|parameters|] == parameters;
      assert actions[..i + 1] == actions[..i] + [actions[i]];
      FlattenSnoc(actions[..i], actions[i]);
    }
    assert actions[..|actions|] == actions;
  }

  /**
   * The build a step runs in: its parameters actions, macro expansion, the
   * absolute-path conversion of the working directory, and the build log.
   */
  datatype Build = Build(
    actions: seq<seq<ParameterValue>>,
    expand: JString -> JString,
    absolutePath: string -> string,
    logger: PrintStream)

  /**
   * The request handed to the connector for one configured artifact: ids,
   * extension and file name expanded, the version (not expanded) possibly
   * overridden, and the extension also put in the classifier slot.
   */
  function ResolvedRequest(ac: ArtifactConfig, build: Build, targetDirectory: string): (r: ArtifactConfig)
    ensures r.groupId == build.expand(ac.groupId) && r.artifactId == build.expand(ac.artifactId)
    ensures r.classifier == r.extension == build.expand(ac.extension)
    ensures r.targetFileName.Some?
    ensures var d := build.expand(Some(targetDirectory));
            var name := Text(build.expand(ac.targetFileName));
            && (IsEmpty(d) ==> r.targetFileName.value == build.absolutePath(Text(d) + name))
            && (!IsEmpty(d) && EndsWith(d.value, "/") ==> r.targetFileName.value == build.absolutePath(d.value + name))
            && (!IsEmpty(d) && !EndsWith(d.value, "/") ==> r.targetFileName.value == build.absolutePath(d.value + "/" + name))
  {
    var groupId := build.expand(ac.groupId);
    var artifactId := build.expand(ac.artifactId);
    var version := OverriddenVersion(Flatten(build.actions), groupId, artifactId, ac.version);
    var extension := build.expand(ac.extension);
    var dir := NormaliseTargetDirectory(build.expand(Some(targetDirectory)));
    var target := build.absolutePath(Text(dir) + Text(build.expand(ac.targetFileName)));
    ArtifactConfig(groupId, artifactId, extension, version, extension, Some(target))
  }

  /** Without a parameter matching the expanded ids, a resolved request keeps the configured version. */
  lemma ResolvedVersionUnmatched(ac: ArtifactConfig, build: Build, targetDirectory: string)
    requires forall k :: 0 <= k < |Flatten(build.actions)| ==>
               !Matches(build.expand(ac.groupId), build.expand(ac.artifactId), Flatten(build.actions)[k])
    ensures ResolvedRequest(ac, build, targetDirectory).version == ac.version
  {
    OverrideWithoutMatch(Flatten(build.actions), build.expand(ac.groupId), build.expand(ac.artifactId), ac.version);
  }

  /** The last build parameter matching the expanded ids supplies the version of a resolved request. */
  lemma ResolvedVersionLastMatch(ac: ArtifactConfig, build: Build, targetDirectory: string, k: nat)
    requires k < |Flatten(build.actions)|
    requires Matches(build.expand(ac.groupId), build.expand(ac.artifactId), Flatten(build.actions)[k])
    requires forall j :: k < j < |Flatten(build.actions)| ==>
               !Matches(build.expand(ac.groupId), build.expand(ac.artifactId), Flatten(build.actions)[j])
    ensures ResolvedRequest(ac, build, targetDirectory).version == Flatten(build.actions)[k].value
  {
    OverrideLastMatchWins(Flatten(build.actions), build.expand(ac.groupId), build.expand(ac.artifactId), ac.version, k);
  }

  /** The loop of `perform` that builds one resolved request per configured artifact, in order. */
  method ResolveRequests(artifacts: seq<ArtifactConfig>, build: Build, targetDirectory: string)
    returns (requests: seq<ArtifactConfig>)
    ensures |requests| == |artifacts|
    ensures forall i :: 0 <= i < |artifacts| ==> requests[i] == ResolvedRequest(artifacts[i], build, targetDirectory)
    ensures forall i :: 0 <= i < |artifacts| ==>
              requests[i].classifier == requests[i].extension == build.expand(artifacts[i].extension)
    ensures forall i :: 0 <= i < |artifacts| ==>
              requests[i].groupId == build.expand(artifacts[i].groupId)
              && requests[i].artifactId == build.expand(artifacts[i].artifactId)
  {
    requests := [];
    for i := 0 to |artifacts|
      invariant |requests| == i
      invariant forall j :: 0 <= j < i ==> requests[j] == ResolvedRequest(artifacts[j], build, targetDirectory)
    {
      var ac := artifacts[i];
      var groupId := build.expand(ac.groupId);
      var artifactId := build.expand(ac.artifactId);
      var version := CheckVersionOverride(build.actions, groupId, artifactId, ac.version);
      var extension := build.expand(ac.extension);
      var dir := NormaliseTargetDirectory(build.expand(Some(targetDirectory)));
      var target := build.absolutePath(Text(dir) + Text(build.expand(ac.targetFileName)));
      requests := requests + [ArtifactConfig(groupId, artifactId, extension, version, extension, Some(target))];
    }
  }

  /** What one run of `perform` did before it returned. */
  datatype PerformTrace =
    | InvalidRepoId
    | ConnectorFailed(error: string)
    | NoArtifacts(release: Result<Connector, string>)
    | Attempted(requests: seq<ArtifactConfig>, download: Result<Batch, string>, release: Result<Connector, string>)

  /**
   * `perform`: look the repository up, open a connector on it alone, build
   * the requests, download them, and close the connector quietly. The step
   * reports success whatever happened.
   */
  method Perform(r: Resolver, host: Host, build: Build) returns (ok: bool, trace: PerformTrace)
    ensures ok
    ensures Lookup(host.repositories, r.repoid).None? <==> trace == InvalidRepoId
    ensures Lookup(host.repositories, r.repoid).Some? ==>
              (trace.ConnectorFailed? <==> NewConnector(Some(build.logger), [Lookup(host.repositories, r.repoid).value], host.tempDir).Failure?)
    ensures trace.Attempted? <==> !trace.InvalidRepoId? && !trace.ConnectorFailed? && r.artifacts.Some?
    ensures trace.Attempted? ==>
              && |trace.requests| == |r.artifacts.value|
              && forall i :: 0 <= i < |trace.requests| ==>
                   trace.requests[i] == ResolvedRequest(r.artifacts.value[i], build, TargetDirectory(r))
    ensures trace.Attempted? && host.engine.session.Failure? ==> trace.download == Failure(host.engine.session.error)
    ensures trace.Attempted? ==> (host.engine.session.Success? <==> trace.download.Success?)
    ensures trace.Attempted? && trace.download.Success? ==>
              |trace.download.value.items| == |trace.requests| &&
              forall i :: 0 <= i < |trace.requests| ==>
                trace.download.value.items[i]
                  == DownloadOne(host.engine, GetRepositories([Lookup(host.repositories, r.repoid).value]), trace.requests[i])
    ensures (trace.NoArtifacts? || trace.Attempted?) && host.tempDir.deleteDirectorySucceeds ==>
              trace.release.Success? && trace.release.value.state == Closed
  {
    var conf := Lookup(host.repositories, r.repoid);
    if conf.None? {
      return true, InvalidRepoId;
    }
    var connecting := NewConnector(Some(build.logger), [conf.value], host.tempDir);
    if connecting.Failure? {
      return true, ConnectorFailed(connecting.error);
    }
    var rc := connecting.value;
    if r.artifacts.None? {
      return true, NoArtifacts(Close(rc, host.tempDir));
    }
    var requests := ResolveRequests(r.artifacts.value, build, TargetDirectory(r));
    var download := DownloadArtifacts(rc, host.engine, requests);
    return true, Attempted(requests, download, Close(rc, host.tempDir));
  }
}
