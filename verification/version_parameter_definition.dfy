/**
 * The version build parameter: its name, its copy with a default value, the
 * list of versions it offers, and the validators of its configuration form.
 */
module VersionParameterDefinition {
  import opened Wrappers
  import opened JavaStrings
  import opened Seqs
  import opened Configs
  import opened RepositoryConnector
  import opened RepositoryRegistry

  /** A parameter definition; `name` and `description` are those of the parameter base class. */
  datatype Definition = Definition(
    name: string,
    description: JString,
    repoid: JString,
    groupid: JString,
    artifactid: JString,
    propertyName: JString)

  /** The constructor: the parameter is named group id, a dot, then artifact id. */
  function NewDefinition(repoid: JString, groupid: JString, artifactid: JString, propertyName: JString, description: JString)
    : (d: Definition)
    ensures d.repoid == repoid && d.groupid == groupid && d.artifactid == artifactid
    ensures d.propertyName == propertyName && d.description == description
    ensures |d.name| == |Text(groupid)| + 1 + |Text(artifactid)|
    ensures d.name[..|Text(groupid)|] == Text(groupid)
    ensures d.name[|Text(groupid)|] == '.'
    ensures d.name[|Text(groupid)| + 1..] == Text(artifactid)
  {
    Definition(Text(groupid) + "." + Text(artifactid), description, repoid, groupid, artifactid, propertyName)
  }

  /**
   * `copyWithDefaultValue`: a string value yields a definition on the same
   * repository with the same description and empty ids and property name;
   * any other value yields the definition itself.
   */
  function CopyWithDefaultValue(d: Definition, defaultValue: ParameterValue): (r: Definition)
    ensures IsStringParameterValue(defaultValue) ==>
              && r.repoid == d.repoid && r.description == d.description
              && r.groupid == Some("") && r.artifactid == Some("") && r.propertyName == Some("")
              && r.name == "."
    ensures !IsStringParameterValue(defaultValue) ==> r == d
  {
    if IsStringParameterValue(defaultValue) then NewDefinition(d.repoid, Some(""), Some(""), Some(""), d.description)
    else d
  }

  /** Copying a copy with the same value changes nothing more. */
  lemma CopyWithDefaultValueIdempotent(d: Definition, defaultValue: ParameterValue)
    ensures CopyWithDefaultValue(CopyWithDefaultValue(d, defaultValue), defaultValue) == CopyWithDefaultValue(d, defaultValue)
  {
  }

  /**
   * The versions the repository `repoid` reports for group:artifact, through
   * a connector on that repository alone, or the message of the exception
   * that stopped the query. Both `getChoices` and `checkPath` ask this.
   */
  function VersionsOf(host: Host, repoid: JString, groupid: JString, artifactid: JString): Result<seq<Version>, string>
  {
    match Lookup(host.repositories, repoid)
    case None => Failure("invalid repo id: " + Text(repoid))
    case Some(conf) =>
      match NewConnector(Some(SystemOut), [conf], host.tempDir)
      case Failure(e) => Failure(e)
      case Success(c) => ListVersions(c, host.engine, groupid, artifactid, None, None, None)
  }

  /** The `toString` text of each version, in order. */
  function Texts(versions: seq<Version>): (r: seq<string>)
    ensures |r| == |versions|
    ensures forall i :: 0 <= i < |versions| ==> r[i] == versions[i].text
  {
    seq(|versions|, i requires 0 <= i < |versions| => versions[i].text)
  }

  function ErrorEntry(message: string): string {
    "Could not determine versions (" + message + ")"
  }

  /**
   * `getChoices`: the engine's versions in reverse order, or a single entry
   * describing why they could not be determined.
   */
  function GetChoices(d: Definition, host: Host): (choices: seq<string>)
    ensures VersionsOf(host, d.repoid, d.groupid, d.artifactid).Success? ==>
              && |choices| == |VersionsOf(host, d.repoid, d.groupid, d.artifactid).value|
              && forall i :: 0 <= i < |choices| ==>
                   choices[i] == VersionsOf(host, d.repoid, d.groupid, d.artifactid).value[|choices| - 1 - i].text
    ensures VersionsOf(host, d.repoid, d.groupid, d.artifactid).Failure? ==> choices == [ErrorEntry(VersionsOf(host, d.repoid, d.groupid, d.artifactid).error)]
  {
    var versionStrings := match VersionsOf(host, d.repoid, d.groupid, d.artifactid)
      case Success(versions) => Texts(versions)
      case Failure(e) => [ErrorEntry(e)];
    if |versionStrings| > 0 then Reverse(versionStrings) else versionStrings
  }

  /** Versions the engine lists oldest first are offered newest first. */
  lemma ChoicesNewestFirst(d: Definition, host: Host, older: (string, string) -> bool)
    requires VersionsOf(host, d.repoid, d.groupid, d.artifactid).Success?
    requires forall i, j :: 0 <= i < j < |VersionsOf(host, d.repoid, d.groupid, d.artifactid).value| ==>
               older(VersionsOf(host, d.repoid, d.groupid, d.artifactid).value[i].text, VersionsOf(host, d.repoid, d.groupid, d.artifactid).value[j].text)
    ensures forall i, j :: 0 <= i < j < |GetChoices(d, host)| ==> older(GetChoices(d, host)[j], GetChoices(d, host)[i])
  {
    var vs := VersionsOf(host, d.repoid, d.groupid, d.artifactid).value;
    var choices := GetChoices(d, host);
    forall i, j | 0 <= i < j < |choices| ensures older(choices[j], choices[i]) {
      assert choices[j] == vs[|vs| - 1 - j].text;
      assert choices[i] == vs[|vs| - 1 - i].text;
    }
  }

  /** The keys of the plugin's localised messages. */
  datatype Message =
    | EmptyGroupId
    | EmptyArtifactId
    | NoVersions(coordinate: string)
    | EmptyRepositoryName
    | EmptyBaseURL
    | EmptyUsername
    | Succeeded

  datatype FormValidation = Ok | OkWith(message: Message) | Error(message: Message)

  /** The connector `checkPath` opens: on the registered repository, or on none when the id is unknown. */
  function PathConnector(host: Host, repoid: JString): Result<Connector, string>
  {
    var conf := Lookup(host.repositories, repoid);
    NewConnector(Some(SystemOut), if conf.Some? then [conf.value] else [], host.tempDir)
  }

  /** The outcome of a path check and whether its temporary local repository is still on disk. */
  datatype PathCheck = PathCheck(validation: FormValidation, tmpRepoLeft: bool)

  function NoVersionsError(artifactid: JString, groupid: JString): FormValidation {
    Error(NoVersions(Text(groupid) + "." + Text(artifactid)))
  }

  /**
   * `checkPath` as written: it opens a connector and never closes it, so
   * every check that opened one leaves its temporary local repository behind.
   */
  function CheckPathAsWritten(host: Host, artifactid: JString, groupid: JString, repoid: JString): (p: PathCheck)
    ensures p.validation.Error? <==>
              VersionsOf(host, repoid, groupid, artifactid).Failure?
              || |VersionsOf(host, repoid, groupid, artifactid).value| == 0
    ensures p.validation.Error? ==> p.validation == NoVersionsError(artifactid, groupid)
    ensures p.tmpRepoLeft <==> PathConnector(host, repoid).Success?
  {
    match PathConnector(host, repoid)
    case Failure(_) => PathCheck(NoVersionsError(artifactid, groupid), false)
    case Success(c) =>
      var versions := VersionsOf(host, repoid, groupid, artifactid);
      var validation := if versions.Failure? || |versions.value| == 0 then NoVersionsError(artifactid, groupid) else Ok;
      PathCheck(validation, true)
  }

  /** A check on a working filesystem leaves its temporary local repository on disk. */
  lemma CheckPathLeavesTmpRepo(host: Host, artifactid: JString, groupid: JString, repoid: JString)
    requires host.tempDir.createTempFile.Success? && host.tempDir.deleteSucceeds && host.tempDir.mkdirsSucceeds
    ensures CheckPathAsWritten(host, artifactid, groupid, repoid).tmpRepoLeft
  {
  }

  /**
   * `checkPath` with the connector closed quietly afterwards, as `getChoices`
   * does: same verdict, and the temporary local repository is removed
   * whenever the recursive delete works.
   */
  function CheckPath(host: Host, artifactid: JString, groupid: JString, repoid: JString): (p: PathCheck)
    ensures p.validation == CheckPathAsWritten(host, artifactid, groupid, repoid).validation
    ensures p.validation.Error? <==>
              VersionsOf(host, repoid, groupid, artifactid).Failure?
              || |VersionsOf(host, repoid, groupid, artifactid).value| == 0
    ensures host.tempDir.deleteDirectorySucceeds ==> !p.tmpRepoLeft
  {
    var asWritten := CheckPathAsWritten(host, artifactid, groupid, repoid);
    match PathConnector(host, repoid)
    case Failure(_) => asWritten
    case Success(c) => PathCheck(asWritten.validation, Close(c, host.tempDir).Failure?)
  }

  /**
   * `doCheckGroupid`: an empty group id is an error; with artifact id and
   * repository id both given the path check decides; otherwise it is ok.
   */
  function DoCheckGroupid(host: Host, groupid: JString, artifactid: JString, repoid: JString): (r: FormValidation)
    ensures IsEmpty(groupid) ==> r == Error(EmptyGroupId)
    ensures !IsEmpty(groupid) && (IsEmpty(artifactid) || IsEmpty(repoid)) ==> r == Ok
    ensures !IsEmpty(groupid) && !IsEmpty(artifactid) && !IsEmpty(repoid) ==>
              (r.Error? <==> VersionsOf(host, repoid, groupid, artifactid).Failure?
                             || |VersionsOf(host, repoid, groupid, artifactid).value| == 0)
  {
    if IsEmpty(groupid) then Error(EmptyGroupId)
    else if !IsEmpty(artifactid) && !IsEmpty(repoid) then CheckPath(host, artifactid, groupid, repoid).validation
    else Ok
  }

  /** `doCheckArtifactid`: the same rule with the roles of group id and artifact id swapped. */
  function DoCheckArtifactid(host: Host, artifactid: JString, groupid: JString, repoid: JString): (r: FormValidation)
    ensures IsEmpty(artifactid) ==> r == Error(EmptyArtifactId)
    ensures !IsEmpty(artifactid) && (IsEmpty(groupid) || IsEmpty(repoid)) ==> r == Ok
    ensures !IsEmpty(artifactid) && !IsEmpty(groupid) && !IsEmpty(repoid) ==>
              (r.Error? <==> VersionsOf(host, repoid, groupid, artifactid).Failure?
                             || |VersionsOf(host, repoid, groupid, artifactid).value| == 0)
  {
    if IsEmpty(artifactid) then Error(EmptyArtifactId)
    else if !IsEmpty(groupid) && !IsEmpty(repoid) then CheckPath(host, artifactid, groupid, repoid).validation
    else Ok
  }

  /** With both ids given, the two validators give the same verdict. */
  lemma GroupAndArtifactChecksAgree(host: Host, groupid: JString, artifactid: JString, repoid: JString)
    requires !IsEmpty(groupid) && !IsEmpty(artifactid)
    ensures DoCheckGroupid(host, groupid, artifactid, repoid) == DoCheckArtifactid(host, artifactid, groupid, repoid)
  {
  }

  function DoCheckRepoid(repoid: JString): (r: FormValidation)
    ensures r.Error? <==> IsEmpty(repoid)
    ensures r.Error? ==> r.message == EmptyRepositoryName
    ensures !r.Error? ==> r == Ok
  {
    if IsEmpty(repoid) then Error(EmptyRepositoryName) else Ok
  }

  function DoCheckBaseurl(baseurl: JString): (r: FormValidation)
    ensures r.Error? <==> IsEmpty(baseurl)
    ensures r.Error? ==> r.message == EmptyBaseURL
    ensures !r.Error? ==> r == Ok
  {
    if IsEmpty(baseurl) then Error(EmptyBaseURL) else Ok
  }

  /** A password without a user name is an error; everything else passes. */
  function DoCheckPassword(password: JString, username: JString): (r: FormValidation)
    ensures r.Error? <==> !IsEmpty(password) && IsEmpty(username)
    ensures r.Error? ==> r.message == EmptyUsername
    ensures !r.Error? ==> r == Ok
  {
    if !IsEmpty(password) && IsEmpty(username) then Error(EmptyUsername) else Ok
  }

  /** The connection test is disabled: it always reports success. */
  function DoTestConnection(baseurl: JString, username: JString, password: JString): (r: FormValidation)
    ensures r == OkWith(Succeeded)
  {
    OkWith(Succeeded)
  }
}
