/**
 * The (disabled) deploy step: its credential getters, its empty `perform`,
 * and the POM it would deploy, instantiated from a template.
 */
module ArtifactDeployer {
  import opened Wrappers
  import opened JavaStrings
  import opened LineReader
  import opened Configs

  /** The step as configured; `artifacts` is a public field and may be null. */
  datatype Deployer = Deployer(
    artifacts: Option<seq<ArtifactConfig>>,
    repoId: JString,
    snapshotRepoId: JString,
    overwriteSecurity: Option<UserPwd>,
    enableRepoLogging: bool)

  /** The constructor: a null artifact list becomes empty; every other argument is kept. */
  function NewDeployer(artifacts: Option<seq<ArtifactConfig>>, repoId: JString, snapshotRepoId: JString,
                       overwriteSecurity: Option<UserPwd>, enableRepoLogging: bool): (d: Deployer)
    ensures d.artifacts == Some(if artifacts.Some? then artifacts.value else [])
    ensures d.repoId == repoId && d.snapshotRepoId == snapshotRepoId
    ensures d.overwriteSecurity == overwriteSecurity && d.enableRepoLogging == enableRepoLogging
  {
    Deployer(Some(if artifacts.Some? then artifacts.value else []), repoId, snapshotRepoId, overwriteSecurity, enableRepoLogging)
  }

  /** `isOverwriteSecurity`: whether the deploy overrides the repository's credentials. */
  function IsOverwriteSecurity(d: Deployer): (b: bool)
    ensures b <==> d.overwriteSecurity.Some?
  {
    d.overwriteSecurity.Some?
  }

  /** The override's user name, or null without an override. */
  function GetUserName(d: Deployer): (r: JString)
    ensures !IsOverwriteSecurity(d) ==> r.None?
    ensures IsOverwriteSecurity(d) ==> r == d.overwriteSecurity.value.user
  {
    if IsOverwriteSecurity(d) then d.overwriteSecurity.value.user else None
  }

  /** The override's password, or null without an override. */
  function GetPassword(d: Deployer): (r: JString)
    ensures !IsOverwriteSecurity(d) ==> r.None?
    ensures IsOverwriteSecurity(d) ==> r == d.overwriteSecurity.value.password
  {
    if IsOverwriteSecurity(d) then d.overwriteSecurity.value.password else None
  }

  /** Credentials are reported only with an override, and the two getters give back the override itself. */
  lemma CredentialsNeedOverride(d: Deployer)
    ensures GetUserName(d).Some? || GetPassword(d).Some? ==> IsOverwriteSecurity(d)
    ensures IsOverwriteSecurity(d) ==> Some(UserPwd(GetUserName(d), GetPassword(d))) == d.overwriteSecurity
  {
  }

  /**
   * `perform`: the loop body is empty, so the step succeeds; only iterating
   * a null artifact list throws, and the error handler then reports failure.
   */
  function Perform(d: Deployer): (ok: bool)
    ensures ok <==> d.artifacts.Some?
  {
    match d.artifacts
    case None => false
    case Some(_) => true
  }

  /** A deployer built by its constructor always reports success. */
  lemma ConstructedDeployerSucceeds(artifacts: Option<seq<ArtifactConfig>>, repoId: JString, snapshotRepoId: JString,
                                    overwriteSecurity: Option<UserPwd>, enableRepoLogging: bool)
    ensures Perform(NewDeployer(artifacts, repoId, snapshotRepoId, overwriteSecurity, enableRepoLogging))
  {
  }

  const ArtifactIdPlaceholder: string := "ARTIFACTID"
  const GroupIdPlaceholder: string := "GROUPID"
  const VersionPlaceholder: string := "VERSION"
  const PackagingPlaceholder: string := "PACKAGING"

  /**
   * `preparedPom`: the template's lines are read and appended without
   * separator, then the placeholders are replaced in the fixed order
   * artifact id, group id, version, packaging (by the extension). A missing
   * template gives null; a null field makes its `replace` throw, and the
   * text substituted so far is returned.
   */
  function PreparedPom(template: JString, artifact: ArtifactConfig): (pom: JString)
    ensures pom.None? <==> template.None?
    ensures template.Some? && artifact.artifactId.None? ==> pom == Some(StripTerminators(template.value))
  {
    if template.None? then None
    else
      var content := Concat(ReadLines(template.value));
      ConcatReadLines(template.value);
      Some(Substitute(content, artifact))
  }

  /**
   * The replace chain of `preparedPom` on the text read from the template;
   * it ends early, with the text substituted so far, at the first null field.
   * An internal helper of `PreparedPom`: its contract is `SubstitutionChain`.
   */
  function Substitute(content: string, artifact: ArtifactConfig): string
  {
    if artifact.artifactId.None? then content
    else
      var withArtifact := ReplaceAll(content, ArtifactIdPlaceholder, artifact.artifactId.value);
      if artifact.groupId.None? then withArtifact
      else
        var withGroup := ReplaceAll(withArtifact, GroupIdPlaceholder, artifact.groupId.value);
        if artifact.version.None? then withGroup
        else
          var withVersion := ReplaceAll(withGroup, VersionPlaceholder, artifact.version.value);
          if artifact.extension.None? then withVersion
          else ReplaceAll(withVersion, PackagingPlaceholder, artifact.extension.value)
  }

  /** A template mentioning no placeholder comes out as the template without line breaks, whichever fields are null. */
  lemma PomWithoutPlaceholders(template: string, artifact: ArtifactConfig)
    requires !Mentions(StripTerminators(template), ArtifactIdPlaceholder)
    requires !Mentions(StripTerminators(template), GroupIdPlaceholder)
    requires !Mentions(StripTerminators(template), VersionPlaceholder)
    requires !Mentions(StripTerminators(template), PackagingPlaceholder)
    ensures PreparedPom(Some(template), artifact) == Some(StripTerminators(template))
  {
    var t := StripTerminators(template);
    ConcatReadLines(template);
    if artifact.artifactId.Some? {
      ReplaceAllAbsent(t, ArtifactIdPlaceholder, artifact.artifactId.value);
    }
    if artifact.groupId.Some? {
      ReplaceAllAbsent(t, GroupIdPlaceholder, artifact.groupId.value);
    }
    if artifact.version.Some? {
      ReplaceAllAbsent(t, VersionPlaceholder, artifact.version.value);
    }
    if artifact.extension.Some? {
      ReplaceAllAbsent(t, PackagingPlaceholder, artifact.extension.value);
    }
  }

  /**
   * The substitution chain: the template without line breaks has its
   * placeholders replaced in the fixed order artifact id, group id, version,
   * packaging, and the first null field stops the chain with the text
   * substituted so far.
   */
  lemma SubstitutionChain(template: string, artifact: ArtifactConfig)
    ensures artifact.artifactId.Some? ==>
      var withArtifact := ReplaceAll(StripTerminators(template), ArtifactIdPlaceholder, artifact.artifactId.value);
      && (artifact.groupId.None? ==> PreparedPom(Some(template), artifact) == Some(withArtifact))
      && (artifact.groupId.Some? ==>
            var withGroup := ReplaceAll(withArtifact, GroupIdPlaceholder, artifact.groupId.value);
            && (artifact.version.None? ==> PreparedPom(Some(template), artifact) == Some(withGroup))
            && (artifact.version.Some? ==>
                  var withVersion := ReplaceAll(withGroup, VersionPlaceholder, artifact.version.value);
                  && (artifact.extension.None? ==> PreparedPom(Some(template), artifact) == Some(withVersion))
                  && (artifact.extension.Some? ==>
                        PreparedPom(Some(template), artifact)
                        == Some(ReplaceAll(withVersion, PackagingPlaceholder, artifact.extension.value)))))
  {
    ConcatReadLines(template);
  }

  /**
   * The POM depends only on the template's text without line breaks, so a
   * placeholder split over several lines is replaced as if written on one.
   */
  lemma PomIgnoresLineBreaks(template: string, artifact: ArtifactConfig)
    ensures PreparedPom(Some(template), artifact) == PreparedPom(Some(StripTerminators(template)), artifact)
  {
    ConcatReadLines(template);
    ConcatReadLines(StripTerminators(template));
    StripIdempotent(template);
  }

  /** A placeholder split across two template lines is joined and replaced. */
  lemma PlaceholderAcrossLines(x: string, y: string, artifact: ArtifactConfig)
    requires NoTerminator(x) && NoTerminator(y)
    ensures PreparedPom(Some(x + "\n" + y), artifact) == PreparedPom(Some(x + y), artifact)
  {
    var nl := "\n";
    assert nl[1..] == "";
    assert StripTerminators(nl) == "";
    StripAppend(x + nl, y);
    StripAppend(x, nl);
    StripClean(x);
    StripClean(y);
    StripClean(x + y);
    assert StripTerminators(x + nl + y) == x + y;
    PomIgnoresLineBreaks(x + "\n" + y, artifact);
    PomIgnoresLineBreaks(x + y, artifact);
  }

  /**
   * An example of the cascade: an artifact id that itself reads GROUPID is
   * replaced again by the later group-id step.
   */
  lemma SubstitutionCascades()
    ensures PreparedPom(Some("ARTIFACTID"), ArtifactConfig(Some("g"), Some("GROUPID"), None, Some("1"), Some("jar"), None))
         == Some("g")
  {
    ReadSingleLine(ArtifactIdPlaceholder);
    assert Concat([ArtifactIdPlaceholder]) == ArtifactIdPlaceholder + Concat([]);
    ReplaceAllWhole(ArtifactIdPlaceholder, GroupIdPlaceholder);
    ReplaceAllWhole(GroupIdPlaceholder, "g");
  }
}
