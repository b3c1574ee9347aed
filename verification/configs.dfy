/**
 * The plain records the plugin passes around. Their Java classes
 * (RepositoryConfig, ArtifactConfig, UserPwd and the build parameter values)
 * are not part of this model; the fields are the ones the core reads, in the
 * order of their constructors.
 */
module Configs {
  import opened JavaStrings

  /** A configured remote repository: id, layout type, base URL and optional credentials. */
  datatype RepositoryConfig = RepositoryConfig(
    id: JString,
    repoType: JString,
    url: JString,
    user: JString,
    password: JString,
    repositoryLogging: bool)

  /** One requested artifact and the file it is copied to. */
  datatype ArtifactConfig = ArtifactConfig(
    groupId: JString,
    artifactId: JString,
    classifier: JString,
    version: JString,
    extension: JString,
    targetFileName: JString)

  /** The user/password pair of the deployer's security override. */
  datatype UserPwd = UserPwd(user: JString, password: JString)

  /**
   * A build parameter value. A version parameter value is also a string
   * parameter value: its selected version is the inherited `value` field.
   */
  datatype ParameterValue =
    | VersionParameterValue(groupid: JString, artifactid: JString, propertyName: JString, value: JString)
    | StringParameterValue(name: JString, value: JString)
    | OtherParameterValue(name: JString)

  /** `instanceof StringParameterValue`. */
  predicate IsStringParameterValue(p: ParameterValue) {
    p.VersionParameterValue? || p.StringParameterValue?
  }
}
