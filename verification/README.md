# Repository connector plugin — a Dafny model of its core

This project models the sequential logic of a Jenkins plugin that downloads
Maven artifacts from configured remote repositories through the Aether
resolver library:

- the **repository connector** (`RepositoryConnector`): a temporary local
  repository directory created on construction and deleted on close; the
  mapping of repository configurations to remote repositories, with
  credentials only when a user name is set; the version query for
  `group:artifact:[0,)`; and the batch download loop, which isolates
  failures per item, ignores failures to close streams and returns the
  conjunction of the per-item outcomes;
- the **resolve step** (`ArtifactResolver`): constructor defaults, the target
  directory and its trailing-slash normalisation, the version override taken
  from build parameters (last match wins, null ids never match), one resolved
  request per configured artifact, and a `perform` that always reports success;
- the **version parameter** (`VersionParameterDefinition`): the parameter
  name, `copyWithDefaultValue`, the reversed choice list or its error entry,
  and the form validators;
- the **deploy step** (`ArtifactDeployer`): the credential getters, the empty
  `perform`, and the POM template instantiation — template lines appended
  without separator, then a fixed chain of replace-all substitutions.

The resolution engine, the filesystem and macro expansion are oracles,
given as values of the `Engine`, `TempDirOracle` and `Build` datatypes. The
engine's and the build's fields are functions that answer each call. The
filesystem's fields are the outcomes of its four operations. Java `null` strings are
`Option<string>` (`JavaStrings.JString`), and `null` in a string
concatenation renders as "null" (`JavaStrings.Text`).

Files: `wrappers.dfy` (Option/Result), `java_strings.dfy` (String and
StringUtils operations, `String.replace`), `seqs.dfy` (reverse, flatten),
`line_reader.dfy` (`BufferedReader.readLine`), `configs.dfy` (the plain
records), `repository_registry.dfy` (the repository registry and the
environment a step runs in), then one file per source class.

Choices where the model follows the code as written:

- `listVersions` returns the engine's list in the engine's order; only
  `getChoices` reverses it.
- Nothing stops `listVersions` or `downloadArtifacts` from running on a
  closed connector.
- The resolve step passes the expanded extension both as the classifier and
  as the extension of the request, and the download only uses the extension.
  The order of ArtifactConfig's constructor parameters (group, artifact,
  classifier, version, extension, target file) is taken from the connector's
  unit test; ArtifactConfig.java, RepositoryConfig.java, UserPwd.java and
  VersionParameterValue.java are not part of this model.
- A version parameter value is taken to be a string parameter value (the
  resolver reads its inherited public `value` field), so
  `copyWithDefaultValue` treats both alike.

## Model

| member | source | states |
|---|---|---|
| RepositoryConnector.NewConnector | src/main/java/org/jvnet/hudson/plugins/artifactdownloader/aether/RepositoryConnector.java:53-63 | A connector opens exactly when the temp file is created, deleted and recreated as a directory; it is then Open on the given configs. A null logger becomes standard output and any other logger is kept. Each failure gives its own I/O error message. |
| RepositoryConnector.Close | src/main/java/org/jvnet/hudson/plugins/artifactdownloader/aether/RepositoryConnector.java:65-68 | Closing an Open connector succeeds exactly when the recursive delete does, and leaves it Closed with nothing else changed. Closing a Closed connector is a no-op. |
| RepositoryConnector.Lifecycle | src/main/java/org/jvnet/hudson/plugins/artifactdownloader/aether/RepositoryConnector.java:53-68 | Open then Closed: after a successful construction and delete the connector is Closed, and a second close changes nothing. |
| RepositoryConnector.ToRemote | src/main/java/org/jvnet/hudson/plugins/artifactdownloader/aether/RepositoryConnector.java:136-145 | A remote carries its config's id, type and url. It has authentication iff the user is neither null nor empty, and that authentication holds the config's user and password. |
| RepositoryConnector.GetRepositories | src/main/java/org/jvnet/hudson/plugins/artifactdownloader/aether/RepositoryConnector.java:133-148 | Exactly one remote per config, in config order. |
| RepositoryConnector.RangeCoordinateParts | src/main/java/org/jvnet/hudson/plugins/artifactdownloader/aether/RepositoryConnector.java:154 | For colon-free ids, splitting the range coordinate at its colons gives exactly [group, artifact, "[0,)"]. |
| RepositoryConnector.ListVersions | src/main/java/org/jvnet/hudson/plugins/artifactdownloader/aether/RepositoryConnector.java:150-171 | When building the repository system or the session fails, that failure is the result. Otherwise the result is the engine's answer to a range query for group:artifact:[0,) against the connector's remotes. |
| RepositoryConnector.ListVersionsQuery | src/main/java/org/jvnet/hudson/plugins/artifactdownloader/aether/RepositoryConnector.java:150-171 | For every id, listVersions returns the engine's answer unchanged, against one remote per configured repository in order, whatever packaging, classifier or constraint is passed. When neither id contains a colon, splitting the query coordinate at its colons gives exactly group, artifact, [0,). |
| RepositoryConnector.DownloadOne | src/main/java/org/jvnet/hudson/plugins/artifactdownloader/aether/RepositoryConnector.java:181-207 | An item is downloaded iff resolution, a non-null target, opening both streams and the copy all succeed. Its coordinate is group, artifact, extension, version. At most two close failures are logged and ignored. |
| RepositoryConnector.CloseFailuresIgnored | src/main/java/org/jvnet/hudson/plugins/artifactdownloader/aether/RepositoryConnector.java:204-207 | Whether streams close never changes whether an item was downloaded. |
| RepositoryConnector.DownloadArtifacts | src/main/java/org/jvnet/hudson/plugins/artifactdownloader/aether/RepositoryConnector.java:173-210 | A session failure aborts the batch. Otherwise there is one outcome per artifact, in order, each fixed by its own request alone, so a failure never affects later items. The result is true iff every item was downloaded, so it is true for an empty batch. |
| RepositoryRegistry.Lookup | src/main/java/org/jvnet/hudson/plugins/artifactdownloader/ArtifactResolver.java:119-121 | A repository is found iff the id is non-null and registered, and it is the registered config. |
| ArtifactResolver.NewResolver | src/main/java/org/jvnet/hudson/plugins/artifactdownloader/ArtifactResolver.java:50-58 | A null artifact list becomes empty and any other list is kept. A blank target directory becomes "" and any other is kept. The repo id is kept. |
| ArtifactResolver.TargetDirectory | src/main/java/org/jvnet/hudson/plugins/artifactdownloader/ArtifactResolver.java:60-62 | The getter gives "" for a blank field and the field otherwise. It never gives null, nor a non-empty blank string. |
| ArtifactResolver.NormaliseTargetDirectory | src/main/java/org/jvnet/hudson/plugins/artifactdownloader/ArtifactResolver.java:97-101 | Null or "" is unchanged. Any other directory becomes its shortest extension ending in "/". It is unchanged iff it already ends in "/". |
| ArtifactResolver.NormaliseIdempotent | src/main/java/org/jvnet/hudson/plugins/artifactdownloader/ArtifactResolver.java:97-101 | Normalising twice is normalising once. |
| ArtifactResolver.OverrideWithoutMatch | src/main/java/org/jvnet/hudson/plugins/artifactdownloader/ArtifactResolver.java:134-152 | With no matching parameter, the configured version is returned. |
| ArtifactResolver.NullIdsNeverOverridden | src/main/java/org/jvnet/hudson/plugins/artifactdownloader/ArtifactResolver.java:140-143 | A null group id or artifact id matches no parameter, so the version stands. |
| ArtifactResolver.OverrideLastMatchWins | src/main/java/org/jvnet/hudson/plugins/artifactdownloader/ArtifactResolver.java:137-150 | The last matching version parameter in iteration order gives the result, whatever matched earlier. |
| ArtifactResolver.CheckVersionOverride | src/main/java/org/jvnet/hudson/plugins/artifactdownloader/ArtifactResolver.java:134-152 | The nested loop over actions and parameters gives the override of the flattened parameter sequence. That is last match wins among version parameter values whose ids equal the non-null ids. |
| ArtifactResolver.ResolvedVersionUnmatched | src/main/java/org/jvnet/hudson/plugins/artifactdownloader/ArtifactResolver.java:94 | With no parameter matching the expanded ids, a request keeps its configured, unexpanded version. |
| ArtifactResolver.ResolvedVersionLastMatch | src/main/java/org/jvnet/hudson/plugins/artifactdownloader/ArtifactResolver.java:94 | Otherwise the request's version is the value of the last matching parameter. |
| ArtifactResolver.ResolvedRequest | src/main/java/org/jvnet/hudson/plugins/artifactdownloader/ArtifactResolver.java:92-105 | One resolved request carries the expanded group and artifact ids, and the expanded extension as both classifier and extension. Its target file is the absolute path of the expanded target directory followed by the expanded file name. A "/" is inserted between them when the directory is non-empty and does not already end in one. An empty or null directory is used as is. |
| ArtifactResolver.ResolveRequests | src/main/java/org/jvnet/hudson/plugins/artifactdownloader/ArtifactResolver.java:90-108 | One request per configured artifact, in order. Each carries the expanded ids, and the expanded extension in both the classifier and extension slots. |
| ArtifactResolver.Perform | src/main/java/org/jvnet/hudson/plugins/artifactdownloader/ArtifactResolver.java:73-117 | The step always reports true. An unknown repo id stops it before any connector or download. Otherwise it resolves one request per configured artifact. A failing session makes the download fail with that error. A working session downloads the requests against that one repository, each item by itself. If the recursive delete works, the opened connector ends Closed. |
| VersionParameterDefinition.NewDefinition | src/main/java/org/jvnet/hudson/plugins/artifactdownloader/VersionParameterDefinition.java:42-49 | The name splits into the group id text, a dot, then the artifact id text ("null" for null). All fields are kept. |
| VersionParameterDefinition.CopyWithDefaultValue | src/main/java/org/jvnet/hudson/plugins/artifactdownloader/VersionParameterDefinition.java:51-58 | A string value gives the same repoid and description with empty ids and property name (name "."). Any other value gives the definition itself. |
| VersionParameterDefinition.CopyWithDefaultValueIdempotent | src/main/java/org/jvnet/hudson/plugins/artifactdownloader/VersionParameterDefinition.java:51-58 | Copying a copy with the same value changes nothing more. |
| VersionParameterDefinition.GetChoices | src/main/java/org/jvnet/hudson/plugins/artifactdownloader/VersionParameterDefinition.java:64-91 | The choices are the engine's version texts in reverse order. An unknown repo id, a failed connector or a failed query gives one "Could not determine versions (...)" entry instead. |
| VersionParameterDefinition.Texts | src/main/java/org/jvnet/hudson/plugins/artifactdownloader/VersionParameterDefinition.java:77-79 | Each version is turned into its text, one for one and in order. |
| VersionParameterDefinition.ChoicesNewestFirst | src/main/java/org/jvnet/hudson/plugins/artifactdownloader/VersionParameterDefinition.java:87-89 | Versions the engine lists in ascending order are offered in descending order. |
| VersionParameterDefinition.CheckPathAsWritten | src/main/java/org/jvnet/hudson/plugins/artifactdownloader/VersionParameterDefinition.java:194-210 | The check is an error iff the query fails or finds no versions. The temporary repository stays on disk iff a connector was opened. |
| VersionParameterDefinition.CheckPathLeavesTmpRepo | src/main/java/org/jvnet/hudson/plugins/artifactdownloader/VersionParameterDefinition.java:198-199 | On a filesystem where the directory can be created, every path check leaves its temporary repository behind. |
| VersionParameterDefinition.CheckPath | src/main/java/org/jvnet/hudson/plugins/artifactdownloader/VersionParameterDefinition.java:194-210 | The verdict is the same as written, an error iff the query fails or finds nothing. If the recursive delete works, nothing is left on disk. |
| VersionParameterDefinition.DoCheckGroupid | src/main/java/org/jvnet/hudson/plugins/artifactdownloader/VersionParameterDefinition.java:165-177 | An empty group id is an error. When artifact id and repo id are both given, the path check decides. Otherwise the result is ok. |
| VersionParameterDefinition.DoCheckArtifactid | src/main/java/org/jvnet/hudson/plugins/artifactdownloader/VersionParameterDefinition.java:179-192 | The same rule with artifact id and group id swapped. |
| VersionParameterDefinition.GroupAndArtifactChecksAgree | src/main/java/org/jvnet/hudson/plugins/artifactdownloader/VersionParameterDefinition.java:165-192 | With both ids given, the two validators give the same verdict. |
| VersionParameterDefinition.DoCheckRepoid | src/main/java/org/jvnet/hudson/plugins/artifactdownloader/VersionParameterDefinition.java:212-219 | An error (empty repository name) iff the repo id is null or empty. Ok otherwise. |
| VersionParameterDefinition.DoCheckBaseurl | src/main/java/org/jvnet/hudson/plugins/artifactdownloader/VersionParameterDefinition.java:221-228 | An error (empty base URL) iff the url is null or empty. Ok otherwise. |
| VersionParameterDefinition.DoCheckPassword | src/main/java/org/jvnet/hudson/plugins/artifactdownloader/VersionParameterDefinition.java:230-238 | An error (empty user name) iff a password is given without a user name. Ok otherwise. |
| VersionParameterDefinition.DoTestConnection | src/main/java/org/jvnet/hudson/plugins/artifactdownloader/VersionParameterDefinition.java:240-255 | The disabled connection test always reports success. |
| ArtifactDeployer.NewDeployer | src/main/java/org/jvnet/hudson/plugins/artifactdownloader/ArtifactDeployer.java:49-57 | A null artifact list becomes empty. Every other argument is kept. |
| ArtifactDeployer.GetUserName | src/main/java/org/jvnet/hudson/plugins/artifactdownloader/ArtifactDeployer.java:67-72 | Null without a security override, and the override's user otherwise. |
| ArtifactDeployer.GetPassword | src/main/java/org/jvnet/hudson/plugins/artifactdownloader/ArtifactDeployer.java:74-79 | Null without a security override, and the override's password otherwise. |
| ArtifactDeployer.IsOverwriteSecurity | src/main/java/org/jvnet/hudson/plugins/artifactdownloader/ArtifactDeployer.java:63-65 | The credentials are overridden iff an override is configured. |
| ArtifactDeployer.CredentialsNeedOverride | src/main/java/org/jvnet/hudson/plugins/artifactdownloader/ArtifactDeployer.java:63-79 | Credentials are reported only when isOverwriteSecurity holds. Then the two getters together give back the override. |
| ArtifactDeployer.Perform | src/main/java/org/jvnet/hudson/plugins/artifactdownloader/ArtifactDeployer.java:96-123 | The empty loop succeeds. Only a null artifact list throws, and the error handler then reports false. |
| ArtifactDeployer.ConstructedDeployerSucceeds | src/main/java/org/jvnet/hudson/plugins/artifactdownloader/ArtifactDeployer.java:52 | A deployer built by its constructor always reports success. |
| ArtifactDeployer.PreparedPom | src/main/java/org/jvnet/hudson/plugins/artifactdownloader/ArtifactDeployer.java:162-187 | A missing template gives null, and only then. With a null artifact id the POM is the template with its line breaks dropped. |
| ArtifactDeployer.PomWithoutPlaceholders | src/main/java/org/jvnet/hudson/plugins/artifactdownloader/ArtifactDeployer.java:169-178 | A template that mentions no placeholder comes out as the template with its line breaks dropped. |
| ArtifactDeployer.PomIgnoresLineBreaks | src/main/java/org/jvnet/hudson/plugins/artifactdownloader/ArtifactDeployer.java:169-178 | The POM depends only on the template text with its line breaks removed, because the lines are appended without separator. |
| ArtifactDeployer.PlaceholderAcrossLines | src/main/java/org/jvnet/hudson/plugins/artifactdownloader/ArtifactDeployer.java:169-174 | Two terminator-free lines joined by a line break give the same POM as the two lines written as one. So a placeholder split over the break is still replaced. |
| ArtifactDeployer.SubstitutionCascades | src/main/java/org/jvnet/hudson/plugins/artifactdownloader/ArtifactDeployer.java:174-178 | A single example of the cascade: the template ARTIFACTID with artifact id GROUPID and group id g gives g, because the later group-id step also replaces the substituted text. |
| ArtifactDeployer.SubstitutionChain | src/main/java/org/jvnet/hudson/plugins/artifactdownloader/ArtifactDeployer.java:174-182 | For every template, the POM is the template without line breaks with ARTIFACTID, GROUPID, VERSION and PACKAGING replaced in that order by artifact id, group id, version and extension. The first null field among them stops the chain, and the text substituted so far is returned. |
| LineReader.ReadLines | src/main/java/org/jvnet/hudson/plugins/artifactdownloader/ArtifactDeployer.java:169-171 | No line returned by readLine contains a line terminator. |
| LineReader.ConcatReadLines | src/main/java/org/jvnet/hudson/plugins/artifactdownloader/ArtifactDeployer.java:169-173 | Appending the lines without separator gives the template minus its "\r" and "\n" characters. |
| LineReader.ReadJoinedLines | src/main/java/org/jvnet/hudson/plugins/artifactdownloader/ArtifactDeployer.java:169-171 | A file written line by line reads back as exactly those lines. |
| JavaStrings.ReplaceAll | src/main/java/org/jvnet/hudson/plugins/artifactdownloader/ArtifactDeployer.java:174-178 | String.replace leaves text shorter than the target unchanged. |
| JavaStrings.ReplaceAllFirst | src/main/java/org/jvnet/hudson/plugins/artifactdownloader/ArtifactDeployer.java:174-178 | String.replace works left to right: text before the first occurrence of the target is kept, that occurrence becomes the replacement, and replacing resumes after it. |
| JavaStrings.ReplaceAllAbsent | src/main/java/org/jvnet/hudson/plugins/artifactdownloader/ArtifactDeployer.java:174-178 | String.replace leaves text without the target unchanged. |
| JavaStrings.ReplaceAllConcat | src/main/java/org/jvnet/hudson/plugins/artifactdownloader/ArtifactDeployer.java:174-178 | If no occurrence straddles the junction, replacing in a concatenation is concatenating the replacements. |
| Seqs.Reverse | src/main/java/org/jvnet/hudson/plugins/artifactdownloader/VersionParameterDefinition.java:87-89 | Collections.reverse keeps the length and puts element i at position length-1-i. |

## Findings

| source | as written | input that shows it | evidently intended | confidence | as-written member | corrected member |
|---|---|---|---|---|---|---|
| src/main/java/org/jvnet/hudson/plugins/artifactdownloader/VersionParameterDefinition.java:194-210 | checkPath opens a RepositoryConnector and never closes it, so its temporary local repository directory stays on disk | any group-id or artifact-id check with both other fields filled in, on a filesystem where the temporary directory can be created | close the connector quietly afterwards, as getChoices does at lines 84-86 | not executed; medium | VersionParameterDefinition.CheckPathAsWritten | VersionParameterDefinition.CheckPath |

## Left out

- The Aether engine is an oracle (`Engine`). Building the repository system and a session is one success/failure (`session`). Range and artifact resolution are functions of the request, and Maven version ordering is not modelled. The oracles are deterministic: the same request always gets the same answer.
- The filesystem is also an oracle. `createTempFile`, `delete`, `mkdirs` and `FileUtils.deleteDirectory` are fields of `TempDirOracle`. The stream opens, the byte copy and the closes are fields of `Engine`. In the resolve step, `File.getAbsolutePath` of the target file is `Build.absolutePath`. The connector's "failed to create tmp file" message carries the path as `createTempFile` returns it; that path is not made absolute.
- `TokenMacro.expandAll` is `Build.expand`. Its evaluation exceptions are not modelled. `perform` reports true either way.
- The global `RepositoryConfiguration` registry is passed in explicitly as `Host.repositories`.
- Logging, the `TransferListener` callbacks and the "Overriding configured version" log line are output only, so they are left out.
- The `pom.tmpl` resource is an input string (`null` when missing). `getTempPom`, which writes it to disk, is I/O and is left out.
- `toString` and the Jenkins/Stapler plumbing are left out. That covers descriptors, `configure`, `createValue`, `getDisplayName`, `isApplicable`, `getRepo`/`getRepos`, `failOnError`, `getRequiredMonitorService` and the exported getters.
- The localised messages are kept as message keys (`Message`), not their texts.
- A null element inside an artifact or repository list is not modelled; list elements are records. In `checkPath` an unknown repository id makes a connector over a list holding `null`. This is modelled as a connector over no repositories whose query fails.
- Parsing the range coordinate string into an artifact, and the IllegalArgumentException that parse throws for an empty or malformed part, are folded into the `resolveVersionRange` oracle. For example, a definition copied with empty ids gets whatever answer the oracle gives for the coordinate "::[0,)".
- Exceptions whose message is null are not modelled: messages are strings.
- `JavaStrings.IsWhitespace` follows `Character.isWhitespace` for current Unicode. It leaves out U+180E, which older Java versions also count.
- `JavaStrings.ReplaceAll` models `String.replace` only for a non-empty target, because every target here is a fixed placeholder.
- The unit test needs network access to Maven Central and asserts nothing, so it is not modelled.
