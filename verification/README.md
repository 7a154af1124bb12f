# CrabLauncher core, modelled in Dafny

CrabLauncher is a Minecraft launcher. This project models the decision logic at
its core, as pure functions over immutable data:

- the platform rules of the version metadata: `os` filters, allow/disallow
  rules, the AND gate over a rule list;
- how the metadata is read: library filtering, choosing the host's native
  archive, and expanding launch arguments from the structured shape or from a
  legacy argument string;
- the cache-first download rule over an abstract file system;
- the bounded download pool, as a state machine;
- content-addressed asset storage, and the install stage order (assets, then
  libraries, then `client.jar`);
- the filter that decides which native-archive entries are written;
- the classpath, `${name}` placeholder resolution and the final argument list;
- configuration maps, merge precedence, and the older record-shaped
  configuration;
- profile and version lookup, the newest-first Java ordering;
- the environment operations: create, edit and execute a profile.

The repository holds three generations of the same code. `api/` and `core/` are
the current launcher; `src/` is an older copy. The model follows the current
code and states the older copy's behaviour as separate members, usually next to
a lemma relating the two.

One module per concern:

| module | concern |
|---|---|
| `Wrappers` | `Option`, `Result` and the launcher's error kinds; a Rust panic is `Error.Panic(message)` |
| `Text` | `split(char)`, `join`, decimal rendering |
| `Paths` | paths as component lists, bytes, URLs |
| `Platform` | host OS and arch, `os` filters, the path-list separator |
| `Rules` | current and older rules, the AND gate |
| `Meta` | downloads, arguments, libraries, the client descriptor, the manifest |
| `Templates` | the `${name}` scanner and placeholder resolution |
| `Configs` / `LegacyConfigs` | the current map configuration and the older record |
| `Java` | the stable newest-first sort and `latest` |
| `Cache` | the file map, the request log, `download_in` |
| `Pool` | `download_futures` |
| `Archive` | native-archive extraction |
| `Assets` | the asset index and objects |
| `Install` | libraries and `install_client`, in the current and older launchers |
| `Registry` | the profile list |
| `Manifests` | version lookup and descriptor download, in the three copies |
| `Launch` | classpath, arguments, configuration, command line, exit status |
| `Env` | profiles on disk; create, edit, execute |

The world outside the launcher enters as parameters:

- the host is a `Host(os, arch)` value;
- the HTTP server is a function from a URL and the number of earlier requests
  to a response (status and body) or a transport error. `Cache.Checked` reads
  it as `utils::download::get` does, refusing a status that is not 2xx, and
  `Cache.Unchecked` as the older copies' bare `reqwest` requests do, keeping
  any body. Either gives the bytes-or-error `Network` the download functions
  take;
- JSON decoding, zip decompression and running a process are functions given
  by the caller;
- the scheduler's choice of which pending download completes is a function
  from the await count to an index.

The world is `World(fs, fetched)`: a map from path to bytes, plus the log of
every URL requested.

## Model

| member | source | states |
|---|---|---|
| Platform.OsMatches | api/src/meta/utils.rs:27-30 | an `os` filter matches exactly when each field it names equals the host's OS or arch |
| Platform.WildcardMatchesEverywhere | api/src/meta/utils.rs:28-29 | a filter with neither field matches on every host |
| Platform.ForeignNameNeverMatches | api/src/meta/utils.rs:28 | a filter naming another OS fails whatever arch it names |
| Platform.ForeignArchNeverMatches | api/src/meta/utils.rs:29 | a filter naming another arch fails whatever OS it names |
| Platform.FullFilterAdmitsOneHost | api/src/meta/utils.rs:27-30 | a filter naming both fields admits exactly the one host it names |
| Platform.PathListSeparator | src/utils.rs:9-13 | the separator is `;` exactly on Windows and `:` on every other OS |
| Rules.Matches | api/src/meta/client.rs:23-27 | a rule carrying a feature map, even an empty one, never matches; without one it matches iff its OS filter is absent or matches |
| Rules.IsAllowed | api/src/meta/client.rs:29-35 | `Allow` passes exactly the matching rules, `Disallow` exactly the non-matching ones |
| Rules.AllowedTruthTable | api/src/meta/client.rs:29-35 | the four rows of the action-by-match truth table |
| Rules.FeaturesDecideAlone | api/src/meta/client.rs:23-35 | with a feature map, a `Disallow` rule always allows and an `Allow` rule never does |
| Rules.AllAllowed | api/src/meta/client.rs:73 | the gate holds iff every rule of the list allows; the empty list passes |
| Rules.AllAllowedAppend | api/src/meta/client.rs:73 | the gate over a concatenation is the AND of the gates over the parts |
| Rules.LegacyMatches | src/client/rule.rs:14-29 | the older early-return matcher accepts exactly when the OS filter is absent or matches |
| Rules.LegacyIsAllowed | src/client/rule.rs:30-37 | `"allow"` gives the match, `"disallow"` its negation, and any other action string gives false |
| Rules.LegacyIgnoresFeatures | src/client/rule.rs:14-29 | changing the feature value changes neither the match nor the verdict |
| Rules.GenerationsAgreeWithoutFeatures | src/client/rule.rs:13-37 | on a rule without features, the older rule and the current rule give the same verdict |
| Rules.GenerationsDisagreeOnFeatures | api/src/meta/client.rs:23-35 | on a rule whose OS filter matches and that carries features, the two generations give opposite verdicts |
| Meta.ArgumentTokens | api/src/meta/client.rs:69-83 | a literal gives exactly its token; a conditional gives its value or values when every rule allows (an empty list allows) and nothing when one refuses |
| Meta.FlattenAppend | api/src/meta/client.rs:101-102 | the tokens of concatenated argument lists are the concatenated tokens |
| Meta.FlattenBlock | api/src/meta/client.rs:101-102 | each argument's tokens form one contiguous block, between those of the arguments before and after it |
| Meta.FlattenLiterals | api/src/meta/client.rs:101-102 | a list of literals gives the literals, one token each, in order |
| Meta.RefusedArgumentVanishes | api/src/meta/client.rs:72-80 | removing a conditional whose rules refuse does not change the tokens |
| Meta.IntoRaw | api/src/meta/client.rs:98-120 | structured arguments give each list flattened on its own. A legacy string gives the three fixed JVM tokens and, as game tokens, the pieces between single spaces: empty pieces are kept, the pieces number one more than the spaces, none contains a space, and they join back to the string |
| Meta.ListsIndependent | api/src/meta/client.rs:100-104 | the JVM tokens do not depend on the game list, nor the game tokens on the JVM list |
| Meta.LibraryAllowed | api/src/meta/client.rs:150-156 | no rule list allows; otherwise the library is allowed iff every rule allows, so an empty list allows |
| Meta.PlatformNative | api/src/meta/client.rs:160-168 | no native archive when `natives` or `classifiers` is absent or no entry is keyed by the host OS. Otherwise the classifier the host's entry names. The `unwrap` panic happens exactly when that key names no classifier |
| Meta.Libs | api/src/meta/client.rs:201-203 | keeps exactly the allowed libraries |
| Meta.LibsAppend | api/src/meta/client.rs:202 | the filter commutes with concatenation, so it keeps the declared order |
| Meta.LibsAllAllowed | api/src/meta/client.rs:202 | when every library is allowed, the filter is the identity |
| Text.Split | api/src/meta/client.rs:106 | `split(' ')` gives one more piece than there are separators, and no piece contains one |
| Text.JoinSplit | api/src/meta/client.rs:106 | joining the pieces of a split gives the string back |
| Text.SplitJoin | core/src/profiles.rs:172-174 | splitting a join of separator-free pieces gives the pieces back |
| Text.JoinEndsWithLast | core/src/profiles.rs:172-174 | the last piece of a join ends the joined string |
| Text.DecimalRoundTrip | src/profiles.rs:109-110 | a natural number rendered in decimal reads back as itself |
| Templates.PlaceholderAt | core/src/profiles.rs:187-188 | a placeholder recognised at the start of a string is `${`, then a non-empty maximal run of word characters, then `}` |
| Templates.SubstituteNoPlaceholder | core/src/profiles.rs:205-212 | a token with no placeholder is left unchanged |
| Templates.SubstituteLiteral | core/src/profiles.rs:205-208 | text without `$` is copied through unchanged before the rest is scanned |
| Templates.SubstituteHole | core/src/profiles.rs:205-208 | a leading placeholder becomes its name's value, and scanning resumes after its `}` |
| Templates.SubstituteCongruent | core/src/profiles.rs:205-208 | the result depends on the resolver only through the values it gives |
| Templates.SubstitutePrinted | core/src/profiles.rs:203-214 | substituting the text of a well-formed template renders it: literal text is kept and each placeholder becomes its value |
| Templates.ResolvePlaceholder | core/src/profiles.rs:190-207 | each well-known name takes the launcher's fixed value: `game_directory`, `assets_root` and `game_assets`, `assets_index_name`, `version_name`, `classpath`, `natives_directory`, and the fixed UUID for `auth_uuid`. Any other name takes its configuration value, and a name found in neither becomes the empty string |
| Templates.FixedNamesIgnoreConfig | core/src/profiles.rs:190-199 | a fixed name resolves the same under every configuration |
| Templates.WholeTokenPlaceholder | core/src/profiles.rs:199-207 | a token that is exactly one placeholder becomes its value: `${classpath}` becomes the classpath, and an unknown name the empty string |
| Archive.EnclosedName | src/utils.rs:40-43 | a name is accepted, unchanged, iff it is relative, has no NUL and never climbs above its start |
| Archive.EnclosedStaysInside | src/utils.rs:40-43 | an accepted name joined onto the output directory lands inside it |
| Archive.ClimbingNameRefused | src/utils.rs:40-43 | `../file` is refused, and it would have landed outside the output directory |
| Archive.ResolvePlain | src/utils.rs:53 | a name of plain components lands at the plain join of the output directory and the name |
| Archive.ExtractEntries | src/utils.rs:37-66 | entries run in index order, and the first failing entry's error is the result. An entry fails on a header read error, on a contents read error (met only by an entry written as a file), or when it is a directory entry not taken as a directory. A file entry's file is created before its contents are copied, so a contents error leaves the part copied so far. No file outside the output directory changes. A changed file holds the bytes copied from an enclosed, non-excluded file entry that lands there. On success every such entry's file exists, and the last entry to land at a place decides its contents |
| Archive.ExtractStopsAtFirstError | src/utils.rs:38-64 | the first failing entry decides the result. The files are those the entries before it left, plus the partly copied file the failing entry itself leaves after a contents error; later entries change nothing |
| Archive.Extract | src/utils.rs:31-35 | an archive that cannot be opened is its error, with nothing written. Otherwise success iff no entry fails, header, contents and directory-entry errors included, and a failure is the first failing entry's. A changed file holds bytes copied from an entry landing there, and on success every written entry's file exists. No file outside the output directory changes |
| Archive.NoExcludeIsEmpty | src/utils.rs:32 | no exclude list behaves exactly as an empty one |
| Archive.ExcludedEntryNotWritten | src/utils.rs:45-51 | an entry whose path or immediate parent is excluded leaves the place it would land as it was, when no other entry lands there |
| Archive.GrandparentNotExcluded | src/utils.rs:46-48 | with `a` excluded, `a/b/c.so` is still written: only the immediate parent is compared |
| Archive.EntryFlagFailsOnlyOnReadErrors | src/utils.rs:38-64 | with the entry's own directory flag as the test, extraction fails iff the reader fails on some entry it reads, a header error at any entry or a contents error at a file entry, and then with the first such error |
| Archive.DirectoryEntryFailsAsWritten | src/utils.rs:54-64 | as written, a `linux/` directory entry, with no `linux` directory in the working directory, fails with the file-creation error; with the entry's own flag it is passed over |
| Archive.WorkingDirShadowsFile | src/utils.rs:54-55 | as written, a file entry whose name is a directory of the working directory is not written; with the entry's own flag it is |
| Archive.ContentsErrorLeavesPartialFile | src/utils.rs:63-64 | a file entry whose contents fail to decompress leaves the part copied before the error and fails with that error; the same entry, excluded, is never read and extraction succeeds |
| Cache.Target | core/src/client.rs:12-16 | the target is `base` without a sub-path, and the sub-path below `base` otherwise |
| Cache.Checked | core/src/utils/download.rs:33-41 | an answer is a success iff it is a response with a 2xx status, and then it gives the body. Any other status is a `Status` error with that code, and a transport error passes through |
| Cache.Unchecked | src/client/download.rs:31-32 | any response is a success with its body, whatever its status; only a transport error fails |
| Cache.CheckedAgreesOnSuccess | core/src/utils/download.rs:36-38 | the two readings of one answer differ exactly when it is a response whose status is not 2xx |
| Cache.DownloadIn | core/src/client.rs:11-29 | a stored target returns its bytes with no request and no write. A missing one makes exactly one request: a failure writes nothing, and a success stores the bytes at the target and returns them. No other file is touched |
| Cache.DownloadInIdempotent | core/src/client.rs:18-28 | after a success, repeating the download with any network requests nothing, writes nothing and returns the same bytes |
| Cache.DownloadInFetchesIffMissing | core/src/client/download.rs:37-47 | a request is made exactly when the target is not stored |
| Cache.CheckedStoresOnlySuccess | core/src/utils/download.rs:36-38 | through the status check, a missing target is stored iff the answer is a 2xx response, and then with its body |
| Cache.UncheckedStoresAnyStatus | src/client/download.rs:35-55 | without the check any response body, an error page included, is stored and returned, and later downloads return it without a request |
| Pool.Complete | core/src/client.rs:48 | awaiting moves one pending item to the outputs; no item is lost or duplicated |
| Pool.Submit | core/src/client.rs:45-51 | one loop iteration keeps every submitted item pending or output, never both, and keeps the pending bound |
| Pool.Fill | core/src/client.rs:45-51 | after the submission loop, all items are submitted and accounted for and the bound held throughout |
| Pool.Drain | core/src/client.rs:53-55 | the final loop outputs every pending item |
| Pool.Schedule | core/src/client.rs:34-58 | the outputs are a permutation of the items. With `download_max >= 1` at most that many are ever pending; with 0 the bound never fires and all items are pending at once |
| Pool.ScheduleOnce | core/src/client.rs:45-57 | each item produces exactly one output |
| Pool.ScheduleCovers | core/src/client.rs:45-57 | every item produces an output |
| Pool.FillSequential | core/src/client.rs:45-51 | with `download_max == 1` the submission loop outputs the items in submission order, whatever the scheduler does |
| Pool.ScheduleSequential | core/src/client.rs:45-51 | with `download_max == 1` the outputs come in submission order |
| Pool.FirstError | core/src/client.rs:96-101 | success iff every output is a success; otherwise the first error in output order |
| Pool.FirstErrorAppend | core/src/client.rs:96-101 | an error among the earlier outputs hides every later output |
| Assets.IndexPath | core/src/client.rs:63-64 | the index is stored under `indexes`, named `<id>.json` |
| Assets.ObjectPath | core/src/client.rs:74-76 | an object is stored under `objects/<first two hash characters>/<hash>` |
| Assets.ObjectUrl | core/src/client.rs:83-86 | an object's URL is on the resource host and ends with its hash |
| Assets.ContentAddressed | core/src/client.rs:74-86 | two objects share a file, or a URL, iff their hashes are equal, and no object file is the index file |
| Assets.FetchObject | core/src/client.rs:72-91 | a hash shorter than two characters panics (hashes are taken as ASCII). A stored object is skipped with no request. A missing one is requested once and stored on success; a failure writes nothing and is the network's error for that request |
| Assets.ObjectOutputs | core/src/client.rs:70-95 | every object runs in the pool's output order, whatever the earlier ones did, and leaves one output. A success means the object is stored. A failure is the network's error for a request of its URL made during the run. A hash too short to slice panics and ends the run, and the run panics only then. With every object stored nothing changes |
| Assets.ObjectStage | core/src/client.rs:93-101 | once every object has run, success means every object is stored and a failure is a download error or a panic; with every object stored nothing happens |
| Assets.RunObjectsInOrder | src/client/mod.rs:190-206 | objects run one after another and the first failure ends the run. Success means all are stored, and with all stored the run does nothing |
| Assets.DownloadAssets | core/src/client.rs:60-105 | success leaves the index stored and decodable, with every object it lists stored. Complete assets make the stage do nothing. A failure is a download error or a panic. No stored file changes |
| Assets.LegacyDownloadAssets | src/client/mod.rs:179-209 | the same guarantees for the older one-after-another stage. The index is fetched without a status check, so a missing index is stored with whatever body the server answered |
| Assets.DownloadIndexes | src/client/download.rs:57-89 | an index without an `id` hits `todo!()`; otherwise the same guarantees, keyed by the index's own id. No request is status-checked: a missing index is stored with whatever body the server answered, and a download error is the transport failure of the index request |
| Assets.LegacyIndexErrorPageSticks | src/client/download.rs:31-51 | an error page served for a missing asset index is stored as the index. The stage panics on it, and every later run panics again without a request, whatever the server now answers |
| Assets.CheckedIndexErrorRetried | core/src/client.rs:11-29 | in the current launcher the same answer is a `Status` error, nothing is stored, and the next run asks the server again |
| Install.FetchArtifact | core/src/client.rs:118-120 | a library without an artifact does nothing; with one, success means it is stored, and a stored one is not requested |
| Install.FetchNative | core/src/client.rs:121-135 | a host key naming no classifier panics; no host native changes nothing; otherwise only the host's native archive is requested, and extraction happens only with extraction rules, touching nothing outside `.natives` |
| Install.FetchLibrary | core/src/client.rs:116-136 | the artifact is requested first, and a failed artifact ends the library with that error and no further request. At most one native archive, the host's, is then fetched; nothing is requested but those two. Without both a host native and extraction rules no stored file changes. Success means the library's files are stored. Only files in `.natives` can be replaced. Nothing is requested when the library is already stored. A failure is a download or extraction error, the missing-classifier panic, or, where extraction failures panic, that panic |
| Install.LibOutputs | core/src/client.rs:113-137 | every library runs in the pool's output order, whatever the earlier ones did, and leaves one output. A success means the library is stored, and a failure is a download or extraction error. A host key naming no classifier panics and ends the run; without such a library the run does not panic |
| Install.InstallLibs | core/src/client.rs:109-148 | once every library has run, the first failure in output order is the result. Success means every allowed library is stored. With all of them stored nothing is requested. Only `.natives` can see files replaced |
| Install.RunLibsInOrder | src/client/mod.rs:217-242 | the older loop: one library after another, the first failure ends it. Success means every library is stored, a repeat with all stored requests nothing, only `.natives` sees files replaced, and every request is for a library's artifact or host native archive |
| Install.DownloadLibrariesFiltered | src/json/client.rs:132-167 | passing over disallowed libraries in place is the same as running the filtered list |
| Install.FetchClientJar | core/src/client.rs:160-162 | success iff `client.jar` is stored below the profile directory; a stored jar is not requested |
| Install.InstallClient | core/src/client.rs:150-165 | success leaves `client.jar` and every allowed library stored. It also leaves the assets complete, unless the asset index lives inside `.natives`, where extraction could replace it. No stored file disappears |
| Install.InstallStages | core/src/client.rs:157-163 | a failing asset stage is the result; libraries run on the world the assets left; `client.jar` is requested only after both succeed |
| Install.SecondInstallFetchesNothing | core/src/client.rs:151-165 | an install repeated after a successful one requests nothing, whatever the network and scheduler do |
| Install.LegacyInstall | src/client/mod.rs:244-253 | success leaves `client.jar` and every allowed library stored, and the assets complete unless the asset index lives inside `.natives`. Libraries and `client.jar` are fetched without a status check, so a status error can only come from the asset stage |
| Install.LegacyInstallStages | src/client/mod.rs:244-253 | a failing asset stage is the result; the libraries run on the world the assets left; `client.jar` is requested only after both succeed |
| Install.LegacyDownload | src/json/client.rs:128-173 | an index without an id panics. Success leaves `client.jar` and every allowed library stored, and the assets complete unless the index lives inside `.natives`. Extraction failures panic rather than return. No request is status-checked, so no status error is ever reported |
| Install.LegacyDownloadStages | src/json/client.rs:128-173 | the index stage, then the library loop on the world it left, then `client.jar` only after both succeed; a failing stage is the result |
| Install.UncheckedNoStatus | src/client/download.rs:31-32 | through the older `download_in` the library loop never reports a status error |
| Install.LibraryNoStatus | src/client/download.rs:31-32 | through the older `download_in` one library's download error is a transport failure |
| Install.JarNoStatus | src/client/download.rs:31-32 | through the older `download_in` a failure to fetch `client.jar` is a transport failure |
| Launch.LibEntries | core/src/profiles.rs:160-169 | a library contributes its host native, then its artifact, at their stored paths. The `unwrap` panics exactly when a classifier key or a sub-path is missing |
| Launch.ClasspathEntries | core/src/profiles.rs:155-170 | the entries can be built iff every library is placeable. Every entry is some library's native or artifact, and every library's native and artifact is an entry |
| Launch.ClasspathEntriesAppend | core/src/profiles.rs:159-170 | the entries of a concatenation are the concatenated entries, so library order is kept |
| Launch.JoinClasspath | core/src/profiles.rs:172-174 | the profile's `client.jar` ends the classpath |
| Launch.ClasspathSplits | core/src/profiles.rs:172-174 | when no path contains the separator, the classpath splits back into the entries followed by `client.jar` |
| Launch.Classpath | core/src/profiles.rs:155-175 | the classpath is the allowed libraries' entries then `client.jar`, and it can be built iff the entries can |
| Launch.ClasspathAfterInstall | core/src/profiles.rs:155-170 | once the install has stored every allowed library, every classpath entry names a stored file |
| Launch.ReqLibPaths | src/json/client.rs:177-213 | as written: the libraries whose rules allow them, each giving its host native then its artifact, except that a library with natives and no classifiers contributes nothing. The list equals the classpath entries of the allowed libraries with those left out |
| Launch.ReqLibPathsEqualsClasspath | src/json/client.rs:177-213 | without an allowed library that has natives and no classifiers, the as-written list is the corrected classpath's library part |
| Launch.ReqLibPathsWithinClasspath | src/json/client.rs:177-213 | whenever the corrected classpath can be built, so can the as-written list, and every path on it is a classpath entry |
| Launch.ReqLibPathsDropArtifact | src/json/client.rs:190-193 | a library with an artifact, an empty natives map and no classifiers is downloaded but left off the older classpath |
| Launch.GenerateArguments | core/src/profiles.rs:179-221 | no `client.json` panics, and so does an unbuildable classpath. Otherwise: the substituted JVM tokens, the main class, then the substituted game tokens |
| Launch.PlainTokensKept | core/src/profiles.rs:205-212 | a token without `$` reaches the argument list unchanged, in its place |
| Launch.LegacyJvmTokensResolve | api/src/meta/client.rs:110-114 | the three synthesised JVM tokens become the natives option with the natives directory, `-cp`, and the classpath |
| Launch.LegacyShapeArguments | core/src/profiles.rs:185-220 | for a legacy argument string, the arguments start with the natives option, `-cp`, the classpath and the main class |
| Launch.ResolversAgree | core/src/profiles.rs:190-199 | configurations that agree on every non-fixed name resolve every name alike |
| Launch.ConfigOnlyFillsFreeNames | core/src/profiles.rs:190-207 | configurations that agree on every non-fixed name give the same arguments |
| Launch.GetConfig | core/src/profiles.rs:103-110 | a failed global read is the result. Otherwise the profile's value wins for every key it has, and the global value shows through for the rest; without a profile configuration it is the global one |
| Launch.Outcome | core/src/profiles.rs:240-244 | success exactly on exit code 0. Another code is `MinecraftFailure(code)`, a failed start is an I/O error, and a signal panics on `code().unwrap()` |
| Launch.BuildCommand | core/src/profiles.rs:224-236 | a missing Java path or heap size panics. Otherwise the command is the Java path with `-Xmx`, `-Xms`, then the generated arguments, and it exists iff they can be generated |
| Launch.Execute | core/src/profiles.rs:223-247 | a command runs iff it can be built, and the result then reads its exit status. Success implies a command ran and exited with 0 |
| Launch.LegacyCommand | src/profiles.rs:87-126 | the older command line has 18 arguments: the heap sizes, the natives option, `-cp`, the classpath, the main class, then the six option pairs |
| Launch.ConfigReplacedVersusMerged | src/profiles.rs:90 | in the older launcher the global record has no influence once the profile has its own; in the current merge, a key the profile lacks shows through |
| Launch.LegacyExecute | src/profiles.rs:127-131 | the older run ignores the exit status and panics only when the process cannot run |
| Launch.CurrentHead | core/src/profiles.rs:233-236 | for a legacy argument string the current command is the Java path with the heap sizes, the natives option, `-cp`, the classpath and the main class at its head |
| Launch.LaunchHeadsAgree | src/profiles.rs:108-114 | with the same Java, heap sizes and libraries, both launchers run the same program with the same first six arguments |
| Configs.Get | core/src/config.rs:67-69 | a key reads its stored value, and nothing iff it is absent |
| Configs.New | core/src/config.rs:37-39 | the configuration reads exactly the given map |
| Configs.Empty | core/src/config.rs:41-43 | no key is present |
| Configs.Merge | core/src/config.rs:71-75 | the keys of both sides; `self`'s value on keys it has, `other`'s on the rest |
| Configs.Set | core/src/config.rs:99-101 | the key reads the new value and every other key reads as before |
| Configs.Remove | core/src/config.rs:103-105 | the key is absent and every other key reads as before |
| Configs.MergeEmpty | core/src/config.rs:72-75 | merging with an empty configuration on either side gives the other side |
| Configs.MergeAssociative | core/src/config.rs:72-75 | merge is associative and idempotent |
| Configs.SetRemoveLaws | core/src/config.rs:99-105 | a later set of a key overrides an earlier one, remove undoes a set, and setting the stored value changes nothing |
| Configs.CreateDefault | core/src/config.rs:17-33 | not-found error iff no Java is known; otherwise exactly the five default keys with their values and the latest Java's path |
| LegacyConfigs.Default | src/config.rs:25-38 | 512/2048 MB, 854x480, user `dev`, token `0` and the first listed Java; an empty list panics |
| LegacyConfigs.DefaultsAgree | src/config.rs:25-38 | the older and current defaults pick the same Java, and the current RAM and credential strings render the older record's fields |
| LegacyConfigs.SetName | src/config.rs:83-85 | only the user name changes |
| LegacyConfigs.SetAccessToken | src/config.rs:87-89 | only the token changes |
| LegacyConfigs.SetEntry | src/config.rs:91-104 | succeeds iff the entry is one of the two known names and a value is given, changing only that field. A known name without a value is `couldnt find value`, any other name is `couldnt find entry`, and a refused edit changes nothing |
| LegacyConfigs.SetEntryIsSetter | src/config.rs:83-99 | the named entries act as the dedicated setters, and the two setters commute |
| Java.SortByVersion | core/src/java.rs:99-101 | the sorted list is newest first and a permutation of the input |
| Java.SortIsStable | core/src/java.rs:99-101 | installations of equal version keep their relative order |
| Java.Fetch | core/src/java.rs:28-32 | the manager holds the found installations, newest first |
| Java.Latest | core/src/java.rs:34-36 | the first installation, and nothing iff there is none |
| Java.LatestIsNewest | core/src/java.rs:95-101 | after sorting, the latest installation is at least as new as every installation found |
| Registry.GetNamed | core/src/profiles.rs:279-282 | the first profile carrying the name, and nothing iff none does |
| Registry.Add | core/src/profiles.rs:289-293 | the profile is appended and every earlier one keeps its position |
| Registry.AddKeepsLookup | core/src/profiles.rs:279-293 | appending never changes a name already found; a name not found before now finds the new profile iff it carries that name |
| Registry.Get | src/profiles.rs:186-188 | the profile at the position, and nothing past the end |
| Registry.IterYieldsRest | src/profiles.rs:209-216 | the iterator yields the profiles from its position on, in order, then stops |
| Registry.IterYieldsAll | src/profiles.rs:190-195 | from the start the iterator yields the whole list |
| Manifests.FindVersion | core/src/version_manifest.rs:34-41 | the first stored version with the id, and nothing iff none has it |
| Manifests.DownloadVersion | core/src/version_manifest.rs:38-44 | an unknown id is `MinecraftVersionNotFound` with no request. A known one requests the URL of its first entry and returns the bytes or the download error. Nothing is written |
| Manifests.LegacyDownloadVersion | src/manifest.rs:50-56 | an unknown id is `Ok(None)` with no request; a download error is returned; a body that is not UTF-8 panics |
| Manifests.JsonDownloadVersion | src/json/manifest.rs:59-66 | an unknown id is `Ok(None)` with no request. Otherwise success iff the request itself succeeds, whatever the status, with the body's text; a failure is the transport error |
| Manifests.VariantsAgree | src/manifest.rs:50-56 | over one HTTP server the three copies make the same request and leave the same world. The `src/manifest.rs` copy returns the current one's body (if UTF-8) or error. The JSON copy agrees except on a status that is not 2xx, where it returns the error page as the descriptor |
| Manifests.JsonAcceptsErrorStatus | src/json/manifest.rs:59-66 | a version URL answering an error status is a `Status` error in the current launcher, and in the JSON copy the error page is returned as the descriptor |
| Manifests.FirstEntryWins | core/src/version_manifest.rs:39-42 | a later entry with the same id is never requested |
| Env.ProfileDir | core/src/profiles.rs:63-65 | a profile's directory is one component, its name, below the profiles root |
| Env.ClientJsonPath | core/src/profiles.rs:75-77 | the descriptor is `client.json` inside the profile directory |
| Env.DirsDistinct | core/src/profiles.rs:63-65 | profiles share a directory, or a descriptor file, iff they share a name |
| Env.ReadClient | core/src/profiles.rs:140-146 | nothing iff `client.json` cannot be read as text; a decoding failure panics; otherwise the decoded descriptor |
| Env.ReadOrCreateClient | core/src/profiles.rs:120-138 | a readable descriptor is decoded with the world untouched. Otherwise the version is downloaded, stored as `client.json` and decoded; a decoding failure panics. Success means the stored file decodes to the result. No other file changes |
| Env.InstallProfile | core/src/profiles.rs:148-153 | a failure to get the descriptor ends the install. Otherwise `install_client` runs into the profile's directory, and success leaves every allowed library stored |
| Env.ProfileConfig | core/src/profiles.rs:87-92 | the profile's configuration exactly when it has one; configurations are held in a map, so a `config.json` that fails to decode is not modelled |
| Env.RunProfile | core/src/profiles.rs:223-229 | a readable descriptor launches as `Profile::execute` does. A descriptor that fails to decode ends with an error and runs nothing |
| Env.Execute | core/src/env.rs:20-28 | an unknown name is `ProfileNotFound` and touches nothing. An install error is the result and nothing runs. A command runs only after a successful install |
| Env.LaunchedAfterInstall | core/src/env.rs:25-26 | when a profile launches, every classpath entry of its descriptor names a stored file |
| Env.StoredConfig | core/src/profiles.rs:113-118 | the configuration an edit starts from: the profile's own, or an empty one |
| Env.Edit | core/src/env.rs:36-47 | refused, with nothing changed, iff the profile is unknown. Otherwise the entry reads the value, or is removed; every other entry, the profile list and the other profiles' configurations are kept |
| Env.EditSeenAtLaunch | core/src/env.rs:41-45 | after an edit the launch configuration reads the set value, or, for a removed entry, the global value |
| Env.EditSetThenRemove | core/src/env.rs:41-45 | setting then removing an entry leaves it absent and every other entry as it was |
| Env.FindJava | core/src/profiles.rs:43-48 | the first listed Java whose major version, truncated to 16 bits, is the requested one; nothing iff none is |
| Env.Create | core/src/profiles.rs:33-61 | a download error or an undecodable descriptor ends creation and changes no profile. Otherwise the descriptor is stored, a matching Java replaces the profile's configuration with its path, and the profile is appended |
| Env.CreateThenInstall | core/src/env.rs:30-34 | a profile created under a new name is found by it, and its install reads the stored descriptor without a request |
| Env.CreateDuplicateShadowed | core/src/profiles.rs:279-293 | a profile created under a taken name is never found: the name still finds the earlier profile, which shares its directory |

## Findings

| source | as written | input that shows it | evidently intended | confidence | as-written member | corrected member |
|---|---|---|---|---|---|---|
| src/json/client.rs:190-193 | `get_req_libs` runs `continue` when a library declares `natives` but has no `classifiers`, which also skips the artifact push at lines 207-209 | an allowed library with an artifact at `lib.jar`, `natives: {}` and no `classifiers` | the artifact is on the classpath. The older download loop (src/json/client.rs:141-148) stores it, and the current classpath (core/src/profiles.rs:165-169) includes it | medium; not executed | Launch.ReqLibPathsDropArtifact | Launch.ClasspathEntries |
| src/utils.rs:54 | `file_path.is_dir()` tests the entry's relative name against the process's working directory, not the archive | a native archive with a directory entry `linux/` and no `linux` directory in the working directory: `File::create` fails on the name, and src/json/client.rs:160-161 unwraps that error into a panic | an entry is a directory exactly when the archive says so | medium; not executed | Archive.DirectoryEntryFailsAsWritten | Archive.EntryFlagFailsOnlyOnReadErrors |
| src/client/download.rs:31-32 | the older `download_in` requests with a bare `reqwest::blocking::get` and stores the body whatever the status | an asset index URL answering 404 with an HTML page: the page is stored as `indexes/<id>.json`, decoding it panics, and every later run panics on the stored page without a request | only 2xx bodies are stored, as `utils::download::get` (src/utils/download.rs:38-40) ensures | medium; not executed | Assets.LegacyIndexErrorPageSticks | Cache.CheckedStoresOnlySuccess |

`Launch.ReqLibPaths` is the as-written list. The older command line
(`Launch.LegacyCommand`) takes its library paths as a parameter, and
`Launch.LaunchHeadsAgree` feeds it the corrected `Launch.ClasspathEntries`.
The entry loop takes its directory test as a parameter (`Archive.DirTest`).
The current launcher's libraries use the entry's own flag (`Archive.EntryFlag`).
Only `Install.LegacyDownload`, which runs `extract` as written, uses the
working-directory test. Likewise, the current launcher's downloads take any
`Network`, and so cover every `Cache.Checked` server. Only the older copies
read the server through `Cache.Unchecked`, as their code does.

## Left out

- HTTP is the `Http` parameter: each answer is a status and a whole body, or a transport error. Failures while reading a body after the response arrived are not modelled, and neither is the mapping of `reqwest` errors onto `DownloadError`.
- JSON decoding is a parameter. This covers the descriptor decoder, the asset index decoder and the UTF-8 readings of the manifest bodies.
- Env.ReadClient: a `client.json` holding JSON `null` decodes to `None` in the launcher. The model's decoder gives nothing only on failure, so that case is a panic here.
- Zip decompression is the `Unzip` parameter. It yields each entry's header or header error and, for the entry's contents, the bytes copying gives and the error that stops the copy, if any. Which bytes a partial copy leaves is part of that answer.
- Assets.FetchObject: object hashes are taken as ASCII, as the hex digests the index holds are. `&hash[0..2]` slices bytes, so for a non-ASCII hash the model's two-character rule differs from the source: a one-character hash of two bytes does not panic there, and a hash whose second character spans byte 2 panics there. Assets.ObjectPath and Assets.ObjectUrl use the same reading.
- Install.FetchLibrary: core/src/utils/zip.rs (`ZipExtractor`), which unpacks natives in the current launcher and in src/client/mod.rs, is not part of this model. Those callers are assumed to apply the entry rule of src/utils.rs with the entry's own directory flag (`Archive.EntryFlag`). Only `Install.LegacyDownload` runs src/utils.rs's `extract` as written.
- Directories are implicit in the file map, so creating one changes nothing. A failing `create_dir_all` is not modelled, for example over an existing file where src/utils.rs:55 unwraps the result.
- Cache.Target: joining a download's `path` onto its base is concatenation. The `path` is assumed relative and free of `..` and `.`. An absolute `path`, which `Path::join` would let replace the base, is not representable. Archive entry names are resolved instead (`Archive.Resolve`), because `enclosed_name` admits `..` that stays inside the tree.
- `Profiles::fetch_profiles` (core/src/profiles.rs:260-263) reads the open `profiles.json` handle through a `BufReader` without seeking back. A second read on the same handle would see an empty list. The model assumes every `Env` operation reads a freshly opened handle.
- Process spawning and stdio inheritance are the `Runner` parameter.
- Directory creation and read/write failures other than the ones named above are not modelled. In the model a write always succeeds.
- The `Drop`-triggered saves of `Profiles` and `ConfigMut` are not modelled as file writes. `Env.Edit` and `Env.Create` return the updated profile list and configurations instead.
- `Config::read_global` is not modelled: the global configuration is an input that may already be an error. Writing the default on first use is left out, and the default itself is `Configs.CreateDefault`.
- Java discovery and `-version` parsing are left out, and installations are given. A version is major, minor and patch; semver pre-release and build metadata are not modelled.
- The version manifest's network refresh with a cached fallback, and the `lazy_static` singletons, are left out. The manifest is a parameter.
- core/src/env.rs calls `profile.install()`, `profile.execute()` and `Profile::create(name, version)` without the manifest argument their definitions take, and core/src/profiles.rs:104 calls `Config::read_global()` without the launcher root. The model passes these values explicitly.
- `Profiles::fetch_profiles`: a `profiles.json` that fails to decode reads as an empty list. The model starts from a given list.
- The older `Profile::client`/`Profile::download` (src/profiles.rs:62-85) are left out. They repeat the current read-or-create rule, with every failure turned into a panic.
- src/env.rs and src/main.rs are left out: they are a thin wrapper and the command line. api/src/meta/manifest.rs and src/utils/mod.rs only declare types, and the error `From` conversions carry no logic.
- Checksums and sizes in the metadata are never checked by the launcher, so they are not modelled.
- `download_futures` runs its futures concurrently. The model applies each item's effects at once, in completion order.
- Hash-map iteration order, for asset objects and natives, is a given sequence. A natives map has one entry per OS, so "the first entry for the host" is the host's entry.
- `\w` in the placeholder pattern is ASCII letters, digits and `_`; the regex crate's Unicode word characters are not modelled.
- Paths are component lists displayed with `/`. Windows display rules, and `to_str().unwrap()` on paths that are not UTF-8, are not modelled.
- Native-archive exclusion compares an entry's own path and its immediate parent only. The code does this; a wider "any ancestor" reading is not modelled.
- Launch.LegacyCommand: takes the required-library paths as a parameter rather than computing them with `get_req_libs`, so that the command line can be stated for both the as-written and the corrected list.
- `Env.Create` overwrites `client.json` when the name is already taken, while lookups keep finding the earlier profile; `Env.CreateDuplicateShadowed` states this behaviour, which the model keeps as written.
