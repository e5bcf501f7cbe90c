# Unity project generation for an external C# editor

A Dafny model of the editor package's project generator, `Editor/ProjectGeneration.cs`.
It turns the Unity compilation pipeline's assemblies into files for an external editor:

- one MSBuild `.csproj` file per assembly;
- a Visual Studio `.sln` solution listing them;
- a `.vscode/settings.json` that hides generated and binary files.

It also decides when a file event calls for regenerating them.

Every call into Unity, the file system or the platform is replaced by a plain input:

- **Assemblies.** `CompilationPipeline.GetAssemblies` becomes a sequence of `Assembly` records. Each record has a name, source files, compiled references and referenced assembly names.
- **Package lookup.** `PackageInfo.FindForAssetPath` becomes a function `string -> Option<Source>` over a closed enumeration of package sources.
- **Preferences.** The `EditorPrefs`-backed preferences become a `Config` record, with the same defaults.
- **Existing solution.** `File.Exists` on the solution becomes a boolean.
- **GUID digest.** The MD5 digest of a name becomes a function `string -> Digest`. The text encoding is folded into it.
- **Newline.** The platform newline of `StringBuilder.AppendLine` becomes a string parameter.
- **File writes.** Writing a file becomes returning a `Write(path, document)` value. Paths are relative to the project directory. `ProjectGeneration.Contents` gives the text of each document.

Modules:

| module | what it holds |
|---|---|
| `Wrappers` | `Option` |
| `Text` | line joining, ASCII case mapping, and `String.Replace` with its laws |
| `Paths` | `Path.GetExtension`, `Path.GetFileName`, `Path.GetFileNameWithoutExtension` |
| `Assemblies` | package sources, preferences, assemblies, and the `ShouldSyncAssembly` filter |
| `Guids` | the rendering of a 16-byte digest as `System.Guid` text, upper-cased, and its parser |
| `ProjectFile` | the `.csproj` document as a sequence of typed lines, then text |
| `SolutionFile` | the `.sln` document as a sequence of typed chunks, then text |
| `VSCodeSettings` | the settings template and the meta-file substitution |
| `ProjectGeneration` | the extension tests, the write list of a regeneration as written and as intended, `Sync`, `SyncIfNeeded`, and the static `SyncSolutionIfNeeded` wrapper with its chained `Union` |

## Model

| member | source | states |
|---|---|---|
| ProjectGeneration.SolutionFileBySuffix | Editor/ProjectGeneration.cs:338-342 | a file belongs in the solution exactly when its path ends with `.cs`, `.asmdef` or `.shader`, compared case-sensitively |
| ProjectGeneration.ReimportBySuffix | Editor/ProjectGeneration.cs:178-181 | a reimported asset calls for regeneration exactly when its path ends with `.dll` or `.asmdef` |
| ProjectGeneration.SolutionFileExamples | Editor/ProjectGeneration.cs:338-342 | `Player.cs` and `Water.shader` belong in the solution; `Player.CS`, `Player.cs.meta` and the extensionless `Assets/Plugins` do not |
| ProjectGeneration.ReimportExamples | Editor/ProjectGeneration.cs:178-181 | a reimported `.dll` triggers a sync and a reimported `.cs` does not |
| ProjectGeneration.AnySolutionFileExists | Editor/ProjectGeneration.cs:168 | `Any(ShouldFileBePartOfSolution)` holds exactly when some listed file belongs in the solution |
| ProjectGeneration.AnyReimportTriggerExists | Editor/ProjectGeneration.cs:169 | `Any(ShouldSyncOnReimportedAsset)` holds exactly when some listed file is a library or assembly definition |
| ProjectGeneration.SyncIfNeededDecision | Editor/ProjectGeneration.cs:163-176 | regenerates exactly when there is no solution, or an affected file belongs in the solution, or a reimported file triggers; otherwise writes nothing; when it regenerates it writes what `Sync` writes, minus the settings file |
| ProjectGeneration.DistinctSameElements | Editor/ProjectGeneration.cs:366 | `Distinct` keeps every element of its input and adds none |
| ProjectGeneration.DistinctNoDuplicates | Editor/ProjectGeneration.cs:366 | `Distinct` leaves no element twice |
| ProjectGeneration.DistinctKeepsUnique | Editor/ProjectGeneration.cs:366 | a list without duplicates passes through `Distinct` unchanged |
| ProjectGeneration.DistinctPrefix | Editor/ProjectGeneration.cs:366 | `Distinct(Distinct(xs) + ys)` equals `Distinct(xs + ys)`: removing duplicates early changes nothing |
| ProjectGeneration.ChainedUnion | Editor/ProjectGeneration.cs:366 | the four chained `Union` calls give the distinct elements of the five asset lists in order |
| ProjectGeneration.SyncSolutionIfNeededDecision | Editor/ProjectGeneration.cs:363-367 | the static wrapper regenerates exactly when there is no solution or one of the five asset lists names a solution file; reimports never trigger it |
| ProjectGeneration.OnlySyncWritesSettings | Editor/ProjectGeneration.cs:130-176 | no write of `SyncIfNeeded` goes to the settings file; the last write of `Sync` does |
| ProjectGeneration.ProjectFileIsNotSettings | Editor/ProjectGeneration.cs:137-143 | a project file path never coincides with the settings path |
| ProjectGeneration.SolutionFileIsNotSettings | Editor/ProjectGeneration.cs:137-143 | the solution file path never coincides with the settings path |
| ProjectGeneration.SyncSettingsText | Editor/ProjectGeneration.cs:130-148 | the settings file `Sync` writes is the template with only the `**/*.meta` entry set to the negated meta-files setting |
| ProjectGeneration.SolutionNamedAfterDirectory | Editor/ProjectGeneration.cs:344-347 | the solution file is the final segment of the project directory followed by `.sln` |
| ProjectGeneration.AsWrittenProjectWritesMembers | Editor/ProjectGeneration.cs:197-218 | the loop as written writes the project file of an assembly exactly when its name has a solution extension and it passes the package filter |
| ProjectGeneration.GenerateAndWriteWrites | Editor/ProjectGeneration.cs:197-218 | a regeneration writes the solution last and, before it, exactly the project files of the assemblies that pass both the name test and the package filter |
| ProjectGeneration.AsWrittenFollowsIncluded | Editor/ProjectGeneration.cs:203-214 | when no filtered assembly fails the name test, the loop writes the project file of each filtered assembly, in input order |
| ProjectGeneration.AsWrittenIsIntendedIff | Editor/ProjectGeneration.cs:203-214 | the regeneration as written equals the corrected one exactly when every assembly passing the package filter also passes the name test |
| ProjectGeneration.AsWrittenWritesAreListed | Editor/ProjectGeneration.cs:197-218 | every project file the loop as written produces is among those the solution calls for |
| ProjectGeneration.AsWrittenWritesHaveEntries | Editor/ProjectGeneration.cs:203-214 | every project file written as the source stands belongs to an assembly with a solution entry; that entry's GUID is the one in the file's `<ProjectGuid>` line |
| ProjectGeneration.DanglingEntryExample | Editor/ProjectGeneration.cs:203-217 | for a lone project assembly `Assembly-CSharp`, the loop as written writes no project file, but the solution lists it |
| ProjectGeneration.IncludedHasEntry | Editor/ProjectGeneration.cs:307-314 | every assembly that passes the filter has its `Project(...)` entry in the solution, under its own GUID |
| ProjectGeneration.ProjectWriteOfIncluded | Editor/ProjectGeneration.cs:307-314 | corrected loop (see Findings): every assembly the solution lists, that is every one passing the package filter, gets its project file |
| ProjectGeneration.ProjectWritesMatchSolution | Editor/ProjectGeneration.cs:307-314 | corrected loop (see Findings): project file `j` belongs to the `j`-th listed assembly; the solution has 10 + 2n chunks; entry `j` names that assembly with the same GUID as its `<ProjectGuid>` line |
| ProjectGeneration.ReferenceGuidMatchesSolution | Editor/ProjectGeneration.cs:286-292 | a `<ProjectReference>` to a listed assembly carries the GUID of that assembly's solution entry |
| Assemblies.Included | Editor/ProjectGeneration.cs:307-310 | the filtered assemblies are those of the input that pass `ShouldSyncAssembly`, and no more of them |
| Assemblies.IncludedConcat | Editor/ProjectGeneration.cs:307-310 | filtering a concatenation is concatenating the filtered parts, so input order is kept |
| Assemblies.IncludedSingle | Editor/ProjectGeneration.cs:307-310 | a single assembly is kept exactly when it should be synced |
| Assemblies.ShouldSyncAssemblyCases | Editor/ProjectGeneration.cs:221-245 | no source files rejects, whatever the lookup says; a project asset is accepted; a listed source gives its flag; an unlisted source rejects |
| Assemblies.FirstSourceDecides | Editor/ProjectGeneration.cs:225-227 | only the package of the first source file matters |
| Assemblies.IncludedMonotone | Editor/ProjectGeneration.cs:233-244 | allowing more package sources never drops an assembly |
| Assemblies.DefaultConfigIncludes | Editor/ProjectGeneration.cs:186-194 | with the default preferences an assembly is synced exactly when it has sources and the first is a project asset or in an embedded or local package |
| SolutionFile.EntriesOfIncluded | Editor/ProjectGeneration.cs:307-314 | the `Project(...)` entries are those of the filtered assemblies, one each, in input order |
| SolutionFile.ConfigurationsOfIncluded | Editor/ProjectGeneration.cs:323-331 | the configuration blocks are those of the filtered assemblies, one each, in input order |
| SolutionFile.SolutionLayout | Editor/ProjectGeneration.cs:301-336 | the solution is two header lines, the n entries, six global lines, the n configuration blocks and two closing lines; block `j` carries the GUID of entry `j` |
| SolutionFile.ConfigurationBlock | Editor/ProjectGeneration.cs:118-122 | a configuration block is four lines joined by the Windows newline, each starting with the indented, braced project GUID |
| ProjectFile.ProjectHead | Editor/ProjectGeneration.cs:250-299 | the project document has 21 + 3r + s + 4p lines; line 6 is the `<ProjectGuid>` of the assembly's name and line 8 its `<AssemblyName>` |
| ProjectFile.ReferenceLinesAt | Editor/ProjectGeneration.cs:267-272 | the `i`-th `<Reference>` element is named by the file stem of reference `i`, with the path verbatim as hint |
| ProjectFile.ProjectReferenceLinesAt | Editor/ProjectGeneration.cs:286-292 | the `k`-th `<ProjectReference>` element includes assembly `k`'s project and carries its GUID |
| ProjectFile.ProjectReferences | Editor/ProjectGeneration.cs:266-273 | the first item group has one `<Reference>` per compiled reference, in order, with the stem as `Include` and the path as `HintPath` |
| ProjectFile.ProjectCompiles | Editor/ProjectGeneration.cs:275-283 | the second item group has one `<Compile>` per source file, verbatim and in order |
| ProjectFile.ProjectReferenceElement | Editor/ProjectGeneration.cs:285-293 | where the `k`-th `<ProjectReference>` element stands in the document, and what its first two lines say |
| ProjectFile.ProjectProjectReferences | Editor/ProjectGeneration.cs:285-293 | the third item group has one `<ProjectReference>` per referenced assembly, in order and unfiltered, each carrying that assembly's GUID |
| Guids.Hex | Editor/ProjectGeneration.cs:374 | two digits per byte |
| Guids.HexDigits | Editor/ProjectGeneration.cs:374 | the digits of byte `j` stand at `2j` and `2j + 1`, high nibble first |
| Guids.ReversedGroup | Editor/ProjectGeneration.cs:374 | in a little-endian group, byte `k` prints at pair `hi - 1 - k` |
| Guids.InOrderGroup | Editor/ProjectGeneration.cs:374 | in a byte-order group, byte `k` prints at pair `k - lo` |
| Guids.LittleEndianBytePosition | Editor/ProjectGeneration.cs:374 | bytes 0 to 7 print reversed within the groups 0-3, 4-5 and 6-7 |
| Guids.InOrderBytePosition | Editor/ProjectGeneration.cs:374 | bytes 8 to 15 print in order |
| Guids.FormatGuidShape | Editor/ProjectGeneration.cs:374 | the text is 36 characters, hyphens at 8, 13, 18 and 23, each byte's two digits at its pair position |
| Guids.UpperGuidShape | Editor/ProjectGeneration.cs:374 | upper-casing gives 36 characters, hyphens at 8, 13, 18 and 23, and `0-9A-F` everywhere else |
| Guids.GenerateGuid | Editor/ProjectGeneration.cs:369-376 | the GUID of a name is GUID-shaped text |
| Guids.ParseGenerated | Editor/ProjectGeneration.cs:369-376 | reading a generated GUID back gives the digest of the name |
| Guids.SameGuidIffSameDigest | Editor/ProjectGeneration.cs:369-376 | two names get the same GUID exactly when their digests agree |
| Paths.ScanExtensionSpec | Editor/ProjectGeneration.cs:340 | the backward scan finds an extension exactly when there is an extension start, and returns the text from it |
| Paths.GetExtensionSpec | Editor/ProjectGeneration.cs:340 | the extension is non-empty exactly when the final segment has a dot that is not its last character, and then is the text from that dot |
| Paths.ScanFileNameIsFinalSegment | Editor/ProjectGeneration.cs:346 | the backward scan returns the separator-free tail of the path |
| Paths.FileNameIsFinalSegment | Editor/ProjectGeneration.cs:346 | `Path.GetFileName` returns the final segment |
| Paths.LastDotBeforeIsLast | Editor/ProjectGeneration.cs:269 | the found dot is a dot and no dot follows it |
| Paths.ExtensionAtLastDot | Editor/ProjectGeneration.cs:340 | an extension starts at the last dot of the file name |
| Paths.TrailingDotNoExtension | Editor/ProjectGeneration.cs:340 | a file name ending in a dot has no extension |
| Paths.NoDotNoExtension | Editor/ProjectGeneration.cs:340 | a file name without a dot has no extension |
| Paths.DotlessHasNoExtension | Editor/ProjectGeneration.cs:205 | a path without a dot has no extension |
| Paths.ExtensionFromLastDot | Editor/ProjectGeneration.cs:340 | otherwise the extension is the file name from its last dot |
| Paths.StemAndExtension | Editor/ProjectGeneration.cs:269 | the stem followed by the extension is the file name, except after a trailing dot, which the stem drops and the extension does not keep |
| Paths.ExtensionIsSuffix | Editor/ProjectGeneration.cs:340 | for a dot followed by dot- and separator-free text, the extension test is a suffix test |
| Text.ReplaceSkip | Editor/ProjectGeneration.cs:148 | `Replace` leaves a prefix without occurrences untouched |
| Text.ReplaceHit | Editor/ProjectGeneration.cs:148 | `Replace` substitutes an occurrence at the start and carries on after it |
| Text.ReplaceNone | Editor/ProjectGeneration.cs:148 | `Replace` on text without occurrences is the identity |
| VSCodeSettings.ReplaceEntry | Editor/ProjectGeneration.cs:148 | replacing the key's `true` member changes the key's own entry and nothing before it |
| VSCodeSettings.ReplaceSeparatedEntry | Editor/ProjectGeneration.cs:148 | the same for an entry followed by its separator |
| VSCodeSettings.ReplaceEntries | Editor/ProjectGeneration.cs:148 | replacing the key's `true` member in the entry list sets that key's value and leaves every other entry `true` |
| VSCodeSettings.PatternsUnquoted | Editor/ProjectGeneration.cs:35-90 | no excluded pattern contains a quote |
| VSCodeSettings.NegatedSettingText | Editor/ProjectGeneration.cs:148 | `(!MetaFiles).ToString().ToLower()` is `false` when meta files are shown, `true` otherwise |
| VSCodeSettings.MetaMemberText | Editor/ProjectGeneration.cs:148 | the searched text is the meta entry with value `true`; the replacement is the meta key with the new value |
| VSCodeSettings.SettingsContentIsDocument | Editor/ProjectGeneration.cs:148 | the written settings are the template with only the `**/*.meta` entry's value set to the negated meta-files setting |
| VSCodeSettings.EntriesShowKey | Editor/ProjectGeneration.cs:35-90 | the entry list mentions the key with its value |
| VSCodeSettings.SettingsShowMetaChoice | Editor/ProjectGeneration.cs:148 | the written settings contain `"**/*.meta":false` when meta files are shown and `"**/*.meta":true` when hidden |
| VSCodeSettings.HiddenMetaKeepsTemplate | Editor/ProjectGeneration.cs:148 | with meta files hidden, the written settings are the template unchanged |

## Left out

- File I/O is left out. This covers `File.WriteAllText`, `Directory.CreateDirectory`, `Path.Combine` and `File.Exists`. Writes are returned as values with paths relative to the project directory. Whether a solution exists is an input.
- `HasSolutionBeenGenerated` is not modelled separately. It is a file-existence check, so it becomes the `solutionExists` input.
- `SyncSolution` and `SyncSolutionIfNeeded` build a generator on `Directory.GetCurrentDirectory()`. That directory is the `projectDirectory` field of the environment.
- The MD5 digest and `Encoding.Default` are a parameter. They are a foreign cryptographic function and a platform encoding.
- The platform newline of `AppendLine` is a parameter. The templates' `\r\n` is modelled exactly.
- The line breaks inside the verbatim settings template (`VSCodeSettings.Header`, `Separator`, `Footer`) are fixed to `\n`. In C# a verbatim string takes the line endings of the source file itself, so a checkout with CRLF line endings would write `\r\n` there.
- `SetupProjectSupportedExtensions` and the built-in extension table are left out. The table is filled but never read.
- `AssetDatabase.GetAllAssetPaths` is left out. `GenerateProject` never reads its result.
- `Settings.PlayerProjects` is carried in `Config` but read nowhere, as in the code.
- `EditorPrefs` persistence is left out: preferences are a `Config` value.
- `Editor/AntigravityScriptEditor.cs` is not part of this model. It covers process launching, installation discovery and GUI.
- Exceptions are left out. In particular, `new FileInfo("")` throws, while the model gives the empty path no extension.
- `ShouldSyncOnReimportedAsset` reads `FileInfo.Extension`. The model uses the same extension function as `Path.GetExtension`; the two differ only on paths `FileInfo` rejects or normalises.
- Culture-sensitive case mapping is left out. `ToUpper` and `ToLower` are ASCII-only, which is all the GUID digits and `True`/`False` need.
- XML and JSON escaping is left out, since the code does none. Names and paths are inserted verbatim.
- Paths ends a path segment at `/`, `\` and the volume separator `:`, the set `Path.GetFileName` and `Path.GetExtension` use on Windows. On macOS and Linux only `/` separates, so there `\` and `:` would be ordinary characters.
- Guids.GenerateGuid: states only that its text is GUID-shaped. The digest it renders is pinned by `Guids.ParseGenerated`.

Two behaviours of the code that a reader may not expect, both kept in the model:

- **Project references are not pruned.** `<ProjectReference>` elements are written for every referenced assembly, including assemblies the package filter excludes.
- **A second gate on project files.** A project file is written only when the assembly's name also passes the solution-extension test. `GenerateAndWriteSolutionAndProjects`, and through it `Sync`, `SyncIfNeeded` and `SyncSolutionIfNeeded`, keep this gate. See Findings.

## Findings

| source | as written | input that shows it | evidently intended | confidence | as-written member | corrected member |
|---|---|---|---|---|---|---|
| Editor/ProjectGeneration.cs:205-206 | the project loop skips any assembly whose NAME has no `.cs`, `.asmdef` or `.shader` extension, although the solution lists every assembly that passes the package filter | one assembly `Assembly-CSharp` with source `Assets/Player.cs` and no package: the solution gets its `Project(...)` entry but no `Assembly-CSharp.csproj` is written | a project file for every assembly the solution lists | not executed | ProjectGeneration.AsWrittenProjectWrites (shown by ProjectGeneration.DanglingEntryExample) | ProjectGeneration.ProjectWrites, used by ProjectGeneration.IntendedGenerateAndWrite (proved by ProjectGeneration.ProjectWritesMatchSolution; ProjectGeneration.AsWrittenIsIntendedIff says when the two agree) |

The entry points `GenerateAndWriteSolutionAndProjects`, `Sync`, `SyncIfNeeded` and `SyncSolutionIfNeeded` follow the code as written. The corrected regeneration is `IntendedGenerateAndWrite`.
