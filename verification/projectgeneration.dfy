/** The generator's entry points: which file events call for regeneration,
    which files a regeneration writes, and the settings file written on a full
    sync. Writes are returned as a list of (path, content) pairs, with paths
    relative to the project directory, instead of being performed. */
module ProjectGeneration {
  import Text
  import Paths
  import Guids
  import opened Assemblies
  import ProjectFile
  import SolutionFile
  import VSCodeSettings

  /** `ShouldFileBePartOfSolution`: C# sources, assembly definitions and
      shaders, by exact, case-sensitive extension. */
  predicate ShouldFileBePartOfSolution(file: string) {
    var e := Paths.GetExtension(file);
    e == ".cs" || e == ".asmdef" || e == ".shader"
  }

  /** The extensions whose reimport calls for regeneration. */
  const ReimportSyncExtensions: seq<string> := [".dll", ".asmdef"]

  /** `ShouldSyncOnReimportedAsset`: plug-in libraries and assembly definitions. */
  predicate ShouldSyncOnReimportedAsset(asset: string) {
    Paths.GetExtension(asset) in ReimportSyncExtensions
  }

  /** The solution test is a suffix test on the three extensions. */
  lemma SolutionFileBySuffix(file: string)
    ensures ShouldFileBePartOfSolution(file)
      <==> Paths.EndsWith(file, ".cs") || Paths.EndsWith(file, ".asmdef") || Paths.EndsWith(file, ".shader")
  {
    Paths.ExtensionIsSuffix(file, ".cs");
    Paths.ExtensionIsSuffix(file, ".asmdef");
    Paths.ExtensionIsSuffix(file, ".shader");
  }

  /** The reimport test is a suffix test on the two extensions. */
  lemma ReimportBySuffix(asset: string)
    ensures ShouldSyncOnReimportedAsset(asset) <==> Paths.EndsWith(asset, ".dll") || Paths.EndsWith(asset, ".asmdef")
  {
    Paths.ExtensionIsSuffix(asset, ".dll");
    Paths.ExtensionIsSuffix(asset, ".asmdef");
  }

  /** The tests compare extensions exactly: upper-case spellings and other
      asset kinds do not count. */
  lemma SolutionFileExamples()
    ensures ShouldFileBePartOfSolution("Assets/Scripts/Player.cs")
    ensures !ShouldFileBePartOfSolution("Assets/Scripts/Player.CS")
    ensures !ShouldFileBePartOfSolution("Assets/Scripts/Player.cs.meta")
    ensures !ShouldFileBePartOfSolution("Assets/Plugins")
    ensures ShouldFileBePartOfSolution("Assets/Shaders/Water.shader")
  {
    SolutionFileBySuffix("Assets/Scripts/Player.cs");
    SolutionFileBySuffix("Assets/Scripts/Player.CS");
    SolutionFileBySuffix("Assets/Scripts/Player.cs.meta");
    SolutionFileBySuffix("Assets/Plugins");
    SolutionFileBySuffix("Assets/Shaders/Water.shader");
  }

  lemma ReimportExamples()
    ensures ShouldSyncOnReimportedAsset("Assets/Plugins/Native.dll")
    ensures !ShouldSyncOnReimportedAsset("Assets/Scripts/Player.cs")
  {
    ReimportBySuffix("Assets/Plugins/Native.dll");
    ReimportBySuffix("Assets/Scripts/Player.cs");
  }

  /** `affectedFiles.Any(ShouldFileBePartOfSolution)`. */
  function AnySolutionFile(files: seq<string>): bool
    decreases |files|
  {
    if files == [] then false
    else ShouldFileBePartOfSolution(files[0]) || AnySolutionFile(files[1..])
  }

  /** `reimportedFiles.Any(ShouldSyncOnReimportedAsset)`. */
  function AnyReimportTrigger(files: seq<string>): bool
    decreases |files|
  {
    if files == [] then false
    else ShouldSyncOnReimportedAsset(files[0]) || AnyReimportTrigger(files[1..])
  }

  /** `AnySolutionFile` holds exactly when some listed file belongs in the solution. */
  lemma {:induction false} AnySolutionFileExists(files: seq<string>)
    ensures AnySolutionFile(files) <==> exists f :: f in files && ShouldFileBePartOfSolution(f)
    decreases |files|
  {
    if files != [] {
      AnySolutionFileExists(files[1..]);
      assert forall f :: f in files <==> f == files[0] || f in files[1..];
    }
  }

  /** `AnyReimportTrigger` holds exactly when some listed file triggers on reimport. */
  lemma {:induction false} AnyReimportTriggerExists(files: seq<string>)
    ensures AnyReimportTrigger(files) <==> exists f :: f in files && ShouldSyncOnReimportedAsset(f)
    decreases |files|
  {
    if files != [] {
      AnyReimportTriggerExists(files[1..]);
      assert forall f :: f in files <==> f == files[0] || f in files[1..];
    }
  }

  /** The documents the generator writes. */
  datatype Document = ProjectDocument(assembly: Assembly) | SolutionDocument | SettingsDocument

  /** One file written by the generator: its path and the document it receives.
      `Contents` gives the text. */
  datatype Write = Write(path: string, document: Document)

  /** What the generator reads from the editor: the project directory, the
      compiled assemblies, the package manager's lookup, the digest used for
      GUIDs and the platform newline. */
  datatype Environment = Environment(
    projectDirectory: string,
    assemblies: seq<Assembly>,
    lookup: PackageLookup,
    md5: string -> Guids.Digest,
    newline: string)

  /** The GUID of every project name under the given digest. */
  function GuidOf(md5: string -> Guids.Digest): string -> string {
    name => Guids.GenerateGuid(md5, name)
  }

  /** `SolutionFile()`: the solution is named after the project directory. */
  function SolutionFileName(projectDirectory: string): string {
    Paths.FileName(projectDirectory) + ".sln"
  }

  function ProjectFileName(assemblyName: string): string {
    assemblyName + ".csproj"
  }

  /** The settings file, inside the `.vscode` folder. */
  const SettingsPath := ".vscode/settings.json"

  /** The text of a document: `GenerateProject`, `GenerateSolution`, or the
      settings substitution of `WriteVSCodeSettings`. */
  function Contents(env: Environment, cfg: Config, d: Document): string {
    match d
    case ProjectDocument(a) => ProjectFile.GenerateProject(a, GuidOf(env.md5), env.newline)
    case SolutionDocument =>
      SolutionFile.GenerateSolution(env.assemblies, env.lookup, cfg, GuidOf(env.md5), env.newline)
    case SettingsDocument => VSCodeSettings.SettingsContent(cfg.metaFiles)
  }

  /** The project file of one assembly. */
  function ProjectWrite(a: Assembly): Write {
    Write(ProjectFileName(a.name), ProjectDocument(a))
  }

  /** The loop of `GenerateAndWriteSolutionAndProjects` as written: a project
      file only for an assembly that passes the source filter AND whose name
      has a solution file's extension. */
  function AsWrittenProjectWrites(env: Environment, cfg: Config, assemblies: seq<Assembly>): seq<Write>
    decreases |assemblies|
  {
    if assemblies == [] then []
    else
      var a := assemblies[0];
      var rest := AsWrittenProjectWrites(env, cfg, assemblies[1..]);
      if !ShouldFileBePartOfSolution(a.name) then rest
      else if !ShouldSyncAssembly(a, env.lookup, cfg) then rest
      else [ProjectWrite(a)] + rest
  }

  /** The project files the loop writes: exactly those of the assemblies that
      pass both tests. */
  lemma {:induction false} AsWrittenProjectWritesMembers(env: Environment, cfg: Config, assemblies: seq<Assembly>, w: Write)
    ensures w in AsWrittenProjectWrites(env, cfg, assemblies)
      <==> exists a :: a in assemblies && ShouldFileBePartOfSolution(a.name)
                  && ShouldSyncAssembly(a, env.lookup, cfg) && w == ProjectWrite(a)
    decreases |assemblies|
  {
    if assemblies != [] {
      var a := assemblies[0];
      var rest := AsWrittenProjectWrites(env, cfg, assemblies[1..]);
      AsWrittenProjectWritesMembers(env, cfg, assemblies[1..], w);
      assert forall b :: b in assemblies <==> b == a || b in assemblies[1..];
      if ShouldFileBePartOfSolution(a.name) && ShouldSyncAssembly(a, env.lookup, cfg) {
        assert AsWrittenProjectWrites(env, cfg, assemblies) == [ProjectWrite(a)] + rest;
      } else {
        assert AsWrittenProjectWrites(env, cfg, assemblies) == rest;
      }
    }
  }

  /** The project files the solution calls for: one per synced assembly, in order. */
  function ProjectWrites(env: Environment, cfg: Config): seq<Write> {
    var inc := Included(env.assemblies, env.lookup, cfg);
    seq(|inc|, j requires 0 <= j < |inc| => ProjectWrite(inc[j]))
  }

  /** The solution file. */
  function SolutionWrite(env: Environment): Write {
    Write(SolutionFileName(env.projectDirectory), SolutionDocument)
  }

  /** `GenerateAndWriteSolutionAndProjects`: the project files the loop as
      written produces, then the solution. */
  function GenerateAndWriteSolutionAndProjects(env: Environment, cfg: Config): seq<Write> {
    AsWrittenProjectWrites(env, cfg, env.assemblies) + [SolutionWrite(env)]
  }

  /** The regeneration the solution calls for: a project file for every assembly
      the solution lists, then the solution. */
  function IntendedGenerateAndWrite(env: Environment, cfg: Config): seq<Write> {
    ProjectWrites(env, cfg) + [SolutionWrite(env)]
  }

  /** `Sync`: regeneration followed by the settings file. */
  function Sync(env: Environment, cfg: Config): seq<Write> {
    GenerateAndWriteSolutionAndProjects(env, cfg)
      + [Write(SettingsPath, SettingsDocument)]
  }

  /** The result of `SyncIfNeeded`: whether it regenerated, and what it wrote. */
  datatype Outcome = Outcome(regenerated: bool, writes: seq<Write>)

  /** `SyncIfNeeded`: regenerate unless a solution exists already and neither
      the affected nor the reimported files call for it. */
  function SyncIfNeeded(env: Environment, cfg: Config, solutionExists: bool, affected: seq<string>, reimported: seq<string>): Outcome {
    if solutionExists && !AnySolutionFile(affected) && !AnyReimportTrigger(reimported) then Outcome(false, [])
    else Outcome(true, GenerateAndWriteSolutionAndProjects(env, cfg))
  }

  /** No element occurs twice. */
  predicate NoDuplicates(s: seq<string>) {
    forall i, j :: 0 <= i < j < |s| ==> s[i] != s[j]
  }

  /** `Distinct`: the first occurrence of each element, in order. */
  function Distinct(s: seq<string>): seq<string>
    decreases |s|
  {
    if s == [] then []
    else
      var r := Distinct(s[..|s| - 1]);
      var x := s[|s| - 1];
      if x in r then r else r + [x]
  }

  /** `Distinct` keeps every element and adds none. */
  lemma {:induction false} DistinctSameElements(s: seq<string>)
    ensures forall x :: x in Distinct(s) <==> x in s
    decreases |s|
  {
    if s != [] {
      DistinctSameElements(s[..|s| - 1]);
      assert forall y :: y in s <==> y in s[..|s| - 1] || y == s[|s| - 1];
    }
  }

  /** `Distinct` leaves no element twice. */
  lemma {:induction false} DistinctNoDuplicates(s: seq<string>)
    ensures NoDuplicates(Distinct(s))
    decreases |s|
  {
    if s != [] {
      DistinctNoDuplicates(s[..|s| - 1]);
    }
  }

  /** `Enumerable.Union`: the distinct elements of `xs`, then those of `ys` not
      seen before. */
  function Union(xs: seq<string>, ys: seq<string>): seq<string> {
    Distinct(xs + ys)
  }

  /** `SyncSolutionIfNeeded`: the union of the five asset lists as affected
      files, and no reimported files. */
  function SyncSolutionIfNeeded(
    env: Environment, cfg: Config, solutionExists: bool,
    added: seq<string>, deleted: seq<string>, moved: seq<string>, movedFrom: seq<string>, imported: seq<string>): Outcome
  {
    SyncIfNeeded(env, cfg, solutionExists, Union(Union(Union(Union(added, deleted), moved), movedFrom), imported), [])
  }

  /** Distinct elements pass through unchanged. */
  lemma {:induction false} DistinctKeepsUnique(s: seq<string>)
    requires NoDuplicates(s)
    ensures Distinct(s) == s
    decreases |s|
  {
    if s != [] {
      var init := s[..|s| - 1];
      assert NoDuplicates(init);
      DistinctKeepsUnique(init);
      assert s[|s| - 1] !in init;
      assert init + [s[|s| - 1]] == s;
    }
  }

  /** `Distinct` of a sequence with one more element at the end. */
  lemma DistinctSnoc(s: seq<string>, x: string)
    ensures Distinct(s + [x]) == if x in Distinct(s) then Distinct(s) else Distinct(s) + [x]
  {
    var t := s + [x];
    assert t[..|t| - 1] == s && t[|t| - 1] == x;
  }

  /** Removing duplicates early changes nothing: `Distinct(Distinct(xs) + ys)`
      is `Distinct(xs + ys)`. */
  lemma {:induction false} DistinctPrefix(xs: seq<string>, ys: seq<string>)
    ensures Distinct(Distinct(xs) + ys) == Distinct(xs + ys)
    decreases |ys|
  {
    if ys == [] {
      assert xs + ys == xs;
      assert Distinct(xs) + ys == Distinct(xs);
      DistinctNoDuplicates(xs);
      DistinctKeepsUnique(Distinct(xs));
    } else {
      var init := ys[..|ys| - 1];
      var y := ys[|ys| - 1];
      DistinctPrefix(xs, init);
      assert Distinct(xs) + ys == (Distinct(xs) + init) + [y];
      assert xs + ys == (xs + init) + [y];
      DistinctSnoc(Distinct(xs) + init, y);
      DistinctSnoc(xs + init, y);
    }
  }

  /** The chained unions of the five lists are the distinct elements of the
      five lists in order. */
  lemma ChainedUnion(a: seq<string>, b: seq<string>, c: seq<string>, d: seq<string>, e: seq<string>)
    ensures Union(Union(Union(Union(a, b), c), d), e) == Distinct(a + b + c + d + e)
  {
    DistinctPrefix(a + b, c);
    DistinctPrefix(a + b + c, d);
    DistinctPrefix(a + b + c + d, e);
  }

  /** `SyncIfNeeded` regenerates exactly when there is no solution yet, or an
      affected file belongs in the solution, or a reimported file is a library
      or assembly definition; otherwise it writes nothing. */
  lemma SyncIfNeededDecision(env: Environment, cfg: Config, solutionExists: bool, affected: seq<string>, reimported: seq<string>)
    ensures
      var o := SyncIfNeeded(env, cfg, solutionExists, affected, reimported);
      && (o.regenerated <==>
            || !solutionExists
            || (exists f :: f in affected && ShouldFileBePartOfSolution(f))
            || (exists f :: f in reimported && ShouldSyncOnReimportedAsset(f)))
      && (!o.regenerated ==> o.writes == [])
      && (o.regenerated ==> o.writes == Sync(env, cfg)[..|Sync(env, cfg)| - 1])
  {
    var g := GenerateAndWriteSolutionAndProjects(env, cfg);
    AnySolutionFileExists(affected);
    AnyReimportTriggerExists(reimported);
    assert Sync(env, cfg)[..|Sync(env, cfg)| - 1] == g;
  }

  /** `SyncSolutionIfNeeded` regenerates exactly when there is no solution yet
      or one of the five lists names a file that belongs in the solution. */
  lemma SyncSolutionIfNeededDecision(
    env: Environment, cfg: Config, solutionExists: bool,
    added: seq<string>, deleted: seq<string>, moved: seq<string>, movedFrom: seq<string>, imported: seq<string>)
    ensures
      var o := SyncSolutionIfNeeded(env, cfg, solutionExists, added, deleted, moved, movedFrom, imported);
      && (o.regenerated <==>
            || !solutionExists
            || (exists f :: f in added + deleted + moved + movedFrom + imported && ShouldFileBePartOfSolution(f)))
      && (o.regenerated ==> o.writes == GenerateAndWriteSolutionAndProjects(env, cfg))
  {
    ChainedUnion(added, deleted, moved, movedFrom, imported);
    DistinctSameElements(added + deleted + moved + movedFrom + imported);
    AnySolutionFileExists(Union(Union(Union(Union(added, deleted), moved), movedFrom), imported));
    AnyReimportTriggerExists([]);
  }

  /** A project file is never the settings file. */
  lemma ProjectFileIsNotSettings(name: string)
    ensures ProjectFileName(name) != SettingsPath
  {
    var f := ProjectFileName(name);
    assert f[|f| - 1] == 'j';
  }

  /** The solution file is never the settings file. */
  lemma SolutionFileIsNotSettings(projectDirectory: string)
    ensures SolutionFileName(projectDirectory) != SettingsPath
  {
    var f := SolutionFileName(projectDirectory);
    assert f[|f| - 4] == '.';
  }

  /** `SyncIfNeeded` never touches the settings file; only `Sync` writes it,
      as its last write. */
  lemma OnlySyncWritesSettings(env: Environment, cfg: Config, solutionExists: bool, affected: seq<string>, reimported: seq<string>)
    ensures forall w :: w in SyncIfNeeded(env, cfg, solutionExists, affected, reimported).writes ==> w.path != SettingsPath
    ensures Sync(env, cfg)[|Sync(env, cfg)| - 1].path == SettingsPath
  {
    forall w | w in AsWrittenProjectWrites(env, cfg, env.assemblies)
      ensures w.path != SettingsPath
    {
      AsWrittenProjectWritesMembers(env, cfg, env.assemblies, w);
      var a :| a in env.assemblies && ShouldFileBePartOfSolution(a.name)
        && ShouldSyncAssembly(a, env.lookup, cfg) && w == ProjectWrite(a);
      ProjectFileIsNotSettings(a.name);
    }
    SolutionFileIsNotSettings(env.projectDirectory);
  }

  /** The settings file `Sync` writes is the template with only the meta entry
      set: `false` when meta files are shown, `true` when they are hidden. */
  lemma SyncSettingsText(env: Environment, cfg: Config)
    ensures
      var w := Sync(env, cfg)[|Sync(env, cfg)| - 1];
      Contents(env, cfg, w.document) == VSCodeSettings.Document(VSCodeSettings.MetaValue(cfg.metaFiles))
  {
    VSCodeSettings.SettingsContentIsDocument(cfg.metaFiles);
  }

  /** The solution is named after the final segment of the project directory. */
  lemma SolutionNamedAfterDirectory(projectDirectory: string)
    ensures exists name :: Paths.IsFinalSegment(projectDirectory, name) && SolutionFileName(projectDirectory) == name + ".sln"
  {
    Paths.FileNameIsFinalSegment(projectDirectory);
  }

  /** Every project file the solution lists is written, in the solution's
      order, and the project's own GUID is the one the solution gives it. */
  lemma ProjectWritesMatchSolution(env: Environment, cfg: Config)
    ensures
      var inc := Included(env.assemblies, env.lookup, cfg);
      var ws := ProjectWrites(env, cfg);
      var chunks := SolutionFile.SolutionChunks(env.assemblies, env.lookup, cfg, GuidOf(env.md5));
      && |ws| == |inc|
      && |chunks| == 10 + 2 * |inc|
      && forall j :: 0 <= j < |inc| ==>
           var g := Guids.GenerateGuid(env.md5, inc[j].name);
           && ws[j].path == ProjectFileName(inc[j].name)
           && chunks[2 + j] == SolutionFile.ProjectEntry(inc[j].name, g)
           && ProjectFile.ProjectLines(inc[j], GuidOf(env.md5))[6] == ProjectFile.ProjectGuid(g)
  {
    var inc := Included(env.assemblies, env.lookup, cfg);
    SolutionFile.SolutionLayout(env.assemblies, env.lookup, cfg, GuidOf(env.md5));
    forall j | 0 <= j < |inc| {
      ProjectFile.ProjectHead(inc[j], GuidOf(env.md5));
    }
  }

  /** A `<ProjectReference>` to a synced assembly carries the GUID of that
      assembly's solution entry. */
  lemma ReferenceGuidMatchesSolution(env: Environment, cfg: Config, a: Assembly, k: nat, b: Assembly)
    requires k < |a.assemblyReferences|
    requires b in Included(env.assemblies, env.lookup, cfg) && b.name == a.assemblyReferences[k]
    ensures
      var r, s := |a.compiledAssemblyReferences|, |a.sourceFiles|;
      var g := Guids.GenerateGuid(env.md5, b.name);
      && ProjectFile.ProjectLines(a, GuidOf(env.md5))[19 + 3 * r + s + 4 * k] == ProjectFile.ProjectReferenceGuid(g)
      && SolutionFile.ProjectEntry(b.name, g) in SolutionFile.SolutionChunks(env.assemblies, env.lookup, cfg, GuidOf(env.md5))
  {
    ProjectFile.ProjectReferenceElement(a, GuidOf(env.md5), k);
    IncludedHasEntry(env, cfg, b);
  }

  /** Every synced assembly gets its project file. */
  lemma ProjectWriteOfIncluded(env: Environment, cfg: Config, a: Assembly)
    requires a in Included(env.assemblies, env.lookup, cfg)
    ensures ProjectWrite(a) in ProjectWrites(env, cfg)
  {
    var inc := Included(env.assemblies, env.lookup, cfg);
    var j :| 0 <= j < |inc| && inc[j] == a;
    var ws := ProjectWrites(env, cfg);
    assert ws[j] == ProjectWrite(a);
  }

  /** Every project file the loop as written produces is one the solution calls for. */
  lemma AsWrittenWritesAreListed(env: Environment, cfg: Config, w: Write)
    requires w in AsWrittenProjectWrites(env, cfg, env.assemblies)
    ensures w in ProjectWrites(env, cfg)
  {
    AsWrittenProjectWritesMembers(env, cfg, env.assemblies, w);
    var a :| a in env.assemblies && ShouldFileBePartOfSolution(a.name)
      && ShouldSyncAssembly(a, env.lookup, cfg) && w == ProjectWrite(a);
    ProjectWriteOfIncluded(env, cfg, a);
  }

  /** Every synced assembly has its entry in the solution, under its own GUID. */
  lemma IncludedHasEntry(env: Environment, cfg: Config, a: Assembly)
    requires a in Included(env.assemblies, env.lookup, cfg)
    ensures SolutionFile.ProjectEntry(a.name, Guids.GenerateGuid(env.md5, a.name))
      in SolutionFile.SolutionChunks(env.assemblies, env.lookup, cfg, GuidOf(env.md5))
  {
    var inc := Included(env.assemblies, env.lookup, cfg);
    var j :| 0 <= j < |inc| && inc[j] == a;
    SolutionFile.SolutionLayout(env.assemblies, env.lookup, cfg, GuidOf(env.md5));
    var chunks := SolutionFile.SolutionChunks(env.assemblies, env.lookup, cfg, GuidOf(env.md5));
    assert chunks[2 + j] in chunks;
  }

  /** Every project file the loop as written produces belongs to an assembly the
      solution lists, under the GUID the project file itself declares. */
  lemma AsWrittenWritesHaveEntries(env: Environment, cfg: Config, w: Write)
    requires w in AsWrittenProjectWrites(env, cfg, env.assemblies)
    ensures exists a ::
      && a in Included(env.assemblies, env.lookup, cfg)
      && w == ProjectWrite(a)
      && SolutionFile.ProjectEntry(a.name, Guids.GenerateGuid(env.md5, a.name))
           in SolutionFile.SolutionChunks(env.assemblies, env.lookup, cfg, GuidOf(env.md5))
      && ProjectFile.ProjectLines(a, GuidOf(env.md5))[6] == ProjectFile.ProjectGuid(Guids.GenerateGuid(env.md5, a.name))
  {
    AsWrittenProjectWritesMembers(env, cfg, env.assemblies, w);
    var a :| a in env.assemblies && ShouldFileBePartOfSolution(a.name)
      && ShouldSyncAssembly(a, env.lookup, cfg) && w == ProjectWrite(a);
    assert a in Included(env.assemblies, env.lookup, cfg);
    IncludedHasEntry(env, cfg, a);
    ProjectFile.ProjectHead(a, GuidOf(env.md5));
  }

  /** The loop as written leaves a solution entry without its project file: an
      ordinary project assembly, whose name has no extension, is listed in the
      solution but its `.csproj` is never written. */
  lemma DanglingEntryExample(md5: string -> Guids.Digest, newline: string, projectDirectory: string)
    ensures
      var a := Assembly("Assembly-CSharp", ["Assets/Player.cs"], [], []);
      var lookup: PackageLookup := _ => Wrappers.None;
      var env := Environment(projectDirectory, [a], lookup, md5, newline);
      && AsWrittenProjectWrites(env, DefaultConfig, env.assemblies) == []
      && SolutionFile.SolutionChunks(env.assemblies, lookup, DefaultConfig, GuidOf(md5))[2]
           == SolutionFile.ProjectEntry("Assembly-CSharp", Guids.GenerateGuid(md5, "Assembly-CSharp"))
      && ProjectWrites(env, DefaultConfig) == [ProjectWrite(a)]
  {
    var a := Assembly("Assembly-CSharp", ["Assets/Player.cs"], [], []);
    var lookup: PackageLookup := _ => Wrappers.None;
    var env := Environment(projectDirectory, [a], lookup, md5, newline);
    Paths.DotlessHasNoExtension("Assembly-CSharp");
    assert Included([a], lookup, DefaultConfig) == [a];
    SolutionFile.SolutionLayout(env.assemblies, lookup, DefaultConfig, GuidOf(md5));
  }

  /** A regeneration writes the solution last, and before it the project file of
      each assembly that passes both the package filter and the name test, and
      nothing else. */
  lemma GenerateAndWriteWrites(env: Environment, cfg: Config, w: Write)
    ensures
      var ws := GenerateAndWriteSolutionAndProjects(env, cfg);
      && ws[|ws| - 1] == SolutionWrite(env)
      && (w in ws <==>
            || w == SolutionWrite(env)
            || exists a :: a in env.assemblies && ShouldFileBePartOfSolution(a.name)
                          && ShouldSyncAssembly(a, env.lookup, cfg) && w == ProjectWrite(a))
  {
    AsWrittenProjectWritesMembers(env, cfg, env.assemblies, w);
  }

  /** The project files of a list of assemblies, one each, in order. */
  function ProjectWritesOf(inc: seq<Assembly>): seq<Write>
    decreases |inc|
  {
    if inc == [] then [] else [ProjectWrite(inc[0])] + ProjectWritesOf(inc[1..])
  }

  /** Write `j` of `ProjectWritesOf` is the project file of assembly `j`. */
  lemma {:induction false} ProjectWritesOfAt(inc: seq<Assembly>)
    ensures |ProjectWritesOf(inc)| == |inc|
    ensures forall j :: 0 <= j < |inc| ==> ProjectWritesOf(inc)[j] == ProjectWrite(inc[j])
    decreases |inc|
  {
    if inc != [] {
      ProjectWritesOfAt(inc[1..]);
    }
  }

  /** When every assembly that passes the package filter also passes the name
      test, the loop as written writes the project files of the filtered list. */
  lemma {:induction false} AsWrittenFollowsIncluded(env: Environment, cfg: Config, assemblies: seq<Assembly>)
    requires forall a :: a in assemblies && ShouldSyncAssembly(a, env.lookup, cfg) ==> ShouldFileBePartOfSolution(a.name)
    ensures AsWrittenProjectWrites(env, cfg, assemblies) == ProjectWritesOf(Included(assemblies, env.lookup, cfg))
    decreases |assemblies|
  {
    if assemblies != [] {
      var a, tail := assemblies[0], assemblies[1..];
      assert forall b :: b in tail ==> b in assemblies;
      AsWrittenFollowsIncluded(env, cfg, tail);
      var inc := Included(tail, env.lookup, cfg);
      if ShouldSyncAssembly(a, env.lookup, cfg) {
        assert ShouldFileBePartOfSolution(a.name);
        assert ([a] + inc)[1..] == inc;
      }
    }
  }

  /** The regeneration as written is the intended one exactly when no assembly
      that passes the package filter fails the name test. */
  lemma AsWrittenIsIntendedIff(env: Environment, cfg: Config)
    ensures GenerateAndWriteSolutionAndProjects(env, cfg) == IntendedGenerateAndWrite(env, cfg)
      <==> forall a :: a in env.assemblies && ShouldSyncAssembly(a, env.lookup, cfg) ==> ShouldFileBePartOfSolution(a.name)
  {
    var aw := AsWrittenProjectWrites(env, cfg, env.assemblies);
    var ws := ProjectWrites(env, cfg);
    if forall a :: a in env.assemblies && ShouldSyncAssembly(a, env.lookup, cfg) ==> ShouldFileBePartOfSolution(a.name) {
      AsWrittenFollowsIncluded(env, cfg, env.assemblies);
      ProjectWritesOfAt(Included(env.assemblies, env.lookup, cfg));
      assert aw == ws;
    } else {
      var a :| a in env.assemblies && ShouldSyncAssembly(a, env.lookup, cfg) && !ShouldFileBePartOfSolution(a.name);
      ProjectWriteOfIncluded(env, cfg, a);
      AsWrittenProjectWritesMembers(env, cfg, env.assemblies, ProjectWrite(a));
      assert ProjectWrite(a) !in aw;
      assert ProjectWrite(a) in ws + [SolutionWrite(env)];
      assert ProjectWrite(a) !in aw + [SolutionWrite(env)];
    }
  }
}
