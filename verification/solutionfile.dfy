/** The `.sln` document: a fixed header, one `Project(...)` entry per synced
    assembly, the two fixed solution configurations, and the per-project
    configuration block. Built as a sequence of chunks, each ended by the
    platform newline; a chunk of a template spans several lines joined by the
    Windows newline. */
module SolutionFile {
  import Text
  import opened Assemblies

  /** The project-type GUID of a C# project. */
  const CSharpProjectTypeGuid := "{FAE04EC0-301F-11D3-BF4B-00C04F79EFBC}"

  const WindowsNewline := "\r\n"

  /** What `GenerateSolution` appends before each platform newline. */
  datatype Chunk =
    | FormatHeader
    | VersionComment
    | ProjectEntry(name: string, guid: string)
    | GlobalOpen
    | SolutionConfigurationsOpen
    | DebugConfiguration
    | ReleaseConfiguration
    | SectionClose
    | ProjectConfigurationsOpen
    | ProjectConfigurations(guid: string)
    | GlobalClose

  /** The four lines mapping both solution configurations of the project with
      the braced GUID `g` to the same project configurations. */
  function ConfigurationLines(g: string): seq<string> {
    [ "        " + g + ".Debug|Any CPU.ActiveCfg = Debug|Any CPU",
      "        " + g + ".Debug|Any CPU.Build.0 = Debug|Any CPU",
      "        " + g + ".Release|Any CPU.ActiveCfg = Release|Any CPU",
      "        " + g + ".Release|Any CPU.Build.0 = Release|Any CPU" ]
  }

  /** The text of each chunk, without the newline that follows it. */
  function Render(c: Chunk): string {
    match c
    case FormatHeader => "Microsoft Visual Studio Solution File, Format Version 12.00"
    case VersionComment => "# Visual Studio 15"
    case ProjectEntry(name, guid) =>
      Text.Join(WindowsNewline, [
        "Project(\"" + CSharpProjectTypeGuid + "\") = \"" + name + "\", \"" + name + ".csproj\", \"{" + guid + "}\"",
        "EndProject"])
    case GlobalOpen => "Global"
    case SolutionConfigurationsOpen => "    GlobalSection(SolutionConfigurationPlatforms) = preSolution"
    case DebugConfiguration => "        Debug|Any CPU = Debug|Any CPU"
    case ReleaseConfiguration => "        Release|Any CPU = Release|Any CPU"
    case SectionClose => "    EndGlobalSection"
    case ProjectConfigurationsOpen => "    GlobalSection(ProjectConfigurationPlatforms) = postSolution"
    case ProjectConfigurations(guid) => Text.Join(WindowsNewline, ConfigurationLines("{" + guid + "}"))
    case GlobalClose => "EndGlobal"
  }

  function RenderAll(cs: seq<Chunk>): seq<string> {
    seq(|cs|, i requires 0 <= i < |cs| => Render(cs[i]))
  }

  /** The first loop: an entry for every assembly that passes the filter. */
  function EntryChunks(assemblies: seq<Assembly>, lookup: PackageLookup, cfg: Config, guidOf: string -> string): seq<Chunk>
    decreases |assemblies|
  {
    if assemblies == [] then []
    else
      var a := assemblies[0];
      var rest := EntryChunks(assemblies[1..], lookup, cfg, guidOf);
      if !ShouldSyncAssembly(a, lookup, cfg) then rest else [ProjectEntry(a.name, guidOf(a.name))] + rest
  }

  /** The second loop: a configuration block for every assembly that passes the filter. */
  function ConfigurationChunks(assemblies: seq<Assembly>, lookup: PackageLookup, cfg: Config, guidOf: string -> string): seq<Chunk>
    decreases |assemblies|
  {
    if assemblies == [] then []
    else
      var a := assemblies[0];
      var rest := ConfigurationChunks(assemblies[1..], lookup, cfg, guidOf);
      if !ShouldSyncAssembly(a, lookup, cfg) then rest else [ProjectConfigurations(guidOf(a.name))] + rest
  }

  /** The chunks of the solution document, in the order they are appended. */
  function SolutionChunks(assemblies: seq<Assembly>, lookup: PackageLookup, cfg: Config, guidOf: string -> string): seq<Chunk> {
    [FormatHeader, VersionComment]
      + EntryChunks(assemblies, lookup, cfg, guidOf)
      + [GlobalOpen, SolutionConfigurationsOpen, DebugConfiguration, ReleaseConfiguration, SectionClose, ProjectConfigurationsOpen]
      + ConfigurationChunks(assemblies, lookup, cfg, guidOf)
      + [SectionClose, GlobalClose]
  }

  /** `GenerateSolution`: the solution document as text. */
  function GenerateSolution(assemblies: seq<Assembly>, lookup: PackageLookup, cfg: Config, guidOf: string -> string, nl: string): string {
    Text.AppendLines(RenderAll(SolutionChunks(assemblies, lookup, cfg, guidOf)), nl)
  }

  /** The entries are exactly those of the synced assemblies, in input order. */
  lemma {:induction false} EntriesOfIncluded(assemblies: seq<Assembly>, lookup: PackageLookup, cfg: Config, guidOf: string -> string)
    ensures
      var inc := Included(assemblies, lookup, cfg);
      var es := EntryChunks(assemblies, lookup, cfg, guidOf);
      && |es| == |inc|
      && forall j :: 0 <= j < |inc| ==> es[j] == ProjectEntry(inc[j].name, guidOf(inc[j].name))
    decreases |assemblies|
  {
    if assemblies != [] {
      var a := assemblies[0];
      var inc := Included(assemblies[1..], lookup, cfg);
      var rest := EntryChunks(assemblies[1..], lookup, cfg, guidOf);
      EntriesOfIncluded(assemblies[1..], lookup, cfg, guidOf);
      if ShouldSyncAssembly(a, lookup, cfg) {
        assert Included(assemblies, lookup, cfg) == [a] + inc;
        assert EntryChunks(assemblies, lookup, cfg, guidOf) == [ProjectEntry(a.name, guidOf(a.name))] + rest;
      } else {
        assert Included(assemblies, lookup, cfg) == inc;
        assert EntryChunks(assemblies, lookup, cfg, guidOf) == rest;
      }
    }
  }

  /** The configuration blocks are exactly those of the synced assemblies, in input order. */
  lemma {:induction false} ConfigurationsOfIncluded(assemblies: seq<Assembly>, lookup: PackageLookup, cfg: Config, guidOf: string -> string)
    ensures
      var inc := Included(assemblies, lookup, cfg);
      var cs := ConfigurationChunks(assemblies, lookup, cfg, guidOf);
      && |cs| == |inc|
      && forall j :: 0 <= j < |inc| ==> cs[j] == ProjectConfigurations(guidOf(inc[j].name))
    decreases |assemblies|
  {
    if assemblies != [] {
      var a := assemblies[0];
      var inc := Included(assemblies[1..], lookup, cfg);
      var rest := ConfigurationChunks(assemblies[1..], lookup, cfg, guidOf);
      ConfigurationsOfIncluded(assemblies[1..], lookup, cfg, guidOf);
      if ShouldSyncAssembly(a, lookup, cfg) {
        assert Included(assemblies, lookup, cfg) == [a] + inc;
        assert ConfigurationChunks(assemblies, lookup, cfg, guidOf) == [ProjectConfigurations(guidOf(a.name))] + rest;
      } else {
        assert Included(assemblies, lookup, cfg) == inc;
        assert ConfigurationChunks(assemblies, lookup, cfg, guidOf) == rest;
      }
    }
  }

  /** The layout of the solution: after the two header lines, entry `j` belongs
      to the `j`-th synced assembly; after the six global lines, configuration
      block `j` carries the same GUID, so both sections list the same projects in
      the same order. */
  lemma {:induction false} SolutionLayout(assemblies: seq<Assembly>, lookup: PackageLookup, cfg: Config, guidOf: string -> string)
    ensures
      var inc := Included(assemblies, lookup, cfg);
      var n := |inc|;
      var cs := SolutionChunks(assemblies, lookup, cfg, guidOf);
      && |cs| == 10 + 2 * n
      && (forall j :: 0 <= j < n ==> cs[2 + j] == ProjectEntry(inc[j].name, guidOf(inc[j].name)))
      && (forall j :: 0 <= j < n ==> cs[8 + n + j] == ProjectConfigurations(guidOf(inc[j].name)))
  {
    var inc := Included(assemblies, lookup, cfg);
    var n := |inc|;
    var es := EntryChunks(assemblies, lookup, cfg, guidOf);
    var gs := ConfigurationChunks(assemblies, lookup, cfg, guidOf);
    EntriesOfIncluded(assemblies, lookup, cfg, guidOf);
    ConfigurationsOfIncluded(assemblies, lookup, cfg, guidOf);
    var pre := [FormatHeader, VersionComment] + es
      + [GlobalOpen, SolutionConfigurationsOpen, DebugConfiguration, ReleaseConfiguration, SectionClose, ProjectConfigurationsOpen];
    var cs := pre + gs + [SectionClose, GlobalClose];
    assert SolutionChunks(assemblies, lookup, cfg, guidOf) == cs;
    assert |pre| == 8 + n;
    forall j | 0 <= j < n
      ensures cs[2 + j] == ProjectEntry(inc[j].name, guidOf(inc[j].name))
    {
      assert cs[2 + j] == pre[2 + j] == es[j];
    }
    forall j | 0 <= j < n
      ensures cs[8 + n + j] == ProjectConfigurations(guidOf(inc[j].name))
    {
      assert cs[8 + n + j] == (pre + gs)[|pre| + j] == gs[j];
    }
  }

  /** Each configuration block is four lines, Debug and Release, active and build,
      all about the one project. */
  lemma ConfigurationBlock(guid: string)
    ensures
      var ls := ConfigurationLines("{" + guid + "}");
      && Render(ProjectConfigurations(guid)) == Text.Join(WindowsNewline, ls)
      && |ls| == 4
      && forall i :: 0 <= i < 4 ==> ls[i][..10 + |guid|] == "        {" + guid + "}"
  {
    var ls := ConfigurationLines("{" + guid + "}");
    var g := "        {" + guid + "}";
    forall i | 0 <= i < 4
      ensures ls[i][..10 + |guid|] == g
    {
      assert ls[i][..|g|] == g;
    }
  }
}
