/** The `.csproj` document generated for one assembly: a property group naming the
    project and its GUID, then item groups for compiled references, source files
    and references to other assemblies' projects. The document is built as a
    sequence of lines; `Render` gives each line's exact text. The GUID of a
    project is `guidOf` of its assembly name (the generator passes
    `Guids.GenerateGuid` for the MD5 digest in use). */
module ProjectFile {
  import Text
  import Paths
  import opened Assemblies

  const MSBuildNamespaceUri := "http://schemas.microsoft.com/developer/msbuild/2003"

  /** The kinds of line the generator appends, with the values they carry. */
  datatype Line =
    | XmlDeclaration
    | ProjectOpen
    | PropertyGroupOpen
    | LangVersion
    | CscToolPath
    | CscToolExe
    | ProjectGuid(guid: string)
    | OutputType
    | AssemblyName(name: string)
    | TargetFrameworkVersion
    | FileAlignment
    | BaseDirectory
    | PropertyGroupClose
    | ItemGroupOpen
    | ItemGroupClose
    | ReferenceOpen(stem: string)
    | HintPath(path: string)
    | ReferenceClose
    | Compile(sourceFile: string)
    | ProjectReferenceOpen(name: string)
    | ProjectReferenceGuid(guid: string)
    | ProjectReferenceName(name: string)
    | ProjectReferenceClose
    | ImportTargets
    | ProjectClose

  /** The text of each line, without its newline. */
  function Render(l: Line): string {
    match l
    case XmlDeclaration => "<?xml version=\"1.0\" encoding=\"utf-8\"?>"
    case ProjectOpen => "<Project ToolsVersion=\"4.0\" DefaultTargets=\"Build\" xmlns=\"" + MSBuildNamespaceUri + "\">"
    case PropertyGroupOpen => "  <PropertyGroup>"
    case LangVersion => "    <LangVersion>latest</LangVersion>"
    case CscToolPath => "    <CscToolPath>$(CscToolPath)</CscToolPath>"
    case CscToolExe => "    <CscToolExe>$(CscToolExe)</CscToolExe>"
    case ProjectGuid(guid) => "    <ProjectGuid>{" + guid + "}</ProjectGuid>"
    case OutputType => "    <OutputType>Library</OutputType>"
    case AssemblyName(name) => "    <AssemblyName>" + name + "</AssemblyName>"
    case TargetFrameworkVersion => "    <TargetFrameworkVersion>v4.7.1</TargetFrameworkVersion>"
    case FileAlignment => "    <FileAlignment>512</FileAlignment>"
    case BaseDirectory => "    <BaseDirectory>.</BaseDirectory>"
    case PropertyGroupClose => "  </PropertyGroup>"
    case ItemGroupOpen => "  <ItemGroup>"
    case ItemGroupClose => "  </ItemGroup>"
    case ReferenceOpen(stem) => "    <Reference Include=\"" + stem + "\">"
    case HintPath(path) => "      <HintPath>" + path + "</HintPath>"
    case ReferenceClose => "    </Reference>"
    case Compile(sourceFile) => "    <Compile Include=\"" + sourceFile + "\" />"
    case ProjectReferenceOpen(name) => "    <ProjectReference Include=\"" + name + ".csproj\">"
    case ProjectReferenceGuid(guid) => "      <Project>{" + guid + "}</Project>"
    case ProjectReferenceName(name) => "      <Name>" + name + "</Name>"
    case ProjectReferenceClose => "    </ProjectReference>"
    case ImportTargets => "  <Import Project=\"$(MSBuildToolsPath)\\Microsoft.CSharp.targets\" />"
    case ProjectClose => "</Project>"
  }

  /** The text of a sequence of lines, line by line. */
  function RenderAll(ls: seq<Line>): (texts: seq<string>)
    ensures |texts| == |ls|
    ensures forall i :: 0 <= i < |ls| ==> texts[i] == Render(ls[i])
  {
    seq(|ls|, i requires 0 <= i < |ls| => Render(ls[i]))
  }

  /** The property group: identity of the project and fixed build settings. */
  function PropertyGroupLines(a: Assembly, guidOf: string -> string): seq<Line> {
    [ XmlDeclaration, ProjectOpen, PropertyGroupOpen, LangVersion, CscToolPath, CscToolExe,
      ProjectGuid(guidOf(a.name)), OutputType, AssemblyName(a.name),
      TargetFrameworkVersion, FileAlignment, BaseDirectory, PropertyGroupClose ]
  }

  /** The `<Reference>` element for the compiled assembly at `path`: named by its
      file stem, hinted by the path verbatim. */
  function ReferenceItem(path: string): seq<Line> {
    [ReferenceOpen(Paths.FileNameWithoutExtension(path)), HintPath(path), ReferenceClose]
  }

  /** The `<ProjectReference>` element for the assembly called `name`. */
  function ProjectReferenceItem(guidOf: string -> string, name: string): seq<Line> {
    [ProjectReferenceOpen(name), ProjectReferenceGuid(guidOf(name)), ProjectReferenceName(name), ProjectReferenceClose]
  }

  /** The `<Reference>` elements of the compiled references, one after another. */
  function ReferenceLines(refs: seq<string>): (ls: seq<Line>)
    ensures |ls| == 3 * |refs|
    decreases |refs|
  {
    if refs == [] then [] else ReferenceItem(refs[0]) + ReferenceLines(refs[1..])
  }

  /** The `<Compile>` elements of the source files, one after another. */
  function CompileLines(sourceFiles: seq<string>): seq<Line> {
    seq(|sourceFiles|, j requires 0 <= j < |sourceFiles| => Compile(sourceFiles[j]))
  }

  /** The `<ProjectReference>` elements of the referenced assemblies, one after another. */
  function ProjectReferenceLines(guidOf: string -> string, names: seq<string>): (ls: seq<Line>)
    ensures |ls| == 4 * |names|
    decreases |names|
  {
    if names == [] then [] else ProjectReferenceItem(guidOf, names[0]) + ProjectReferenceLines(guidOf, names[1..])
  }

  /** The lines of the `i`-th reference element. */
  lemma {:induction false} ReferenceLinesAt(refs: seq<string>, i: nat)
    requires i < |refs|
    ensures ReferenceLines(refs)[3 * i] == ReferenceOpen(Paths.FileNameWithoutExtension(refs[i]))
    ensures ReferenceLines(refs)[3 * i + 1] == HintPath(refs[i])
    decreases i
  {
    if i > 0 {
      ReferenceLinesAt(refs[1..], i - 1);
    }
  }

  /** The lines of the `k`-th project reference element. */
  lemma {:induction false} ProjectReferenceLinesAt(guidOf: string -> string, names: seq<string>, k: nat)
    requires k < |names|
    ensures ProjectReferenceLines(guidOf, names)[4 * k] == ProjectReferenceOpen(names[k])
    ensures ProjectReferenceLines(guidOf, names)[4 * k + 1] == ProjectReferenceGuid(guidOf(names[k]))
    decreases k
  {
    if k > 0 {
      ProjectReferenceLinesAt(guidOf, names[1..], k - 1);
    }
  }

  /** An `<ItemGroup>` element around `items`. */
  function ItemGroup(items: seq<Line>): (ls: seq<Line>)
    ensures |ls| == |items| + 2
  {
    [ItemGroupOpen] + items + [ItemGroupClose]
  }

  /** The lines of the project document, in the order they are appended. */
  function ProjectLines(a: Assembly, guidOf: string -> string): seq<Line> {
    PropertyGroupLines(a, guidOf)
      + ItemGroup(ReferenceLines(a.compiledAssemblyReferences))
      + ItemGroup(CompileLines(a.sourceFiles))
      + ItemGroup(ProjectReferenceLines(guidOf, a.assemblyReferences))
      + [ImportTargets, ProjectClose]
  }

  /** `GenerateProject`: the project document as text, each line ended by the
      platform newline `nl`. */
  function GenerateProject(a: Assembly, guidOf: string -> string, nl: string): string {
    Text.AppendLines(RenderAll(ProjectLines(a, guidOf)), nl)
  }

  /** The property group names the project and gives its GUID. */
  lemma {:induction false} ProjectHead(a: Assembly, guidOf: string -> string)
    ensures
      var ls := ProjectLines(a, guidOf);
      && |ls| == 21 + 3 * |a.compiledAssemblyReferences| + |a.sourceFiles| + 4 * |a.assemblyReferences|
      && ls[6] == ProjectGuid(guidOf(a.name))
      && ls[8] == AssemblyName(a.name)
  {
    var h := PropertyGroupLines(a, guidOf);
    var ls := ProjectLines(a, guidOf);
    assert ls[6] == h[6] && ls[8] == h[8];
  }

  /** An element of an item group, found inside the document around it. */
  lemma ElementOfGroup(pre: seq<Line>, items: seq<Line>, post: seq<Line>, j: nat)
    requires j < |items|
    ensures (pre + ItemGroup(items) + post)[|pre| + 1 + j] == items[j]
  {
    assert (pre + ItemGroup(items) + post)[|pre| + 1 + j] == ItemGroup(items)[1 + j];
  }

  /** The first item group: one `<Reference>` per compiled reference, in order,
      named by the file stem and hinted by the path verbatim. */
  lemma {:induction false} ProjectReferences(a: Assembly, guidOf: string -> string)
    ensures
      var ls := ProjectLines(a, guidOf);
      var refs := a.compiledAssemblyReferences;
      forall i :: 0 <= i < |refs| ==>
        && ls[14 + 3 * i] == ReferenceOpen(Paths.FileNameWithoutExtension(refs[i]))
        && ls[15 + 3 * i] == HintPath(refs[i])
  {
    var refs := a.compiledAssemblyReferences;
    var pre := PropertyGroupLines(a, guidOf);
    var post := ItemGroup(CompileLines(a.sourceFiles)) + ItemGroup(ProjectReferenceLines(guidOf, a.assemblyReferences)) + [ImportTargets, ProjectClose];
    var ls := pre + ItemGroup(ReferenceLines(refs)) + post;
    assert ProjectLines(a, guidOf) == ls;
    forall i | 0 <= i < |refs|
      ensures ls[14 + 3 * i] == ReferenceOpen(Paths.FileNameWithoutExtension(refs[i]))
      ensures ls[15 + 3 * i] == HintPath(refs[i])
    {
      ReferenceLinesAt(refs, i);
      ElementOfGroup(pre, ReferenceLines(refs), post, 3 * i);
      ElementOfGroup(pre, ReferenceLines(refs), post, 3 * i + 1);
    }
  }

  /** The second item group: one `<Compile>` per source file, verbatim and in order. */
  lemma {:induction false} ProjectCompiles(a: Assembly, guidOf: string -> string)
    ensures
      var ls := ProjectLines(a, guidOf);
      var r := |a.compiledAssemblyReferences|;
      forall j :: 0 <= j < |a.sourceFiles| ==> ls[16 + 3 * r + j] == Compile(a.sourceFiles[j])
  {
    var r := |a.compiledAssemblyReferences|;
    var pre := PropertyGroupLines(a, guidOf) + ItemGroup(ReferenceLines(a.compiledAssemblyReferences));
    var post := ItemGroup(ProjectReferenceLines(guidOf, a.assemblyReferences)) + [ImportTargets, ProjectClose];
    var ls := pre + ItemGroup(CompileLines(a.sourceFiles)) + post;
    assert ProjectLines(a, guidOf) == ls;
    forall j | 0 <= j < |a.sourceFiles|
      ensures ls[16 + 3 * r + j] == Compile(a.sourceFiles[j])
    {
      ElementOfGroup(pre, CompileLines(a.sourceFiles), post, j);
    }
  }

  /** The document split around the third item group. */
  lemma ProjectReferenceGroup(a: Assembly, guidOf: string -> string)
    ensures
      var pre := PropertyGroupLines(a, guidOf) + ItemGroup(ReferenceLines(a.compiledAssemblyReferences)) + ItemGroup(CompileLines(a.sourceFiles));
      && |pre| == 17 + 3 * |a.compiledAssemblyReferences| + |a.sourceFiles|
      && ProjectLines(a, guidOf) == pre + ItemGroup(ProjectReferenceLines(guidOf, a.assemblyReferences)) + [ImportTargets, ProjectClose]
  {
  }

  /** The `k`-th element of the third item group, located in the document. */
  lemma ProjectReferenceElement(a: Assembly, guidOf: string -> string, k: nat)
    requires k < |a.assemblyReferences|
    ensures
      var ls := ProjectLines(a, guidOf);
      var r, s, names := |a.compiledAssemblyReferences|, |a.sourceFiles|, a.assemblyReferences;
      && ls[18 + 3 * r + s + 4 * k] == ProjectReferenceOpen(names[k])
      && ls[19 + 3 * r + s + 4 * k] == ProjectReferenceGuid(guidOf(names[k]))
  {
    var names := a.assemblyReferences;
    var items := ProjectReferenceLines(guidOf, names);
    var pre := PropertyGroupLines(a, guidOf) + ItemGroup(ReferenceLines(a.compiledAssemblyReferences)) + ItemGroup(CompileLines(a.sourceFiles));
    var post := [ImportTargets, ProjectClose];
    ProjectReferenceGroup(a, guidOf);
    ProjectReferenceLinesAt(guidOf, names, k);
    ElementOfGroup(pre, items, post, 4 * k);
    ElementOfGroup(pre, items, post, 4 * k + 1);
  }

  /** The third item group: one `<ProjectReference>` per referenced assembly, in
      order and unfiltered, carrying that assembly's own GUID. */
  lemma ProjectProjectReferences(a: Assembly, guidOf: string -> string)
    ensures
      var ls := ProjectLines(a, guidOf);
      var r, s, names := |a.compiledAssemblyReferences|, |a.sourceFiles|, a.assemblyReferences;
      forall k :: 0 <= k < |names| ==>
        && ls[18 + 3 * r + s + 4 * k] == ProjectReferenceOpen(names[k])
        && ls[19 + 3 * r + s + 4 * k] == ProjectReferenceGuid(guidOf(names[k]))
  {
    var names := a.assemblyReferences;
    ProjectHead(a, guidOf);
    forall k | 0 <= k < |names| {
      ProjectReferenceElement(a, guidOf, k);
    }
  }
}
