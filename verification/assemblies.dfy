/** The assemblies the host compiles, the package each one comes from, and the
    per-source preferences that decide which of them take part in generation. */
module Assemblies {
  import opened Wrappers

  /** Where a package comes from. `Other` stands for any package source the
      generator's switch does not list. */
  datatype Source = Embedded | Local | Registry | Git | BuiltIn | LocalTarball | Unknown | Other

  /** The generator's preferences, one flag per listed package source plus the
      player-projects and meta-files toggles. */
  datatype Config = Config(
    embedded: bool,
    local: bool,
    registry: bool,
    git: bool,
    builtIn: bool,
    localTarball: bool,
    unknown: bool,
    playerProjects: bool,
    metaFiles: bool)
  {
    /** The flag configured for packages from `s`; unlisted sources are never allowed. */
    function Allows(s: Source): bool {
      match s
      case Embedded => embedded
      case Local => local
      case Registry => registry
      case Git => git
      case BuiltIn => builtIn
      case LocalTarball => localTarball
      case Unknown => unknown
      case Other => false
    }

    /** Every source this configuration allows, `other` allows too. */
    predicate AllowsNoMoreThan(other: Config) {
      forall s :: Allows(s) ==> other.Allows(s)
    }
  }

  /** The values read when no preference has been stored: embedded and local
      packages and meta files shown, everything else off. */
  const DefaultConfig := Config(
    embedded := true,
    local := true,
    registry := false,
    git := false,
    builtIn := false,
    localTarball := false,
    unknown := false,
    playerProjects := false,
    metaFiles := true)

  /** A compiled assembly. References to other assemblies are kept by name, the
      only part of them the generator reads. */
  datatype Assembly = Assembly(
    name: string,
    sourceFiles: seq<string>,
    compiledAssemblyReferences: seq<string>,
    assemblyReferences: seq<string>)

  /** The package manager's answer for an asset path: the source of the package
      holding it, or `None` for an asset of the project itself. */
  type PackageLookup = string -> Option<Source>

  /** Whether an assembly takes part in generation: not without source files;
      otherwise decided by the package of its first source file, always for a
      project asset and by the configured flag for a package. */
  function ShouldSyncAssembly(a: Assembly, lookup: PackageLookup, cfg: Config): bool {
    if |a.sourceFiles| == 0 then false
    else
      match lookup(a.sourceFiles[0])
      case None => true
      case Some(s) => cfg.Allows(s)
  }

  /** The assemblies that take part in generation, in the order given. */
  function Included(assemblies: seq<Assembly>, lookup: PackageLookup, cfg: Config): (r: seq<Assembly>)
    ensures forall a :: a in r <==> a in assemblies && ShouldSyncAssembly(a, lookup, cfg)
    ensures |r| <= |assemblies|
    decreases |assemblies|
  {
    if assemblies == [] then []
    else
      var rest := Included(assemblies[1..], lookup, cfg);
      if ShouldSyncAssembly(assemblies[0], lookup, cfg) then [assemblies[0]] + rest else rest
  }

  /** Filtering keeps order: the filter of a concatenation is the concatenation
      of the filters. With the one-element case this pins `Included` down. */
  lemma {:induction false} IncludedConcat(xs: seq<Assembly>, ys: seq<Assembly>, lookup: PackageLookup, cfg: Config)
    ensures Included(xs + ys, lookup, cfg) == Included(xs, lookup, cfg) + Included(ys, lookup, cfg)
    decreases |xs|
  {
    if xs == [] {
      assert xs + ys == ys;
    } else {
      assert (xs + ys)[1..] == xs[1..] + ys;
      IncludedConcat(xs[1..], ys, lookup, cfg);
    }
  }

  /** The filter of one assembly keeps it exactly when it should be synced. */
  lemma IncludedSingle(a: Assembly, lookup: PackageLookup, cfg: Config)
    ensures Included([a], lookup, cfg) == if ShouldSyncAssembly(a, lookup, cfg) then [a] else []
  {
    assert [a][1..] == [];
  }

  /** The four outcomes of the assembly filter: no source files rejects without
      asking the lookup, a project asset is accepted, a listed package source
      gives its flag and an unlisted one rejects. */
  lemma ShouldSyncAssemblyCases(a: Assembly, lookup: PackageLookup, cfg: Config)
    ensures |a.sourceFiles| == 0 ==> forall other: PackageLookup :: !ShouldSyncAssembly(a, other, cfg)
    ensures |a.sourceFiles| > 0 && lookup(a.sourceFiles[0]) == None ==> ShouldSyncAssembly(a, lookup, cfg)
    ensures |a.sourceFiles| > 0 && lookup(a.sourceFiles[0]) == Some(Other) ==> !ShouldSyncAssembly(a, lookup, cfg)
    ensures forall s :: |a.sourceFiles| > 0 && lookup(a.sourceFiles[0]) == Some(s) ==>
      ShouldSyncAssembly(a, lookup, cfg) == cfg.Allows(s)
  {
  }

  /** Only the package of the first source file matters. */
  lemma FirstSourceDecides(a: Assembly, l1: PackageLookup, l2: PackageLookup, cfg: Config)
    requires |a.sourceFiles| > 0 ==> l1(a.sourceFiles[0]) == l2(a.sourceFiles[0])
    ensures ShouldSyncAssembly(a, l1, cfg) == ShouldSyncAssembly(a, l2, cfg)
  {
  }

  /** Allowing more package sources never drops an assembly. */
  lemma {:induction false} IncludedMonotone(assemblies: seq<Assembly>, lookup: PackageLookup, c1: Config, c2: Config, a: Assembly)
    requires c1.AllowsNoMoreThan(c2)
    requires a in Included(assemblies, lookup, c1)
    ensures a in Included(assemblies, lookup, c2)
  {
    var s := lookup(a.sourceFiles[0]);
    if s.Some? {
      assert c1.Allows(s.value);
    }
  }

  /** With the default preferences an assembly is synced exactly when it has
      source files and the first one is a project asset or lies in an embedded
      or local package. */
  lemma DefaultConfigIncludes(a: Assembly, lookup: PackageLookup)
    ensures ShouldSyncAssembly(a, lookup, DefaultConfig) <==>
      |a.sourceFiles| > 0 && lookup(a.sourceFiles[0]) in {None, Some(Embedded), Some(Local)}
  {
  }
}
