/**
 * Flattening a tsconfig's extends: a depth-first read whose results override one another, leaf last,
 * and the file that each inherited option comes from.
 */
module Tsconfig {
  import opened Wrappers

  // ---- Path mappings ----

  datatype Mapping = Mapping(key: string, values: seq<string>)

  /** Mappings in authored order, which decides between equal prefixes. */
  type Paths = seq<Mapping>

  function Index(paths: Paths, key: string): (index: int)
    ensures -1 <= index < |paths|
    ensures index >= 0 ==> paths[index].key == key
    ensures index < 0 <==> forall m :: m in paths ==> m.key != key
  {
    if paths == [] then -1
    else if paths[|paths| - 1].key == key && Index(paths[..|paths| - 1], key) < 0 then |paths| - 1
    else
      var n := |paths| - 1;
      assert paths == paths[..n] + [paths[n]];
      Index(paths[..n], key)
  }

  ghost predicate KeysDiffer(paths: Paths) {
    forall i, j :: 0 <= i < j < |paths| ==> paths[i].key != paths[j].key
  }

  /** A repeated key keeps its first place and takes the last values. */
  method SetPath(paths: Paths, key: string, values: seq<string>) returns (set': Paths)
    requires KeysDiffer(paths)
    ensures KeysDiffer(set') && Index(set', key) >= 0 && set'[Index(set', key)].values == values
    ensures if Index(paths, key) >= 0 then |set'| == |paths| else |set'| == |paths| + 1
    ensures forall i :: 0 <= i < |paths| ==> set'[i] == if paths[i].key == key then Mapping(key, values) else paths[i]
  {
    var i := Index(paths, key);
    if i >= 0 {
      set' := paths[i := Mapping(key, values)];
      assert set'[i] in set';
    } else {
      set' := paths + [Mapping(key, values)];
      assert forall k :: 0 <= k < |paths| ==> paths[k] in paths;
      assert set'[|paths|] in set';
    }
  }

  // ---- Options ----

  /** An option as some file wrote it; without a value it was not set. */
  datatype Setting<T> = Setting(value: T, dir: string)

  /** The options of one file, or of a chain. A string option is set when it is not empty. */
  datatype Options = Options(
    baseUrl: Setting<string>,
    paths: Setting<Option<Paths>>,
    types: Option<seq<string>>,
    jsx: string,
    jsxImportSource: string,
    moduleKind: string,
    files: Setting<Option<seq<string>>>,
    includes: Setting<Option<seq<string>>>,
    excludes: Setting<Option<seq<string>>>)

  const UNSET: Options := Options(Setting("", ""), Setting(None, ""), None, "", "", "", Setting(None, ""),
                                  Setting(None, ""), Setting(None, ""))

  /** A config: the paths its extends names on disk, in order, and its own options. */
  datatype File = File(bases: seq<string>, options: Options)

  /** The configs that can be read, and the paths admission rejects. */
  datatype World = World(files: map<string, File>, rejected: set<string>)

  function Later<T>(first: Setting<Option<T>>, second: Setting<Option<T>>): Setting<Option<T>> {
    if second.value.Some? then second else first
  }

  function LaterText(first: string, second: string): string {
    if second != "" then second else first
  }

  /** What overriding one chain's options with another's leaves. */
  function Overridden(a: Options, b: Options): Options {
    Options(
      if b.baseUrl.value != "" then b.baseUrl else a.baseUrl,
      Later(a.paths, b.paths),
      if b.types.Some? then b.types else a.types,
      LaterText(a.jsx, b.jsx),
      LaterText(a.jsxImportSource, b.jsxImportSource),
      LaterText(a.moduleKind, b.moduleKind),
      Later(a.files, b.files),
      Later(a.includes, b.includes),
      Later(a.excludes, b.excludes))
  }

  lemma OverrideAssociates(a: Options, b: Options, c: Options)
    ensures Overridden(Overridden(a, b), c) == Overridden(a, Overridden(b, c))
  {
  }

  // ---- The reader ----

  datatype Outcome = Resolved(configs: seq<string>, options: Options) | Rejected | Unreadable

  /** What reading a config comes to, below the configs being read. */
  function Reading(w: World, path: string, ancestors: set<string>): Outcome
    decreases w.files.Keys - ancestors, 1, 0
  {
    if path in ancestors then Unreadable
    else if path in w.rejected then Rejected
    else if path !in w.files then Unreadable
    else
      var inherited := ReadingAll(w, w.files[path].bases, ancestors + {path});
      if inherited.Resolved?
        then Resolved(inherited.configs + [path], Overridden(inherited.options, w.files[path].options)) else inherited
  }

  /** Bases in order: an unreadable one is skipped, a rejected one ends the chain. */
  function ReadingAll(w: World, bases: seq<string>, ancestors: set<string>): Outcome
    decreases w.files.Keys - ancestors, 2, |bases|
  {
    if bases == [] then Resolved([], UNSET)
    else
      var n := |bases| - 1;
      var before := ReadingAll(w, bases[..n], ancestors);
      if !before.Resolved? then before
      else
        match Reading(w, bases[n], ancestors)
        case Rejected => Rejected
        case Unreadable => before
        case Resolved(configs, options) => Resolved(before.configs + configs, Overridden(before.options, options))
  }

  class Chain {
    var configs: seq<string>
    var baseUrl: string
    var baseUrlDir: string
    var paths: Option<Paths>
    var pathsDir: string
    var types: Option<seq<string>>
    var jsx: string
    var jsxImportSource: string
    var moduleKind: string
    var files: Option<seq<string>>
    var filesDir: string
    var includes: Option<seq<string>>
    var includesDir: string
    var excludes: Option<seq<string>>
    var excludesDir: string

    function Snapshot(): Options
      reads this
    {
      Options(Setting(baseUrl, baseUrlDir), Setting(paths, pathsDir), types, jsx, jsxImportSource, moduleKind,
              Setting(files, filesDir), Setting(includes, includesDir), Setting(excludes, excludesDir))
    }

    constructor (configs: seq<string>, o: Options)
      ensures this.configs == configs && Snapshot() == o
    {
      this.configs := configs;
      baseUrl, baseUrlDir := o.baseUrl.value, o.baseUrl.dir;
      paths, pathsDir := o.paths.value, o.paths.dir;
      types, jsx, jsxImportSource, moduleKind := o.types, o.jsx, o.jsxImportSource, o.moduleKind;
      files, filesDir := o.files.value, o.files.dir;
      includes, includesDir := o.includes.value, o.includes.dir;
      excludes, excludesDir := o.excludes.value, o.excludes.dir;
    }

    /** A set option replaces the inherited one whole, with its writer's directory. */
    method Override(other: Chain)
      requires other != this
      modifies this
      ensures configs == old(configs) + other.configs && Snapshot() == Overridden(old(Snapshot()), other.Snapshot())
    {
      ghost var before, over := Snapshot(), other.Snapshot();
      configs := configs + other.configs;
      OverrideMappings(other);
      OverrideScalars(other);
      OverrideSpecs(other);
      ghost var after := Snapshot();
      assert after.baseUrl == (if over.baseUrl.value != "" then over.baseUrl else before.baseUrl) && after.paths
             == Later(before.paths, over.paths);
      assert after.files == Later(before.files, over.files) && after.includes == Later(before.includes, over.includes);
      assert after.excludes == Later(before.excludes, over.excludes);
    }

    method OverrideMappings(other: Chain)
      requires other != this
      modifies this`baseUrl, this`baseUrlDir, this`paths, this`pathsDir
      ensures Setting(baseUrl, baseUrlDir) == if other.baseUrl != "" then Setting(other.baseUrl, other.baseUrlDir)
          else old(Setting(baseUrl, baseUrlDir))
      ensures Setting(paths, pathsDir) == Later(old(Setting(paths, pathsDir)), Setting(other.paths, other.pathsDir))
    {
      if other.baseUrl != "" {
        baseUrl, baseUrlDir := other.baseUrl, other.baseUrlDir;
      }
      if other.paths.Some? {
        paths, pathsDir := other.paths, other.pathsDir;
      }
    }

    method OverrideScalars(other: Chain)
      requires other != this
      modifies this`types, this`jsx, this`jsxImportSource, this`moduleKind
      ensures types == if other.types.Some? then other.types else old(types)
      ensures jsx == LaterText(old(jsx), other.jsx)
      ensures jsxImportSource == LaterText(old(jsxImportSource), other.jsxImportSource)
      ensures moduleKind == LaterText(old(moduleKind), other.moduleKind)
    {
      if other.types.Some? {
        types := other.types;
      }
      if other.jsx != "" {
        jsx := other.jsx;
      }
      if other.jsxImportSource != "" {
        jsxImportSource := other.jsxImportSource;
      }
      if other.moduleKind != "" {
        moduleKind := other.moduleKind;
      }
    }

    method OverrideSpecs(other: Chain)
      requires other != this
      modifies this`files, this`filesDir, this`includes, this`includesDir, this`excludes, this`excludesDir
      ensures Setting(files, filesDir) == Later(old(Setting(files, filesDir)), Setting(other.files, other.filesDir))
      ensures Setting(includes, includesDir)
              == Later(old(Setting(includes, includesDir)), Setting(other.includes, other.includesDir))
      ensures Setting(excludes, excludesDir)
              == Later(old(Setting(excludes, excludesDir)), Setting(other.excludes, other.excludesDir))
    {
      if other.files.Some? {
        files, filesDir := other.files, other.filesDir;
      }
      if other.includes.Some? {
        includes, includesDir := other.includes, other.includesDir;
      }
      if other.excludes.Some? {
        excludes, excludesDir := other.excludes, other.excludesDir;
      }
    }
  }

  datatype ChainResult = Read(chain: Chain) | NotAdmitted | NotRead

  class Resolver {
    const world: World
    var ancestors: set<string>

    constructor (world: World)
      ensures this.world == world && ancestors == {}
    {
      this.world, ancestors := world, {};
    }

    /** Reads path and, depth first, what it extends; only a repeated ancestor is a cycle. */
    method Resolve(path: string) returns (result: ChainResult)
      modifies this
      ensures ancestors == old(ancestors)
      ensures result.Read? ==> fresh(result.chain)
      ensures match Reading(world, path, ancestors)
              case Resolved(configs, options) => result.Read? && result.chain.configs == configs
                                                 && result.chain.Snapshot() == options
              case Rejected => result.NotAdmitted?
              case Unreadable => result.NotRead?
      decreases world.files.Keys - ancestors, 1
    {
      if path in ancestors {
        return NotRead;
      }
      if path in world.rejected {
        return NotAdmitted;
      }
      if path !in world.files {
        return NotRead;
      }
      ancestors := ancestors + {path};
      var file := world.files[path];
      var chain := new Chain([], UNSET);
      for i := 0 to |file.bases|
        invariant ancestors == old(ancestors) + {path} && fresh(chain)
        invariant ReadingAll(world, file.bases[..i], ancestors) == Resolved(chain.configs, chain.Snapshot())
      {
        var before := file.bases[..i];
        assert file.bases[..i + 1][..i] == before;
        var base := Resolve(file.bases[i]);
        if base.NotAdmitted? {
          StaysRejected(world, file.bases, i + 1, ancestors);
          ancestors := ancestors - {path};
          return NotAdmitted;
        }
        if base.Read? {
          chain.Override(base.chain);
        }
      }
      assert file.bases[..|file.bases|] == file.bases;
      var own := new Chain([path], file.options);
      chain.Override(own);
      ancestors := ancestors - {path};
      return Read(chain);
    }
  }

  lemma {:induction false} StaysRejected(w: World, bases: seq<string>, i: nat, ancestors: set<string>)
    requires i <= |bases| && ReadingAll(w, bases[..i], ancestors).Rejected?
    ensures ReadingAll(w, bases, ancestors).Rejected?
    decreases |bases| - i
  {
    if i < |bases| {
      assert bases[..i + 1][..i] == bases[..i];
      StaysRejected(w, bases, i + 1, ancestors);
    } else {
      assert bases[..i] == bases;
    }
  }

  // ---- Which file each option comes from ----

  /** The options of files read in order, each overriding the ones before it. */
  function Flattened(w: World, configs: seq<string>): Options
    requires forall c :: c in configs ==> c in w.files
  {
    if configs == [] then UNSET
    else
      var n := |configs| - 1;
      Overridden(Flattened(w, configs[..n]), w.files[configs[n]].options)
  }

  lemma {:induction false} FlattenedJoin(w: World, a: seq<string>, b: seq<string>)
    requires forall c :: c in a || c in b ==> c in w.files
    ensures Flattened(w, a + b) == Overridden(Flattened(w, a), Flattened(w, b))
    decreases |b|
  {
    if b == [] {
      assert a + b == a;
    } else {
      var n := |b| - 1;
      assert (a + b)[..|a + b| - 1] == a + b[..n];
      FlattenedJoin(w, a, b[..n]);
      OverrideAssociates(Flattened(w, a), Flattened(w, b[..n]), w.files[b[n]].options);
    }
  }

  /** A chain's options are its configs' own, later files over earlier ones; the leaf is last. */
  lemma {:induction false} ReadingFlattens(w: World, path: string, ancestors: set<string>)
    requires Reading(w, path, ancestors).Resolved?
    ensures var r := Reading(w, path, ancestors);
      && (forall c :: c in r.configs ==> c in w.files && c !in w.rejected)
      && r.configs != [] && r.configs[|r.configs| - 1] == path
      && r.options == Flattened(w, r.configs)
    decreases w.files.Keys - ancestors, 1, 0
  {
    var inherited := ReadingAll(w, w.files[path].bases, ancestors + {path});
    ReadingAllFlattens(w, w.files[path].bases, ancestors + {path});
    var r := Reading(w, path, ancestors);
    assert r.configs[..|r.configs| - 1] == inherited.configs;
  }

  lemma {:induction false} ReadingAllFlattens(w: World, bases: seq<string>, ancestors: set<string>)
    requires ReadingAll(w, bases, ancestors).Resolved?
    ensures var r := ReadingAll(w, bases, ancestors);
      (forall c :: c in r.configs ==> c in w.files && c !in w.rejected) && r.options == Flattened(w, r.configs)
    decreases w.files.Keys - ancestors, 2, |bases|
  {
    if bases != [] {
      var n := |bases| - 1;
      ReadingAllFlattens(w, bases[..n], ancestors);
      var before, last := ReadingAll(w, bases[..n], ancestors), Reading(w, bases[n], ancestors);
      if last.Resolved? {
        ReadingFlattens(w, bases[n], ancestors);
        FlattenedJoin(w, before.configs, last.configs);
      }
    }
  }

  // ---- One view of every option ----

  datatype Field = BaseUrl | PathMappings | Types | Jsx | JsxImportSource | ModuleKind | Files | Includes | Excludes

  /** An option's value, and its writer's directory where a value is relative to it. */
  datatype Shown = Text(text: string, dir: string) | Listed(values: seq<string>, dir: string)
    | Mapped(paths: Paths, dir: string)

  function TextView(value: string, dir: string): Option<Shown> {
    if value != "" then Some(Text(value, dir)) else None
  }

  function ListView(value: Option<seq<string>>, dir: string): Option<Shown> {
    if value.Some? then Some(Listed(value.value, dir)) else None
  }

  function View(o: Options, field: Field): Option<Shown> {
    match field
    case BaseUrl => TextView(o.baseUrl.value, o.baseUrl.dir)
    case PathMappings => if o.paths.value.Some? then Some(Mapped(o.paths.value.value, o.paths.dir)) else None
    case Types => ListView(o.types, "")
    case Jsx => TextView(o.jsx, "")
    case JsxImportSource => TextView(o.jsxImportSource, "")
    case ModuleKind => TextView(o.moduleKind, "")
    case Files => ListView(o.files.value, o.files.dir)
    case Includes => ListView(o.includes.value, o.includes.dir)
    case Excludes => ListView(o.excludes.value, o.excludes.dir)
  }

  /** The last of the configs that sets a field; -1 when none does. */
  function LastSetting(w: World, configs: seq<string>, field: Field): (last: int)
    requires forall c :: c in configs ==> c in w.files
    ensures -1 <= last < |configs|
    ensures last >= 0 ==> View(w.files[configs[last]].options, field).Some?
    ensures forall i :: last < i < |configs| ==> View(w.files[configs[i]].options, field).None?
  {
    if configs == [] then -1
    else
      var n := |configs| - 1;
      if View(w.files[configs[n]].options, field).Some? then n else LastSetting(w, configs[..n], field)
  }

  lemma OverriddenView(a: Options, b: Options, field: Field)
    ensures View(Overridden(a, b), field) == if View(b, field).Some? then View(b, field) else View(a, field)
  {
  }

  lemma {:induction false} FlattenedView(w: World, configs: seq<string>, field: Field)
    requires forall c :: c in configs ==> c in w.files
    ensures var last := LastSetting(w, configs, field);
      View(Flattened(w, configs), field) == if last >= 0 then View(w.files[configs[last]].options, field) else None
    decreases |configs|
  {
    if configs != [] {
      var n := |configs| - 1;
      FlattenedView(w, configs[..n], field);
      OverriddenView(Flattened(w, configs[..n]), w.files[configs[n]].options, field);
    }
  }

  /** Every option of a resolved config, with its directory, is that of the last file of its configs that sets it. */
  lemma OptionIsLastSet(w: World, path: string, field: Field)
    requires Reading(w, path, {}).Resolved?
    ensures var r := Reading(w, path, {});
      && (forall c :: c in r.configs ==> c in w.files)
      && r.configs[|r.configs| - 1] == path
      && var last := LastSetting(w, r.configs, field);
         View(r.options, field) == if last >= 0 then View(w.files[r.configs[last]].options, field) else None
  {
    ReadingFlattens(w, path, {});
    FlattenedView(w, Reading(w, path, {}).configs, field);
  }
}
