/** Which rule outputs a file, or encloses it in an output tree, by the scan of its ancestor packages. */
module Ownership {
  import opened Wrappers

  /** A slash-separated path as its segments; the repository root is empty. */
  type Path = seq<string>

  function Parent(p: Path): Path {
    if p == [] then [] else p[..|p| - 1]
  }

  /** An output declaration's literal files, or the part of them that is literal. */
  datatype Outs = NoOuts | Outs(files: seq<Path>, incomplete: bool)
  datatype OutDir = NoOutDir | OutDir(path: Path) | OutDirExpression

  /** A rule's name, and whether a label can be parsed from it. */
  datatype Name = Name(text: string, valid: bool)

  /** One stored rule object; its id stands for the object, so an edit is another value. */
  datatype Rule = Rule(id: nat, name: Name, kind: string, outs: Outs, outDir: OutDir)

  datatype Config = Config(id: nat, kinds: map<string, string>)

  const NO_CONFIG := Config(0, map[])
  const CODEGEN := "ts_codegen"

  datatype Key = Key(dir: Path, name: Name)

  type FileId = nat

  /** What an ownership answer depends on. */
  datatype View = View(files: map<Path, FileId>, lists: map<FileId, seq<Rule>>, rules: map<Key, Rule>,
    configs: map<Path, Config>)

  /** The rule under its own kind; a key no label parses from is left as stored. */
  function Canonical(c: Config, r: Rule): Rule {
    if r.name.valid && r.kind in c.kinds then r.(kind := c.kinds[r.kind]) else r
  }

  datatype Declared = Declared(files: seq<Path>, tree: Option<Path>, incomplete: bool)

  function RuleOutputs(r: Rule): Declared {
    var files := if r.outs.Outs? then r.outs.files else [];
    var codegen := r.kind == CODEGEN;
    var tree := if codegen && r.outDir.OutDir? then Some(r.outDir.path) else None;
    Declared(files, tree, (r.outs.Outs? && r.outs.incomplete) || (codegen && r.outDir.OutDirExpression?))
  }

  /** Whether a rule carries any attribute that RuleOutputs looks at. */
  predicate DeclaresOutputs(r: Option<Rule>) {
    r.Some? && (r.value.outs != NoOuts || r.value.outDir != NoOutDir)
  }

  function Stored(v: View, key: Key): Option<Rule> {
    if key in v.rules then Some(v.rules[key]) else None
  }

  function ConfigOf(v: View, dir: Path): Config {
    if dir in v.configs then v.configs[dir] else NO_CONFIG
  }

  function ListAt(v: View, dir: Path): seq<Rule> {
    if dir in v.files && v.files[dir] in v.lists then v.lists[v.files[dir]] else []
  }

  /** The first listed rule of a name. */
  function FirstListed(list: seq<Rule>, name: Name): Option<Rule> {
    if list == [] then None else if list[0].name == name then Some(list[0]) else FirstListed(list[1..], name)
  }

  /** The rule a listed one stands for: the stored rule, or the one observing the package would store. */
  function Effective(v: View, dir: Path, name: Name): Option<Rule> {
    if Key(dir, name) in v.rules then Some(v.rules[Key(dir, name)]) else FirstListed(ListAt(v, dir), name)
  }

  function OutputsOf(v: View, dir: Path, r: Option<Rule>): Declared {
    match r
    case None => Declared([], None, false)
    case Some(rule) => RuleOutputs(Canonical(ConfigOf(v, dir), rule))
  }

  datatype Producer = Producer(rule: Rule, pkg: Path)

  // ---- The unindexed scan ----

  predicate ListsFile(v: View, dir: Path, name: Name, file: Path) {
    exists o :: o in OutputsOf(v, dir, Effective(v, dir, name)).files && dir + o == file
  }

  /** The first rule of the list whose literal outputs name the file. */
  function FileInList(v: View, dir: Path, list: seq<Rule>, file: Path): Option<Producer> {
    if list == [] then None
    else
      var r := Effective(v, dir, list[0].name);
      if r.Some? && ListsFile(v, dir, list[0].name, file)
      then Some(Producer(Canonical(ConfigOf(v, dir), r.value), dir))
      else FileInList(v, dir, list[1..], file)
  }

  /** The nearest package's first rule that outputs the file. */
  function ScanFile(v: View, dir: Path, file: Path): Option<Producer>
    decreases |dir|
  {
    var here := FileInList(v, dir, ListAt(v, dir), file);
    if here.Some? || dir == [] then here else ScanFile(v, Parent(dir), file)
  }

  datatype OutputTree = OutputTree(root: Path, producer: Producer)

  function TreesInList(v: View, dir: Path, list: seq<Rule>): seq<OutputTree> {
    if list == [] then []
    else
      var r := Effective(v, dir, list[0].name);
      var tree := OutputsOf(v, dir, r).tree;
      (if r.Some? && tree.Some? then [OutputTree(dir + tree.value, Producer(Canonical(ConfigOf(v, dir), r.value), dir))]
       else [])
      + TreesInList(v, dir, list[1..])
  }

  /** Every tree declared at or above the directory, nearest package first. */
  function ScanTrees(v: View, dir: Path): seq<OutputTree>
    decreases |dir|
  {
    TreesInList(v, dir, ListAt(v, dir)) + if dir == [] then [] else ScanTrees(v, Parent(dir))
  }

  /** The tree the scan keeps: a later one replaces it only when its root is longer. */
  function LongestTree(trees: seq<OutputTree>, file: Path, best: Option<OutputTree>): Option<OutputTree> {
    if trees == [] then best
    else
      var t := trees[0];
      LongestTree(trees[1..], file,
                  if t.root <= file && (best.None? || |t.root| > |best.value.root|) then Some(t) else best)
  }

  function ScanTree(v: View, file: Path): Option<OutputTree> {
    LongestTree(ScanTrees(v, Parent(file)), file, None)
  }

  lemma {:induction false} LongestTreeJoin(a: seq<OutputTree>, b: seq<OutputTree>, file: Path, best: Option<OutputTree>)
    ensures LongestTree(a + b, file, best) == LongestTree(b, file, LongestTree(a, file, best))
    decreases |a|
  {
    if a == [] {
      assert a + b == b;
    } else {
      assert (a + b)[1..] == a[1..] + b;
      LongestTreeJoin(a[1..], b, file,
                      if a[0].root <= file && (best.None? || |a[0].root| > |best.value.root|) then Some(a[0])
                          else best);
    }
  }

  /** The tree encloses the file, none that does is longer, and none as long is listed before it. */
  ghost predicate FirstLongest(trees: seq<OutputTree>, file: Path, t: OutputTree) {
    exists i :: 0 <= i < |trees| && trees[i] == t && t.root <= file && FirstLongestAt(trees, file, i)
  }

  ghost predicate FirstLongestAt(trees: seq<OutputTree>, file: Path, i: nat)
    requires i < |trees|
  {
    forall j :: 0 <= j < |trees| && trees[j].root <= file ==>
      |trees[j].root| <= |trees[i].root| && (j < i ==> |trees[j].root| < |trees[i].root|)
  }

  /** Scanned from a tree already kept, the result is that tree or a longer one, first of its length. */
  lemma {:induction false} LongestTreeFrom(trees: seq<OutputTree>, file: Path, best: OutputTree)
    requires best.root <= file
    ensures var r := LongestTree(trees, file, Some(best));
            r.Some? && (r.value == best || FirstLongest(trees, file, r.value)) && |best.root| <= |r.value.root|
    ensures var r := LongestTree(trees, file, Some(best)).value;
            (forall t :: t in trees && t.root <= file ==> |t.root| <= |r.root|)
            && (|r.root| == |best.root| ==> r == best)
    decreases |trees|
  {
    if trees != [] {
      var t := trees[0];
      var longer := t.root <= file && |t.root| > |best.root|;
      LongestTreeFrom(trees[1..], file, if longer then t else best);
      var r := LongestTree(trees, file, Some(best)).value;
      assert trees == [t] + trees[1..];
      if r != best {
        if longer && r == t {
          assert trees[0] == r && FirstLongestAt(trees, file, 0);
        } else {
          var i :| 0 <= i < |trees[1..]| && trees[1..][i] == r && FirstLongestAt(trees[1..], file, i);
          FirstLongestLater(trees, file, i);
        }
      }
    }
  }

  lemma FirstLongestLater(trees: seq<OutputTree>, file: Path, i: nat)
    requires i < |trees| - 1 && FirstLongestAt(trees[1..], file, i) && trees[1..][i].root <= file
    requires trees[0].root <= file ==> |trees[0].root| < |trees[1..][i].root|
    ensures FirstLongest(trees, file, trees[1..][i])
  {
    assert trees[i + 1] == trees[1..][i];
    forall j | 0 <= j < |trees| && trees[j].root <= file
      ensures |trees[j].root| <= |trees[i + 1].root| && (j < i + 1 ==> |trees[j].root| < |trees[i + 1].root|)
    {
      if j > 0 {
        assert trees[j] == trees[1..][j - 1];
      }
    }
    assert FirstLongestAt(trees, file, i + 1);
  }

  /** The scan finds the longest enclosing tree, the first of its length, or that none encloses the file. */
  lemma {:induction false} LongestTreeWins(trees: seq<OutputTree>, file: Path)
    ensures match LongestTree(trees, file, None)
            case None => forall t :: t in trees ==> !(t.root <= file)
            case Some(t) => FirstLongest(trees, file, t)
    decreases |trees|
  {
    if trees != [] {
      var t := trees[0];
      assert trees == [t] + trees[1..];
      if t.root <= file {
        LongestTreeFrom(trees[1..], file, t);
        var r := LongestTree(trees, file, None).value;
        if r == t {
          assert FirstLongestAt(trees, file, 0);
        } else {
          var i :| 0 <= i < |trees[1..]| && trees[1..][i] == r && FirstLongestAt(trees[1..], file, i);
          FirstLongestLater(trees, file, i);
        }
      } else {
        LongestTreeWins(trees[1..], file);
        if LongestTree(trees, file, None).Some? {
          var r := LongestTree(trees, file, None).value;
          var i :| 0 <= i < |trees[1..]| && trees[1..][i] == r && FirstLongestAt(trees[1..], file, i);
          FirstLongestLater(trees, file, i);
        }
      }
    }
  }

  // ---- Answers that rest on stored rules ----

  /** The list's answer, unless it is a rule that nothing has stored yet. */
  function KnownInList(v: View, dir: Path, list: seq<Rule>, file: Path): Option<Option<Producer>> {
    if list == [] then Some(None)
    else
      var r := Effective(v, dir, list[0].name);
      if !(r.Some? && ListsFile(v, dir, list[0].name, file)) then KnownInList(v, dir, list[1..], file)
      else if Key(dir, list[0].name) in v.rules then Some(Some(Producer(Canonical(ConfigOf(v, dir), r.value), dir)))
      else None
  }

  function KnownFile(v: View, dir: Path, file: Path): Option<Option<Producer>>
    decreases |dir|
  {
    match KnownInList(v, dir, ListAt(v, dir), file)
    case None => None
    case Some(here) => if here.Some? || dir == [] then Some(here) else KnownFile(v, Parent(dir), file)
  }

  lemma {:induction false} KnownListIsScanned(v: View, dir: Path, list: seq<Rule>, file: Path)
    ensures KnownInList(v, dir, list, file).Some? ==>
      KnownInList(v, dir, list, file).value == FileInList(v, dir, list, file)
    decreases |list|
  {
    if list != [] {
      KnownListIsScanned(v, dir, list[1..], file);
    }
  }

  lemma {:induction false} KnownIsScanned(v: View, dir: Path, file: Path)
    ensures KnownFile(v, dir, file).Some? ==> KnownFile(v, dir, file).value == ScanFile(v, dir, file)
    decreases |dir|
  {
    KnownListIsScanned(v, dir, ListAt(v, dir), file);
    if dir != [] {
      KnownIsScanned(v, Parent(dir), file);
    }
  }

  // ---- Observing a package stores what its list already stands for ----

  ghost predicate SameEffect(v: View, v': View) {
    && v'.files == v.files && v'.lists == v.lists && v'.configs == v.configs
    && forall dir, name :: Effective(v', dir, name) == Effective(v, dir, name)
  }

  lemma {:induction false} ListSameEffect(v: View, v': View, dir: Path, list: seq<Rule>, file: Path)
    requires SameEffect(v, v')
    ensures FileInList(v', dir, list, file) == FileInList(v, dir, list, file)
    ensures TreesInList(v', dir, list) == TreesInList(v, dir, list)
    decreases |list|
  {
    if list != [] {
      assert Effective(v', dir, list[0].name) == Effective(v, dir, list[0].name);
      ListSameEffect(v, v', dir, list[1..], file);
    }
  }

  lemma {:induction false} ScanSameEffect(v: View, v': View, dir: Path, file: Path)
    requires SameEffect(v, v')
    ensures ScanFile(v', dir, file) == ScanFile(v, dir, file)
    ensures ScanTrees(v', dir) == ScanTrees(v, dir)
    decreases |dir|
  {
    ListSameEffect(v, v', dir, ListAt(v, dir), file);
    if dir != [] {
      ScanSameEffect(v, v', Parent(dir), file);
    }
  }

  lemma ObservedSameEffect(v: View, key: Key, r: Rule)
    requires key !in v.rules && FirstListed(ListAt(v, key.dir), key.name) == Some(r)
    ensures SameEffect(v, v.(rules := v.rules[key := r]))
  {
  }

  /** Observing only stores more, and changes no effect. */
  ghost predicate Observes(v: View, v': View) {
    SameEffect(v, v') && v.rules.Keys <= v'.rules.Keys
  }

  lemma {:induction false} KnownListGrows(v: View, v': View, dir: Path, list: seq<Rule>, file: Path)
    requires Observes(v, v')
    ensures KnownInList(v, dir, list, file).Some? ==>
      KnownInList(v', dir, list, file) == KnownInList(v, dir, list, file)
    decreases |list|
  {
    if list != [] {
      assert Effective(v', dir, list[0].name) == Effective(v, dir, list[0].name);
      KnownListGrows(v, v', dir, list[1..], file);
    }
  }

  /** Every package from start up to dir, short of dir, is known to output no such file. */
  ghost predicate Passed(v: View, start: Path, dir: Path, file: Path)
    decreases |start|
  {
    start == dir
    || (start != [] && KnownInList(v, start, ListAt(v, start), file) == Some(None)
        && Passed(v, Parent(start), dir, file))
  }

  lemma {:induction false} PassedKnown(v: View, start: Path, dir: Path, file: Path)
    requires Passed(v, start, dir, file)
    ensures KnownFile(v, start, file) == KnownFile(v, dir, file)
    decreases |start|
  {
    if start != dir {
      PassedKnown(v, Parent(start), dir, file);
    }
  }

  lemma {:induction false} PassedFurther(v: View, start: Path, dir: Path, file: Path)
    requires Passed(v, start, dir, file) && dir != [] && KnownInList(v, dir, ListAt(v, dir), file) == Some(None)
    ensures Passed(v, start, Parent(dir), file)
    decreases |start|
  {
    if start != dir {
      PassedFurther(v, Parent(start), dir, file);
    }
  }

  lemma {:induction false} PassedGrows(v: View, v': View, start: Path, dir: Path, file: Path)
    requires Observes(v, v') && Passed(v, start, dir, file)
    ensures Passed(v', start, dir, file)
    decreases |start|
  {
    if start != dir {
      KnownListGrows(v, v', start, ListAt(v, start), file);
      PassedGrows(v, v', Parent(start), dir, file);
    }
  }

  /** What a list knows, from a stored rule on. */
  lemma {:induction false} KnownListSplit(v: View, dir: Path, list: seq<Rule>, i: nat, file: Path)
    requires i < |list| && Key(dir, list[i].name) in v.rules
    ensures KnownInList(v, dir, list[i..], file) ==
            if Effective(v, dir, list[i].name).Some? && ListsFile(v, dir, list[i].name, file)
            then Some(Some(Producer(Canonical(ConfigOf(v, dir), Effective(v, dir, list[i].name).value), dir)))
            else KnownInList(v, dir, list[i + 1..], file)
  {
    assert list[i..][0] == list[i] && list[i..][1..] == list[i + 1..];
  }
}
