/** The per-package output index and the resolution memo, kept right over every store and list edit. */
module OutputIndex {
  import opened Wrappers
  import opened Ownership

  datatype TreeEntry = TreeEntry(root: Path, rule: nat)

  /** One package's owners by file, its trees in list order, and what they were read from. */
  datatype PackageOutputs = PackageOutputs(
    file: FileId, rules: seq<Rule>, config: Config, version: (nat, nat), epoch: nat,
    producers: seq<Rule>, files: map<Path, nat>, trees: seq<TreeEntry>,
    // Where in the list an output declaration cannot be read, if anywhere.
    incomplete: Option<nat>)

  datatype RegisteredBuild = RegisteredBuild(file: FileId, rules: seq<Rule>, version: (nat, nat), epoch: nat)

  datatype AncestorTrees = AncestorTrees(trees: seq<OutputTree>, observed: bool)
  datatype Stamp = Stamp(index: Option<nat>, listEpoch: nat, outputsGeneration: nat)
  datatype ResolutionMemo = ResolutionMemo(stamp: Stamp, producers: map<Path, Option<Producer>>,
    trees: map<Path, AncestorTrees>)

  /** Counts every store, by package where a label parses from the key. */
  datatype Clock = Clock(epoch: nat, versions: map<Path, nat>)

  function VersionAt(c: Clock, dir: Path): (nat, nat) {
    (c.epoch, if dir in c.versions then c.versions[dir] else 0)
  }

  function Bump(c: Clock, key: Key): Clock {
    if key.name.valid then c.(versions := c.versions[key.dir := VersionAt(c, key.dir).1 + 1])
        else c.(epoch := c.epoch + 1)
  }

  predicate NoLater(a: (nat, nat), b: (nat, nat)) {
    a.0 <= b.0 && a.1 <= b.1
  }

  // ---- What one package's index answers ----

  predicate Outputs(dir: Path, r: Rule, file: Path) {
    exists o :: o in RuleOutputs(r).files && dir + o == file
  }

  function TreesOf(dir: Path, producers: seq<Rule>): seq<OutputTree> {
    if producers == [] then []
    else
      var tree := RuleOutputs(producers[0]).tree;
      (if tree.Some? then [OutputTree(dir + tree.value, Producer(producers[0], dir))] else [])
      + TreesOf(dir, producers[1..])
  }

  function TreesNamed(dir: Path, trees: seq<TreeEntry>, producers: seq<Rule>): seq<OutputTree>
    requires forall t :: t in trees ==> t.rule < |producers|
  {
    if trees == [] then []
    else [OutputTree(trees[0].root, Producer(producers[trees[0].rule], dir))] + TreesNamed(dir, trees[1..], producers)
  }

  /** Each file's first producer among those up to n, and every file any of them outputs. */
  ghost predicate FilesIndexed(dir: Path, producers: seq<Rule>, n: nat, files: map<Path, nat>)
    requires n <= |producers|
  {
    && (forall f :: f in files ==> files[f] < n && Outputs(dir, producers[files[f]], f))
    && (forall f, j :: f in files && 0 <= j < files[f] ==> !Outputs(dir, producers[j], f))
    && (forall f, j :: 0 <= j < n && Outputs(dir, producers[j], f) ==> f in files)
  }

  ghost predicate FirstIncomplete(producers: seq<Rule>, n: nat, incomplete: Option<nat>)
    requires n <= |producers|
  {
    match incomplete
    case None => forall j :: 0 <= j < n ==> !RuleOutputs(producers[j]).incomplete
    case Some(i) => i < n && RuleOutputs(producers[i]).incomplete && forall j :: 0 <= j < i ==>
        !RuleOutputs(producers[j]).incomplete
  }

  ghost predicate Indexes(dir: Path, po: PackageOutputs) {
    && |po.producers| == |po.rules|
    && OutputsIndexed(dir, po.producers, po.files, po.trees, po.incomplete)
  }

  ghost predicate OutputsIndexed(dir: Path, producers: seq<Rule>, files: map<Path, nat>, trees: seq<TreeEntry>,
                                 incomplete: Option<nat>)
  {
    var indexed := FilesIndexed(dir, producers, |producers|, files)
                   && (forall t :: t in trees ==> t.rule < |producers|)
                   && TreesNamed(dir, trees, producers) == TreesOf(dir, producers)
                   && FirstIncomplete(producers, |producers|, incomplete);
    indexed
  }

  /** The producers are the canonical stored rules of the listed names. */
  ghost predicate Produces(stored: map<Key, Rule>, dir: Path, config: Config, rules: seq<Rule>, producers: seq<Rule>) {
    && |producers| == |rules|
    && forall i :: 0 <= i < |rules| ==>
        Key(dir, rules[i].name) in stored && producers[i] == Canonical(config, stored[Key(dir, rules[i].name)])
  }

  ghost predicate AllStored(stored: map<Key, Rule>, dir: Path, rules: seq<Rule>) {
    forall r :: r in rules ==> Key(dir, r.name) in stored
  }

  lemma ProducedStored(stored: map<Key, Rule>, dir: Path, config: Config, rules: seq<Rule>, producers: seq<Rule>)
    requires Produces(stored, dir, config, rules, producers)
    ensures AllStored(stored, dir, rules)
  {
  }

  lemma {:induction false} ProducedTrees(v: View, dir: Path, rules: seq<Rule>, producers: seq<Rule>)
    requires Produces(v.rules, dir, ConfigOf(v, dir), rules, producers)
    ensures TreesInList(v, dir, rules) == TreesOf(dir, producers)
    decreases |rules|
  {
    if rules != [] {
      assert forall i :: 0 <= i < |rules[1..]| ==>
          rules[1..][i] == rules[i + 1] && producers[1..][i] == producers[i + 1];
      ProducedTrees(v, dir, rules[1..], producers[1..]);
    }
  }

  lemma {:induction false} ProducedFile(v: View, dir: Path, rules: seq<Rule>, producers: seq<Rule>, file: Path, k: nat,
                                        at: Option<nat>)
    requires Produces(v.rules, dir, ConfigOf(v, dir), rules, producers) && k <= |rules|
    requires match at
             case None => forall j :: 0 <= j < |rules| ==> !Outputs(dir, producers[j], file)
             case Some(i) => k <= i < |rules| && Outputs(dir, producers[i], file) && forall j :: 0 <= j < i ==>
                 !Outputs(dir, producers[j], file)
    ensures KnownInList(v, dir, rules[k..], file)
            == Some(match at case None => None case Some(i) => Some(Producer(producers[i], dir)))
    decreases |rules| - k
  {
    if k < |rules| {
      assert rules[k..][0] == rules[k] && rules[k..][1..] == rules[k + 1..];
      assert Outputs(dir, producers[k], file) <==> ListsFile(v, dir, rules[k].name, file);
      if at != Some(k) {
        ProducedFile(v, dir, rules, producers, file, k + 1, at);
      }
    }
  }

  /** An index of the current list and rules answers for the scan of its package. */
  lemma IndexAnswers(v: View, dir: Path, po: PackageOutputs, file: Path)
    requires Indexes(dir, po) && Produces(v.rules, dir, ConfigOf(v, dir), po.rules, po.producers)
    requires po.rules == ListAt(v, dir)
    ensures AllStored(v.rules, dir, ListAt(v, dir))
    ensures KnownInList(v, dir, ListAt(v, dir), file)
            == Some(if file in po.files then Some(Producer(po.producers[po.files[file]], dir)) else None)
    ensures (forall t :: t in po.trees ==> t.rule < |po.producers|)
    ensures TreesInList(v, dir, ListAt(v, dir)) == TreesNamed(dir, po.trees, po.producers)
  {
    ProducedTrees(v, dir, po.rules, po.producers);
    assert po.rules[0..] == po.rules;
    ProducedFile(v, dir, po.rules, po.producers, file, 0, if file in po.files then Some(po.files[file]) else None);
  }

  lemma {:induction false} TreesOfJoin(dir: Path, a: seq<Rule>, b: seq<Rule>)
    ensures TreesOf(dir, a + b) == TreesOf(dir, a) + TreesOf(dir, b)
    decreases |a|
  {
    if a == [] {
      assert a + b == b;
    } else {
      assert (a + b)[1..] == a[1..] + b;
      TreesOfJoin(dir, a[1..], b);
    }
  }

  /** Naming producers in a longer list names the same ones. */
  lemma {:induction false} TreesNamedLonger(dir: Path, trees: seq<TreeEntry>, producers: seq<Rule>, more: seq<Rule>)
    requires forall t :: t in trees ==> t.rule < |producers|
    ensures forall t :: t in trees ==> t.rule < |producers + more|
    ensures TreesNamed(dir, trees, producers + more) == TreesNamed(dir, trees, producers)
    decreases |trees|
  {
    if trees != [] {
      assert trees[0] in trees;
      TreesNamedLonger(dir, trees[1..], producers, more);
    }
  }

  lemma {:induction false} TreesNamedJoin(dir: Path, a: seq<TreeEntry>, b: seq<TreeEntry>, producers: seq<Rule>)
    requires forall t :: t in a + b ==> t.rule < |producers|
    requires forall t :: t in a || t in b ==> t.rule < |producers|
    ensures TreesNamed(dir, a + b, producers) == TreesNamed(dir, a, producers) + TreesNamed(dir, b, producers)
    decreases |a|
  {
    if a == [] {
      assert a + b == b;
    } else {
      assert a[0] in a + b && (a + b)[1..] == a[1..] + b;
      TreesNamedJoin(dir, a[1..], b, producers);
    }
  }

  /** Adds one producer's outputs, keeping each file's first. */
  method AddFiles(dir: Path, producers: seq<Rule>, r: Rule, files: map<Path, nat>) returns (files': map<Path, nat>)
    requires FilesIndexed(dir, producers, |producers|, files)
    ensures FilesIndexed(dir, producers + [r], |producers| + 1, files')
  {
    var outs, n := RuleOutputs(r).files, |producers|;
    files' := files;
    for i := 0 to |outs|
      invariant forall f :: f in files ==> f in files' && files'[f] == files[f]
      invariant forall f :: f in files' && f !in files ==> files'[f] == n && exists o :: o in outs && dir + o == f
      invariant forall k :: 0 <= k < i ==> dir + outs[k] in files'
    {
      var f := dir + outs[i];
      if f !in files' {
        assert outs[i] in outs;
        files' := files'[f := n];
      }
    }
    forall f, j | 0 <= j < n + 1 && Outputs(dir, (producers + [r])[j], f)
      ensures f in files'
    {
      if j == n {
        var o :| o in outs && dir + o == f;
        var k :| 0 <= k < |outs| && outs[k] == o;
        assert dir + outs[k] in files';
      }
    }
  }

  method AddTree(dir: Path, producers: seq<Rule>, r: Rule, trees: seq<TreeEntry>) returns (trees': seq<TreeEntry>)
    requires (forall t :: t in trees ==> t.rule < |producers|)
    requires TreesNamed(dir, trees, producers) == TreesOf(dir, producers)
    ensures forall t :: t in trees' ==> t.rule < |producers| + 1
    ensures TreesNamed(dir, trees', producers + [r]) == TreesOf(dir, producers + [r])
  {
    var tree := RuleOutputs(r).tree;
    TreesNamedLonger(dir, trees, producers, [r]);
    TreesOfJoin(dir, producers, [r]);
    assert [r][1..] == [];
    if tree.Some? {
      var entry := TreeEntry(dir + tree.value, |producers|);
      trees' := trees + [entry];
      TreesNamedJoin(dir, trees, [entry], producers + [r]);
      assert [entry][1..] == [];
    } else {
      trees' := trees;
    }
  }

  /** One more producer, in the files, trees and first incomplete rule. */
  method AddProducer(dir: Path, producers: seq<Rule>, r: Rule, files: map<Path, nat>, trees: seq<TreeEntry>,
                     incomplete: Option<nat>)
    returns (files': map<Path, nat>, trees': seq<TreeEntry>, incomplete': Option<nat>)
    requires OutputsIndexed(dir, producers, files, trees, incomplete)
    ensures OutputsIndexed(dir, producers + [r], files', trees', incomplete')
  {
    files' := AddFiles(dir, producers, r, files);
    trees' := AddTree(dir, producers, r, trees);
    incomplete' := if incomplete.None? && RuleOutputs(r).incomplete then Some(|producers|) else incomplete;
  }

  /** The package's index over its stored rules; none as soon as a listed rule is not stored. */
  method BuildOutputs(stored: map<Key, Rule>, dir: Path, f: FileId, list: seq<Rule>, config: Config,
                      version: (nat, nat), epoch: nat)
    returns (r: Option<PackageOutputs>)
    ensures r.None? <==> !AllStored(stored, dir, list)
    ensures r.Some? ==> Indexes(dir, r.value) && Produces(stored, dir, config, list, r.value.producers)
    ensures r.Some? ==>
      r.value.file == f && r.value.rules == list && r.value.config == config && r.value.version == version
      && r.value.epoch == epoch
  {
    var producers: seq<Rule>, files: map<Path, nat>, trees: seq<TreeEntry>, incomplete: Option<nat> := [], map[], [],
          None;
    for i := 0 to |list|
      invariant Produces(stored, dir, config, list[..i], producers)
      invariant OutputsIndexed(dir, producers, files, trees, incomplete)
    {
      var key := Key(dir, list[i].name);
      if key !in stored {
        return None;
      }
      var r := Canonical(config, stored[key]);
      files, trees, incomplete := AddProducer(dir, producers, r, files, trees, incomplete);
      assert list[..i + 1] == list[..i] + [list[i]];
      producers := producers + [r];
    }
    assert list[..|list|] == list;
    ProducedStored(stored, dir, config, list, producers);
    return Some(PackageOutputs(f, list, config, version, epoch, producers, files, trees, incomplete));
  }

  // ---- Output declarations that cannot be read ----

  /** The first listed rule, among those stored, whose outputs are not all literal. */
  function IncompleteInList(v: View, dir: Path, list: seq<Rule>): Option<Producer> {
    if list == [] then None
    else
      var stored := Stored(v, Key(dir, list[0].name));
      if stored.Some? && RuleOutputs(Canonical(ConfigOf(v, dir), stored.value)).incomplete
        then Some(Producer(Canonical(ConfigOf(v, dir), stored.value), dir))
      else IncompleteInList(v, dir, list[1..])
  }

  /** The nearest package's answer; a package's outputs never cross into another package. */
  function ScanIncomplete(v: View, dir: Path): Option<Producer>
    decreases |dir|
  {
    if dir in v.files then IncompleteInList(v, dir, ListAt(v, dir)) else if dir == [] then None
        else ScanIncomplete(v, Parent(dir))
  }

  /** A package index names the incomplete rule the scan of its list finds. */
  lemma {:induction false} IndexedIncomplete(v: View, dir: Path, rules: seq<Rule>, producers: seq<Rule>, k: nat,
                                             at: Option<nat>)
    requires Produces(v.rules, dir, ConfigOf(v, dir), rules, producers) && k <= |rules|
    requires FirstIncomplete(producers, |producers|, at)
    requires at.Some? ==> k <= at.value
    ensures IncompleteInList(v, dir, rules[k..])
            == match at case None => None case Some(i) => Some(Producer(producers[i], dir))
    decreases |rules| - k
  {
    if k < |rules| {
      assert rules[k..][0] == rules[k] && rules[k..][1..] == rules[k + 1..];
      assert producers[k] == Canonical(ConfigOf(v, dir), v.rules[Key(dir, rules[k].name)]);
      if at != Some(k) {
        IndexedIncomplete(v, dir, rules, producers, k + 1, at);
      }
    }
  }
}
