/** Stores and deletions that move no generation: which answers they can change, and which they never do. */
module Deletions {
  import opened Wrappers
  import opened Ownership

  // ---- Stores that move no generation ----

  function Deleting(v: View, key: Key): View {
    v.(rules := v.rules - {key})
  }

  /** From v to w, only rules that declare nothing were stored, and only where nothing that declares stood. */
  ghost predicate QuietlyLater(v: View, w: View) {
    && w.files == v.files && w.lists == v.lists && w.configs == v.configs
    && forall k :: Stored(w, k) == Stored(v, k)
                   || (!DeclaresOutputs(Stored(v, k)) && Stored(w, k).Some? && !DeclaresOutputs(Stored(w, k)))
  }

  lemma QuietlyOn(v: View, w: View, x: View)
    requires QuietlyLater(v, w) && QuietlyLater(w, x)
    ensures QuietlyLater(v, x)
  {
    forall k
      ensures Stored(x, k) == Stored(v, k)
              || (!DeclaresOutputs(Stored(v, k)) && Stored(x, k).Some? && !DeclaresOutputs(Stored(x, k)))
    {
      assert Stored(w, k) == Stored(v, k) || !DeclaresOutputs(Stored(v, k));
    }
  }

  lemma QuietStoreIsLater(v: View, key: Key, r: Rule)
    requires !DeclaresOutputs(Stored(v, key)) && !DeclaresOutputs(Some(r))
    ensures QuietlyLater(v, v.(rules := v.rules[key := r]))
  {
  }

  /** The rule at this key declares nothing, so that deleting it moves no generation. */
  predicate Silent(v: View, key: Key) {
    key in v.rules && !DeclaresOutputs(Some(v.rules[key]))
  }

  /** Every stored rule carries its key's name. */
  ghost predicate Named(v: View) {
    forall k :: k in v.rules ==> v.rules[k].name == k.name
  }

  lemma {:induction false} KnownListStays(v: View, w: View, dir: Path, list: seq<Rule>, file: Path)
    requires QuietlyLater(v, w)
    ensures KnownInList(v, dir, list, file).Some? ==> KnownInList(w, dir, list, file) == KnownInList(v, dir, list, file)
    decreases |list|
  {
    if list != [] {
      var k := Key(dir, list[0].name);
      assert k in v.rules <==> Stored(v, k).Some?;
      assert k in w.rules <==> Stored(w, k).Some?;
      KnownListStays(v, w, dir, list[1..], file);
    }
  }

  /** An answer from stored rules outlives every quiet store. */
  lemma {:induction false} KnownStays(v: View, w: View, dir: Path, file: Path)
    requires QuietlyLater(v, w)
    ensures KnownFile(v, dir, file).Some? ==> KnownFile(w, dir, file) == KnownFile(v, dir, file)
    decreases |dir|
  {
    KnownListStays(v, w, dir, ListAt(v, dir), file);
    if dir != [] {
      KnownStays(v, w, Parent(dir), file);
    }
  }

  // ---- What a deletion brings back ----

  /** What the list's rule of the deleted name outputs, which observing the package would store again. */
  function Relisted(v: View, key: Key): Declared {
    OutputsOf(v, key.dir, FirstListed(ListAt(v, key.dir), key.name))
  }

  predicate RelistsFile(v: View, key: Key, file: Path) {
    exists o :: o in Relisted(v, key).files && key.dir + o == file
  }

  lemma DeletedEffect(v: View, key: Key, dir: Path, name: Name)
    requires Silent(v, key)
    ensures Key(dir, name) != key ==> Effective(Deleting(v, key), dir, name) == Effective(v, dir, name)
    ensures Key(dir, name) == key ==> Effective(Deleting(v, key), dir, name) == FirstListed(ListAt(v, dir), name)
    ensures Key(dir, name) == key ==> OutputsOf(v, dir, Effective(v, dir, name)) == Declared([], None, false)
  {
  }

  /** Leaving a path's ancestors. */
  lemma ParentAbove(above: Path, dir: Path)
    requires above <= dir && above != dir
    ensures dir != [] && above <= Parent(dir)
  {
    assert dir[..|above|] == above;
    assert Parent(dir)[..|above|] == above;
  }

  // ---- Files ----

  /** The list's answer short of the first rule of this name. */
  function FileBefore(v: View, dir: Path, list: seq<Rule>, file: Path, name: Name): Option<Producer> {
    if list == [] || list[0].name == name then None
    else
      var r := Effective(v, dir, list[0].name);
      if r.Some? && ListsFile(v, dir, list[0].name, file) then Some(Producer(Canonical(ConfigOf(v, dir), r.value), dir))
      else FileBefore(v, dir, list[1..], file, name)
  }

  /** The scan's answer, from dir up, before it comes to the key's first listed place. */
  function ScanFileBefore(v: View, dir: Path, file: Path, key: Key): Option<Producer>
    requires key.dir <= dir
    decreases |dir|
  {
    if dir == key.dir then FileBefore(v, dir, ListAt(v, dir), file, key.name)
    else
      ParentAbove(key.dir, dir);
      var here := FileInList(v, dir, ListAt(v, dir), file);
      if here.Some? then here else ScanFileBefore(v, Parent(dir), file, key)
  }

  /** Either the relisted rule has no answer for the file, or something scanned earlier gives one. */
  predicate FileShadowed(v: View, key: Key, dir: Path, file: Path) {
    key.dir <= dir && RelistsFile(v, key, file) ==> ScanFileBefore(v, dir, file, key).Some?
  }

  /** Elsewhere a deletion changes no answer. */
  lemma {:induction false} ListElsewhere(v: View, key: Key, dir: Path, list: seq<Rule>, file: Path)
    requires Silent(v, key) && dir != key.dir
    ensures FileInList(Deleting(v, key), dir, list, file) == FileInList(v, dir, list, file)
    ensures TreesInList(Deleting(v, key), dir, list) == TreesInList(v, dir, list)
    decreases |list|
  {
    if list != [] {
      DeletedEffect(v, key, dir, list[0].name);
      ListElsewhere(v, key, dir, list[1..], file);
    }
  }

  lemma {:induction false} ScanElsewhere(v: View, key: Key, dir: Path, file: Path)
    requires Silent(v, key) && !(key.dir <= dir)
    ensures ScanFile(Deleting(v, key), dir, file) == ScanFile(v, dir, file)
    ensures ScanTrees(Deleting(v, key), dir) == ScanTrees(v, dir)
    decreases |dir|
  {
    ListElsewhere(v, key, dir, ListAt(v, dir), file);
    if dir != [] {
      ScanElsewhere(v, key, Parent(dir), file);
    }
  }

  lemma {:induction false} FirstListedNamed(list: seq<Rule>, name: Name)
    ensures match FirstListed(list, name)
            case None => forall r :: r in list ==> r.name != name
            case Some(r) => r in list && r.name == name
  {
    if list != [] {
      assert list == [list[0]] + list[1..];
      FirstListedNamed(list[1..], name);
    }
  }

  /** In the key's own list, the relisted rule answers exactly for what it lists and nothing before it does. */
  lemma {:induction false} OwnListDeleted(v: View, key: Key, list: seq<Rule>, file: Path)
    requires Silent(v, key)
    ensures var after, before := FileInList(Deleting(v, key), key.dir, list, file),
                                 FileBefore(v, key.dir, list, file, key.name);
            if before.Some? || !RelistsFile(v, key, file) then after == FileInList(v, key.dir, list, file)
            else (exists r :: r in list && r.name == key.name) ==>
              FirstListed(ListAt(v, key.dir), key.name).Some? && after ==
              Some(Producer(Canonical(ConfigOf(v, key.dir), FirstListed(ListAt(v, key.dir), key.name).value), key.dir))
    decreases |list|
  {
    if list != [] {
      assert list == [list[0]] + list[1..];
      DeletedEffect(v, key, key.dir, list[0].name);
      OwnListDeleted(v, key, list[1..], file);
    }
  }

  /** What a scan answers is a rule of the name that was scanned, and never the silent one. */
  lemma {:induction false} ListAnswerNamed(v: View, key: Key, dir: Path, list: seq<Rule>, file: Path)
    requires Silent(v, key) && Named(v)
    ensures var r := FileInList(v, dir, list, file);
            r.Some? ==> r.value.pkg == dir && Key(dir, r.value.rule.name) != key
    decreases |list|
  {
    if list != [] {
      FirstListedNamed(ListAt(v, dir), list[0].name);
      DeletedEffect(v, key, dir, list[0].name);
      ListAnswerNamed(v, key, dir, list[1..], file);
    }
  }

  lemma {:induction false} AnswerNamed(v: View, key: Key, dir: Path, file: Path)
    requires Silent(v, key) && Named(v)
    ensures var r := ScanFile(v, dir, file); r.Some? ==> Key(r.value.pkg, r.value.rule.name) != key
    decreases |dir|
  {
    ListAnswerNamed(v, key, dir, ListAt(v, dir), file);
    if dir != [] {
      AnswerNamed(v, key, Parent(dir), file);
    }
  }

  lemma {:induction false} BeforeIsFirst(v: View, dir: Path, list: seq<Rule>, file: Path, name: Name)
    ensures FileBefore(v, dir, list, file, name).Some? ==>
      FileInList(v, dir, list, file) == FileBefore(v, dir, list, file, name)
    decreases |list|
  {
    if list != [] {
      BeforeIsFirst(v, dir, list[1..], file, name);
    }
  }

  /** A scan keeps its answer exactly when the relisted rule does not answer for the file. */
  lemma {:induction false} DeletionKeepsFile(v: View, key: Key, dir: Path, file: Path)
    requires Silent(v, key) && Named(v)
    ensures ScanFile(Deleting(v, key), dir, file) == ScanFile(v, dir, file) <==> FileShadowed(v, key, dir, file)
    decreases |dir|
  {
    if !(key.dir <= dir) {
      ScanElsewhere(v, key, dir, file);
    } else if dir == key.dir {
      OwnListDeleted(v, key, ListAt(v, dir), file);
      FirstListedNamed(ListAt(v, dir), key.name);
      BeforeIsFirst(v, dir, ListAt(v, dir), file, key.name);
      AnswerNamed(v, key, dir, file);
      if dir != [] {
        ScanElsewhere(v, key, Parent(dir), file);
      }
    } else {
      ParentAbove(key.dir, dir);
      ListElsewhere(v, key, dir, ListAt(v, dir), file);
      DeletionKeepsFile(v, key, Parent(dir), file);
    }
  }

  /** Whatever the relisted rule would answer for, something scanned before its place already answers. */
  predicate FilesShadowed(v: View, key: Key) {
    forall o | o in Relisted(v, key).files :: FileShadowed(v, key, Parent(key.dir + o), key.dir + o)
  }

  /** Deleting a silent rule changes no file's producer exactly when all the relisted rule lists is shadowed. */
  lemma DeletionKeepsFiles(v: View, key: Key)
    requires Silent(v, key) && Named(v)
    ensures (forall file :: ScanFile(Deleting(v, key), Parent(file), file) == ScanFile(v, Parent(file), file))
            <==> FilesShadowed(v, key)
  {
    forall file
      ensures ScanFile(Deleting(v, key), Parent(file), file) == ScanFile(v, Parent(file), file)
              <==> FileShadowed(v, key, Parent(file), file)
    {
      DeletionKeepsFile(v, key, Parent(file), file);
    }
    if FilesShadowed(v, key) {
      forall file
        ensures FileShadowed(v, key, Parent(file), file)
      {
        if o :| o in Relisted(v, key).files && key.dir + o == file {
          assert FileShadowed(v, key, Parent(key.dir + o), key.dir + o);
        }
      }
    } else {
      var o :| o in Relisted(v, key).files && !FileShadowed(v, key, Parent(key.dir + o), key.dir + o);
      assert !FileShadowed(v, key, Parent(key.dir + o), key.dir + o);
    }
  }

  /** A known answer is not only the scan's after such a deletion: it still rests on stored rules. */
  lemma {:induction false} KnownListKept(v: View, key: Key, list: seq<Rule>, file: Path)
    requires Silent(v, key) && (RelistsFile(v, key, file) ==> FileBefore(v, key.dir, list, file, key.name).Some?)
    ensures KnownInList(v, key.dir, list, file).Some? ==>
      KnownInList(Deleting(v, key), key.dir, list, file) == KnownInList(v, key.dir, list, file)
    decreases |list|
  {
    if list != [] {
      DeletedEffect(v, key, key.dir, list[0].name);
      if !(Effective(v, key.dir, list[0].name).Some? && ListsFile(v, key.dir, list[0].name, file)) {
        KnownListKept(v, key, list[1..], file);
      }
    }
  }

  lemma {:induction false} KnownElsewhere(v: View, key: Key, dir: Path, list: seq<Rule>, file: Path)
    requires Silent(v, key) && dir != key.dir
    ensures KnownInList(Deleting(v, key), dir, list, file) == KnownInList(v, dir, list, file)
    decreases |list|
  {
    if list != [] {
      DeletedEffect(v, key, dir, list[0].name);
      KnownElsewhere(v, key, dir, list[1..], file);
    }
  }

  lemma {:induction false} KnownKept(v: View, key: Key, dir: Path, file: Path)
    requires Silent(v, key) && FileShadowed(v, key, dir, file)
    ensures KnownFile(v, dir, file).Some? ==> KnownFile(Deleting(v, key), dir, file) == KnownFile(v, dir, file)
    decreases |dir|
  {
    KnownListIsScanned(v, dir, ListAt(v, dir), file);
    if dir == key.dir {
      KnownListKept(v, key, ListAt(v, dir), file);
      if dir != [] {
        KnownKept(v, key, Parent(dir), file);
      }
    } else {
      KnownElsewhere(v, key, dir, ListAt(v, dir), file);
      if dir != [] {
        if key.dir <= dir {
          ParentAbove(key.dir, dir);
        } else {
            }
        if FileInList(v, dir, ListAt(v, dir), file).None? {
          KnownKept(v, key, Parent(dir), file);
        }
      }
    }
  }

  // ---- Output trees ----

  /** Where a tree of the relisted rule would begin, and the innermost package whose scans all come past it. */
  function TreeRoot(v: View, key: Key): Path
    requires Relisted(v, key).tree.Some?
  {
    key.dir + Relisted(v, key).tree.value
  }

  function TreeStart(v: View, key: Key): (start: Path)
    requires Relisted(v, key).tree.Some?
    ensures key.dir <= start
  {
    if Relisted(v, key).tree.value == [] then key.dir
    else
      ParentAbove(key.dir, TreeRoot(v, key));
      Parent(TreeRoot(v, key))
  }

  /** The trees of a list short of the first rule of this name, and from it on. */
  function TreesBefore(v: View, dir: Path, list: seq<Rule>, name: Name): seq<OutputTree> {
    if list == [] || list[0].name == name then []
    else TreesInList(v, dir, [list[0]]) + TreesBefore(v, dir, list[1..], name)
  }

  function TreesFrom(v: View, dir: Path, list: seq<Rule>, name: Name): seq<OutputTree> {
    if list == [] then []
    else if list[0].name == name then TreesInList(v, dir, list) else TreesFrom(v, dir, list[1..], name)
  }

  /** The listed rules whose own name is stored. */
  function StoredOnly(v: View, dir: Path, list: seq<Rule>): seq<Rule> {
    if list == [] then []
    else (if Key(dir, list[0].name) in v.rules then [list[0]] else []) + StoredOnly(v, dir, list[1..])
  }

  function ListFor(v: View, dir: Path, held: bool): seq<Rule> {
    if held then StoredOnly(v, dir, ListAt(v, dir)) else ListAt(v, dir)
  }

  /** The trees a scan from dir finds before it comes to the key's first listed place; held ones are stored rules'. */
  function PathTrees(v: View, dir: Path, key: Key, held: bool): seq<OutputTree>
    requires key.dir <= dir
    decreases |dir|
  {
    if dir == key.dir then TreesBefore(v, dir, ListFor(v, dir, held), key.name)
    else
      ParentAbove(key.dir, dir);
      TreesInList(v, dir, ListFor(v, dir, held)) + PathTrees(v, Parent(dir), key, held)
  }

  /** Some tree of the same root is found before the relisted one. */
  ghost predicate TreeShadowed(v: View, key: Key, held: bool) {
    Relisted(v, key).tree.Some? ==>
      exists t :: t in PathTrees(v, TreeStart(v, key), key, held) && t.root == TreeRoot(v, key)
  }

  lemma TreesHead(v: View, dir: Path, list: seq<Rule>)
    requires list != []
    ensures TreesInList(v, dir, list) == TreesInList(v, dir, [list[0]]) + TreesInList(v, dir, list[1..])
    ensures |TreesInList(v, dir, [list[0]])| <= 1
  {
    assert [list[0]][1..] == [];
  }

  lemma {:induction false} TreesJoin(v: View, dir: Path, list: seq<Rule>, name: Name)
    ensures TreesInList(v, dir, list) == TreesBefore(v, dir, list, name) + TreesFrom(v, dir, list, name)
    decreases |list|
  {
    if list != [] && list[0].name != name {
      TreesHead(v, dir, list);
      TreesJoin(v, dir, list[1..], name);
    }
  }

  function Above(v: View, key: Key): seq<OutputTree> {
    if key.dir == [] then [] else ScanTrees(v, Parent(key.dir))
  }

  lemma JoinLeft(a: seq<OutputTree>, b: seq<OutputTree>, c: seq<OutputTree>, d: seq<OutputTree>)
    ensures a + (b + c + d) == a + b + c + d
  {
  }

  /** A scan that comes past the key's place, cut there. */
  lemma {:induction false} ScanCut(v: View, key: Key, dir: Path)
    requires key.dir <= dir
    ensures ScanTrees(v, dir)
            == PathTrees(v, dir, key, false) + TreesFrom(v, key.dir, ListAt(v, key.dir), key.name) + Above(v, key)
    decreases |dir|
  {
    if dir == key.dir {
      TreesJoin(v, dir, ListAt(v, dir), key.name);
    } else {
      ParentAbove(key.dir, dir);
      ScanCut(v, key, Parent(dir));
      JoinLeft(TreesInList(v, dir, ListAt(v, dir)), PathTrees(v, Parent(dir), key, false),
               TreesFrom(v, key.dir, ListAt(v, key.dir), key.name), Above(v, key));
    }
  }

  // ---- A tree that the best so far already beats ----

  /** The relisted tree does not enclose the file, or something at least as long is already kept. */
  predicate Inert(v: View, key: Key, file: Path, best: Option<OutputTree>) {
    Relisted(v, key).tree.Some? && TreeRoot(v, key) <= file ==> best.Some? && |TreeRoot(v, key)| <= |best.value.root|
  }

  lemma OneTree(t: OutputTree, file: Path, best: Option<OutputTree>)
    ensures LongestTree([t], file, best)
            == if t.root <= file && (best.None? || |t.root| > |best.value.root|) then Some(t) else best
  {
    assert [t][1..] == [];
  }

  /** What the deleted key's own name then stands for adds at most the relisted tree. */
  lemma DeletedTrees(v: View, key: Key, dir: Path, r: Rule)
    requires Silent(v, key)
    ensures Key(dir, r.name) != key ==> TreesInList(Deleting(v, key), dir, [r]) == TreesInList(v, dir, [r])
    ensures Key(dir, r.name) == key ==> TreesInList(v, dir, [r]) == []
    ensures Key(dir, r.name) == key && Relisted(v, key).tree.None? ==> TreesInList(Deleting(v, key), dir, [r]) == []
    ensures Key(dir, r.name) == key && Relisted(v, key).tree.Some? ==>
      TreesInList(Deleting(v, key), dir, [r]) == [RelistedTree(v, key)]
  {
    DeletedEffect(v, key, dir, r.name);
    assert [r][1..] == [];
  }

  function RelistedTree(v: View, key: Key): OutputTree
    requires Relisted(v, key).tree.Some?
  {
    OutputTree(TreeRoot(v, key),
               Producer(Canonical(ConfigOf(v, key.dir), FirstListed(ListAt(v, key.dir), key.name).value), key.dir))
  }

  lemma {:induction false} InertList(v: View, key: Key, list: seq<Rule>, file: Path, best: Option<OutputTree>)
    requires Silent(v, key) && Inert(v, key, file, best)
    ensures LongestTree(TreesInList(Deleting(v, key), key.dir, list), file, best)
            == LongestTree(TreesInList(v, key.dir, list), file, best)
    decreases |list|
  {
    if list != [] {
      var v', dir := Deleting(v, key), key.dir;
      var one, one' := TreesInList(v, dir, [list[0]]), TreesInList(v', dir, [list[0]]);
      DeletedTrees(v, key, dir, list[0]);
      TreesHead(v, dir, list);
      TreesHead(v', dir, list);
      LongestTreeJoin(one, TreesInList(v, dir, list[1..]), file, best);
      LongestTreeJoin(one', TreesInList(v', dir, list[1..]), file, best);
      if one != [] {
        assert one == [one[0]];
        OneTree(one[0], file, best);
      }
      if one' != [] {
        assert one' == [one'[0]];
        OneTree(one'[0], file, best);
      }
      assert LongestTree(one', file, best) == LongestTree(one, file, best);
      InertList(v, key, list[1..], file, LongestTree(one, file, best));
    }
  }

  lemma {:induction false} FromIsRest(v: View, dir: Path, list: seq<Rule>, name: Name) returns (rest: seq<Rule>)
    ensures forall w: View :: TreesFrom(w, dir, list, name) == TreesInList(w, dir, rest)
    ensures (forall r :: r in rest ==> r in list) && (rest != [] ==> rest[0].name == name)
    ensures rest == [] ==> forall r :: r in list ==> r.name != name
    decreases |list|
  {
    if list == [] || list[0].name == name {
      rest := list;
    } else {
      assert list == [list[0]] + list[1..];
      rest := FromIsRest(v, dir, list[1..], name);
    }
  }

  lemma {:induction false} BeforeKept(v: View, key: Key, list: seq<Rule>)
    requires Silent(v, key)
    ensures TreesBefore(Deleting(v, key), key.dir, list, key.name) == TreesBefore(v, key.dir, list, key.name)
    decreases |list|
  {
    if list != [] && list[0].name != key.name {
      DeletedTrees(v, key, key.dir, list[0]);
      BeforeKept(v, key, list[1..]);
    }
  }

  lemma {:induction false} PathKept(v: View, key: Key, dir: Path)
    requires Silent(v, key) && key.dir <= dir
    ensures PathTrees(Deleting(v, key), dir, key, false) == PathTrees(v, dir, key, false)
    decreases |dir|
  {
    if dir == key.dir {
      BeforeKept(v, key, ListAt(v, dir));
    } else {
      ParentAbove(key.dir, dir);
      ListElsewhere(v, key, dir, ListAt(v, dir), []);
      PathKept(v, key, Parent(dir));
    }
  }

  /** Past a tree at least as long, the relisted one changes nothing, whatever is scanned after it. */
  lemma BeatenOnPath(v: View, key: Key, dir: Path, file: Path, after: seq<OutputTree>)
    requires Silent(v, key) && key.dir <= dir
             && Inert(v, key, file, LongestTree(PathTrees(v, dir, key, false), file, None))
    ensures var v', list := Deleting(v, key), ListAt(v, key.dir);
            LongestTree(PathTrees(v', dir, key, false) + TreesFrom(v', key.dir, list, key.name) + after, file, None) ==
            LongestTree(PathTrees(v, dir, key, false) + TreesFrom(v, key.dir, list, key.name) + after, file, None)
  {
    var v', list, path := Deleting(v, key), ListAt(v, key.dir), PathTrees(v, dir, key, false);
    PathKept(v, key, dir);
    var rest := FromIsRest(v, key.dir, list, key.name);
    var best := LongestTree(path, file, None);
    InertList(v, key, rest, file, best);
    LongestTreeJoin(path, TreesInList(v, key.dir, rest), file, None);
    LongestTreeJoin(path, TreesInList(v', key.dir, rest), file, None);
    LongestTreeJoin(path + TreesInList(v, key.dir, rest), after, file, None);
    LongestTreeJoin(path + TreesInList(v', key.dir, rest), after, file, None);
  }

  /** A tree of the list bounds what is kept. */
  lemma LongestAtLeast(trees: seq<OutputTree>, file: Path, t: OutputTree)
    requires t in trees && t.root <= file
    ensures var r := LongestTree(trees, file, None); r.Some? && |t.root| <= |r.value.root|
  {
    LongestTreeWins(trees, file);
    var k :| 0 <= k < |trees| && trees[k] == t;
    var r := LongestTree(trees, file, None).value;
    var i :| 0 <= i < |trees| && trees[i] == r && r.root <= file && FirstLongestAt(trees, file, i);
  }

  lemma {:induction false} PathGrows(v: View, dir: Path, key: Key, inner: Path, t: OutputTree, held: bool)
    requires key.dir <= dir <= inner && t in PathTrees(v, dir, key, held)
    ensures t in PathTrees(v, inner, key, held)
    decreases |inner|
  {
    if inner != dir {
      ParentAbove(dir, inner);
      PathGrows(v, dir, key, Parent(inner), t, held);
    }
  }

  /** A shadowed tree is beaten for every file it encloses. */
  lemma ShadowedIsInert(v: View, key: Key, file: Path)
    requires TreeShadowed(v, key, false) && key.dir <= Parent(file)
    ensures Inert(v, key, file, LongestTree(PathTrees(v, Parent(file), key, false), file, None))
  {
    if Relisted(v, key).tree.Some? && TreeRoot(v, key) <= file {
      var root, start := TreeRoot(v, key), TreeStart(v, key);
      assert start <= Parent(file) by {
        if start != key.dir {
          assert root != [];
          assert file[..|root|] == root;
          assert Parent(file)[..|root| - 1] == root[..|root| - 1];
        }
      }
      var t :| t in PathTrees(v, start, key, false) && t.root == root;
      PathGrows(v, start, key, Parent(file), t, false);
      LongestAtLeast(PathTrees(v, Parent(file), key, false), file, t);
    }
  }

  lemma ShadowedKeepsTree(v: View, key: Key, file: Path)
    requires Silent(v, key) && TreeShadowed(v, key, false)
    ensures ScanTree(Deleting(v, key), file) == ScanTree(v, file)
  {
    var v', dir := Deleting(v, key), Parent(file);
    if key.dir <= dir {
      ShadowedIsInert(v, key, file);
      BeatenOnPath(v, key, dir, file, Above(v, key));
      ScanCut(v, key, dir);
      ScanCut(v', key, dir);
      if key.dir != [] {
        ScanElsewhere(v, key, Parent(key.dir), file);
      }
    } else {
      ScanElsewhere(v, key, dir, file);
    }
  }

  // ---- A tree that nothing shadows ----

  /** Every tree the list has after the deletion it had before, but for the relisted one. */
  lemma {:induction false} DeletedListTrees(v: View, key: Key, list: seq<Rule>, t: OutputTree)
    requires Silent(v, key) && t in TreesInList(Deleting(v, key), key.dir, list)
    ensures t in TreesInList(v, key.dir, list) || (Relisted(v, key).tree.Some? && t == RelistedTree(v, key))
    decreases |list|
  {
    if list != [] {
      DeletedTrees(v, key, key.dir, list[0]);
      TreesHead(v, key.dir, list);
      TreesHead(Deleting(v, key), key.dir, list);
      if t in TreesInList(Deleting(v, key), key.dir, list[1..]) {
        DeletedListTrees(v, key, list[1..], t);
      }
    }
  }

  /** No tree a scan finds is the silent rule's. */
  lemma {:induction false} ListTreeNamed(v: View, key: Key, dir: Path, list: seq<Rule>, t: OutputTree)
    requires Silent(v, key) && Named(v) && t in TreesInList(v, dir, list)
    ensures t.producer.pkg == dir && Key(dir, t.producer.rule.name) != key
    decreases |list|
  {
    if list != [] {
      FirstListedNamed(ListAt(v, dir), list[0].name);
      DeletedEffect(v, key, dir, list[0].name);
      TreesHead(v, dir, list);
      if t in TreesInList(v, dir, [list[0]]) {
        assert [list[0]][1..] == [];
      } else {
        ListTreeNamed(v, key, dir, list[1..], t);
      }
    }
  }

  lemma {:induction false} ScanTreeNamed(v: View, key: Key, dir: Path, t: OutputTree)
    requires Silent(v, key) && Named(v) && t in ScanTrees(v, dir)
    ensures Key(t.producer.pkg, t.producer.rule.name) != key
    decreases |dir|
  {
    if t in TreesInList(v, dir, ListAt(v, dir)) {
      ListTreeNamed(v, key, dir, ListAt(v, dir), t);
    } else {
      ScanTreeNamed(v, key, Parent(dir), t);
    }
  }

  /** A best tree that nothing later exceeds stays. */
  lemma NoneLonger(trees: seq<OutputTree>, file: Path, best: OutputTree)
    requires best.root <= file && forall t :: t in trees && t.root <= file ==> |t.root| <= |best.root|
    ensures LongestTree(trees, file, Some(best)) == Some(best)
  {
    LongestTreeFrom(trees, file, best);
  }

  /** From the key's place on, its list gains the relisted tree. */
  lemma RelistedInList(v: View, key: Key) returns (later: seq<OutputTree>)
    requires Silent(v, key) && Relisted(v, key).tree.Some?
    ensures TreesFrom(Deleting(v, key), key.dir, ListAt(v, key.dir), key.name) == [RelistedTree(v, key)] + later
    ensures forall t :: t in later ==>
              t in TreesFrom(v, key.dir, ListAt(v, key.dir), key.name) || t == RelistedTree(v, key)
  {
    var v' := Deleting(v, key);
    var rest := FromIsRest(v, key.dir, ListAt(v, key.dir), key.name);
    FirstListedNamed(ListAt(v, key.dir), key.name);
    DeletedTrees(v, key, key.dir, rest[0]);
    TreesHead(v', key.dir, rest);
    TreesHead(v, key.dir, rest);
    later := TreesInList(v', key.dir, rest[1..]);
    forall t | t in later
      ensures t in TreesInList(v, key.dir, rest) || t == RelistedTree(v, key)
    {
      DeletedListTrees(v, key, rest[1..], t);
    }
  }

  lemma JoinFour(a: seq<OutputTree>, b: seq<OutputTree>, c: seq<OutputTree>, d: seq<OutputTree>)
    ensures a + (b + c) + d == a + (b + (c + d))
  {
  }

  /** A scan after the deletion: what was before the key's place, the relisted tree, and nothing new after it. */
  lemma RelistedInScan(v: View, key: Key, dir: Path) returns (later: seq<OutputTree>)
    requires Silent(v, key) && Relisted(v, key).tree.Some? && key.dir <= dir
    ensures ScanTrees(Deleting(v, key), dir) == PathTrees(v, dir, key, false) + ([RelistedTree(v, key)] + later)
    ensures forall t :: t in later ==> t in ScanTrees(v, dir) || t == RelistedTree(v, key)
  {
    var inList := RelistedInList(v, key);
    later := inList + Above(v, key);
    ScanAfter(v, key, dir);
    JoinFour(PathTrees(v, dir, key, false), [RelistedTree(v, key)], inList, Above(v, key));
    ScanCut(v, key, dir);
  }

  lemma ScanAfter(v: View, key: Key, dir: Path)
    requires Silent(v, key) && key.dir <= dir
    ensures ScanTrees(Deleting(v, key), dir) ==
            PathTrees(v, dir, key, false) + TreesFrom(Deleting(v, key), key.dir, ListAt(v, key.dir), key.name)
            + Above(v, key)
  {
    ScanCut(Deleting(v, key), key, dir);
    PathKept(v, key, dir);
    if key.dir != [] {
      ScanElsewhere(v, key, Parent(key.dir), []);
    }
  }

  /** A relisted tree that nothing beats becomes the scan's answer. */
  lemma UnbeatenWins(v: View, key: Key, file: Path)
    requires Silent(v, key) && Relisted(v, key).tree.Some? && TreeRoot(v, key) <= file && key.dir <= Parent(file)
    requires forall t :: t in ScanTrees(v, Parent(file)) && t.root <= file ==> |t.root| <= |TreeRoot(v, key)|
    requires forall t :: t in PathTrees(v, Parent(file), key, false) && t.root <= file ==> |t.root| < |TreeRoot(v, key)|
    ensures ScanTree(Deleting(v, key), file) == Some(RelistedTree(v, key))
  {
    var dir, x := Parent(file), RelistedTree(v, key);
    var path := PathTrees(v, dir, key, false);
    var later := RelistedInScan(v, key, dir);
    LongestTreeJoin(path, [x] + later, file, None);
    LongestTreeJoin([x], later, file, LongestTree(path, file, None));
    OneTree(x, file, LongestTree(path, file, None));
    LongestTreeWins(path, file);
    NoneLonger(later, file, x);
  }

  /** It was no scan's answer before. */
  lemma RelistedIsNew(v: View, key: Key, file: Path)
    requires Silent(v, key) && Named(v) && Relisted(v, key).tree.Some?
    ensures ScanTree(v, file) != Some(RelistedTree(v, key))
  {
    LongestTreeWins(ScanTrees(v, Parent(file)), file);
    if ScanTree(v, file).Some? {
      ScanTreeNamed(v, key, Parent(file), ScanTree(v, file).value);
    }
    FirstListedNamed(ListAt(v, key.dir), key.name);
  }

  function NameLength(trees: seq<OutputTree>): nat {
    if trees == [] then 0
    else (if trees[0].root == [] then 0 else |trees[0].root[|trees[0].root| - 1]|) + NameLength(trees[1..])
  }

  lemma {:induction false} LongNameIsFresh(trees: seq<OutputTree>, dir: Path, name: string)
    requires |name| > NameLength(trees)
    ensures forall t :: t in trees ==> t.root != dir + [name]
    decreases |trees|
  {
    if trees != [] {
      LongNameIsFresh(trees[1..], dir, name);
      assert trees == [trees[0]] + trees[1..];
      assert (dir + [name])[|dir|] == name;
    }
  }

  lemma PrefixOfLength(a: Path, b: Path)
    requires a <= b && |a| >= |b|
    ensures a == b
  {
  }

  /** A file under the root whose scan starts at the innermost package, and that no longer tree found there encloses. */
  lemma Witness(v: View, key: Key) returns (file: Path)
    requires Relisted(v, key).tree.Some?
    ensures TreeRoot(v, key) <= file && Parent(file) == TreeStart(v, key)
    ensures forall t :: t in ScanTrees(v, TreeStart(v, key)) && t.root <= file ==> t.root <= TreeRoot(v, key)
  {
    var root, trees := TreeRoot(v, key), ScanTrees(v, TreeStart(v, key));
    if root != key.dir {
      return root;
    }
    var name: string := seq(NameLength(trees) + 1, _ => 'x');
    LongNameIsFresh(trees, key.dir, name);
    file := key.dir + [name];
    forall t | t in trees && t.root <= file
      ensures t.root <= root
    {
      if |t.root| > |root| {
        PrefixOfLength(t.root, file);
      }
    }
  }

  /** Some file shows a relisted tree that no equal tree is found before. */
  lemma UnshadowedShows(v: View, key: Key) returns (file: Path)
    requires Silent(v, key) && Named(v) && !TreeShadowed(v, key, false)
    ensures ScanTree(Deleting(v, key), file) != ScanTree(v, file)
  {
    file := Witness(v, key);
    ScanCut(v, key, TreeStart(v, key));
    forall t | t in PathTrees(v, TreeStart(v, key), key, false) && t.root <= file
      ensures |t.root| < |TreeRoot(v, key)|
    {
      assert t in ScanTrees(v, TreeStart(v, key));
      if |t.root| >= |TreeRoot(v, key)| {
        PrefixOfLength(t.root, TreeRoot(v, key));
      }
    }
    UnbeatenWins(v, key, file);
    RelistedIsNew(v, key, file);
  }

  /** Deleting a silent rule changes no enclosing tree exactly when an equal tree is found before the relisted one. */
  lemma DeletionKeepsTrees(v: View, key: Key)
    requires Silent(v, key) && Named(v)
    ensures (forall file :: ScanTree(Deleting(v, key), file) == ScanTree(v, file)) <==> TreeShadowed(v, key, false)
  {
    if TreeShadowed(v, key, false) {
      forall file
        ensures ScanTree(Deleting(v, key), file) == ScanTree(v, file)
      {
        ShadowedKeepsTree(v, key, file);
      }
    } else {
      var file := UnshadowedShows(v, key);
    }
  }

  // ---- Through every quiet store that may follow ----

  /** A stored rule's tree outlives quiet stores. */
  lemma {:induction false} HeldInLater(v: View, w: View, dir: Path, list: seq<Rule>, t: OutputTree)
    requires QuietlyLater(v, w) && t in TreesInList(v, dir, StoredOnly(v, dir, list))
    ensures t in TreesInList(w, dir, list)
    decreases |list|
  {
    if list != [] {
      TreesHead(w, dir, list);
      if Key(dir, list[0].name) in v.rules {
        TreesHead(v, dir, StoredOnly(v, dir, list));
        assert StoredOnly(v, dir, list)[1..] == StoredOnly(v, dir, list[1..]);
        if t in TreesInList(v, dir, [list[0]]) {
          StoredTreeStays(v, w, dir, list[0], t);
        } else {
          HeldInLater(v, w, dir, list[1..], t);
        }
      } else {
        assert StoredOnly(v, dir, list) == StoredOnly(v, dir, list[1..]);
        HeldInLater(v, w, dir, list[1..], t);
      }
    }
  }

  lemma StoredTreeStays(v: View, w: View, dir: Path, r: Rule, t: OutputTree)
    requires QuietlyLater(v, w) && Key(dir, r.name) in v.rules && t in TreesInList(v, dir, [r])
    ensures t in TreesInList(w, dir, [r])
  {
    var k := Key(dir, r.name);
    assert [r][1..] == [];
    assert DeclaresOutputs(Stored(v, k));
    assert Stored(w, k) == Stored(v, k);
    assert k in w.rules;
  }

  lemma {:induction false} HeldBeforeLater(v: View, w: View, dir: Path, list: seq<Rule>, name: Name, t: OutputTree)
    requires QuietlyLater(v, w) && Key(dir, name) in v.rules && t in TreesBefore(v, dir, StoredOnly(v, dir, list), name)
    ensures t in TreesBefore(w, dir, list, name)
    decreases |list|
  {
    if list != [] {
      if Key(dir, list[0].name) in v.rules {
        assert StoredOnly(v, dir, list)[0] == list[0] && StoredOnly(v, dir, list)[1..] == StoredOnly(v, dir, list[1..]);
        if t in TreesInList(v, dir, [list[0]]) {
          StoredTreeStays(v, w, dir, list[0], t);
        } else {
          HeldBeforeLater(v, w, dir, list[1..], name, t);
        }
      } else {
        assert StoredOnly(v, dir, list) == StoredOnly(v, dir, list[1..]);
        HeldBeforeLater(v, w, dir, list[1..], name, t);
      }
    }
  }

  lemma {:induction false} HeldPathLater(v: View, w: View, dir: Path, key: Key, t: OutputTree)
    requires QuietlyLater(v, w) && key in v.rules && key.dir <= dir && t in PathTrees(v, dir, key, true)
    ensures t in PathTrees(w, dir, key, false)
    decreases |dir|
  {
    if dir == key.dir {
      HeldBeforeLater(v, w, dir, ListAt(v, dir), key.name, t);
    } else {
      ParentAbove(key.dir, dir);
      if t in TreesInList(v, dir, StoredOnly(v, dir, ListAt(v, dir))) {
        HeldInLater(v, w, dir, ListAt(v, dir), t);
      } else {
        HeldPathLater(v, w, Parent(dir), key, t);
      }
    }
  }

  /** A shadow that stored rules cast stays. */
  lemma HeldStaysShadowed(v: View, w: View, key: Key)
    requires QuietlyLater(v, w) && key in v.rules && TreeShadowed(v, key, true)
    ensures TreeShadowed(w, key, false)
  {
    if Relisted(v, key).tree.Some? {
      var t :| t in PathTrees(v, TreeStart(v, key), key, true) && t.root == TreeRoot(v, key);
      HeldPathLater(v, w, TreeStart(v, key), key, t);
    }
  }

  /** The view after storing, without outputs, every unstored name of a list. */
  function Bared(v: View, dir: Path, list: seq<Rule>): View
    decreases |list|
  {
    if list == [] then v
    else
      var k := Key(dir, list[0].name);
      Bared(if k in v.rules then v else v.(rules := v.rules[k := Rule(0, k.name, "", NoOuts, NoOutDir)]), dir,
            list[1..])
  }

  lemma {:induction false} BaredLater(v: View, dir: Path, list: seq<Rule>)
    ensures var w := Bared(v, dir, list);
            && QuietlyLater(v, w) && (forall k :: k in v.rules ==> k in w.rules && w.rules[k] == v.rules[k])
            && (Named(v) ==> Named(w)) && forall r :: r in list ==> Key(dir, r.name) in w.rules
    decreases |list|
  {
    if list != [] {
      var k := Key(dir, list[0].name);
      var next := if k in v.rules then v else v.(rules := v.rules[k := Rule(0, k.name, "", NoOuts, NoOutDir)]);
      assert QuietlyLater(v, next);
      BaredLater(next, dir, list[1..]);
      QuietlyOn(v, next, Bared(v, dir, list));
      assert list == [list[0]] + list[1..];
    }
  }

  /** So for every package from dir up to the key's. */
  lemma {:induction false} BaredPath(v: View, dir: Path, key: Key) returns (w: View)
    requires key.dir <= dir
    ensures QuietlyLater(v, w) && (forall k :: k in v.rules ==> k in w.rules && w.rules[k] == v.rules[k])
            && (Named(v) ==> Named(w))
    ensures forall d, r :: key.dir <= d <= dir && r in ListAt(v, d) ==> Key(d, r.name) in w.rules
    decreases |dir|
  {
    var next := Bared(v, dir, ListAt(v, dir));
    BaredLater(v, dir, ListAt(v, dir));
    w := next;
    if dir != key.dir {
      ParentAbove(key.dir, dir);
      w := BaredPath(next, Parent(dir), key);
      QuietlyOn(v, next, w);
    }
    forall d, r | key.dir <= d <= dir && r in ListAt(v, d)
      ensures Key(d, r.name) in w.rules
    {
      if d == dir {
        assert Key(d, r.name) in next.rules;
      } else {
        ParentAbove(d, dir);
        assert r in ListAt(next, d);
      }
    }
  }

  /** Where every name is stored, only trees of rules stored before are left. */
  lemma BareTree(v: View, w: View, dir: Path, r: Rule, t: OutputTree)
    requires QuietlyLater(v, w) && Key(dir, r.name) in w.rules && t in TreesInList(w, dir, [r])
    ensures Key(dir, r.name) in v.rules && t in TreesInList(v, dir, [r])
  {
    var k := Key(dir, r.name);
    assert [r][1..] == [];
    assert DeclaresOutputs(Stored(w, k));
    assert Stored(w, k) == Stored(v, k);
  }

  lemma {:induction false} BareList(v: View, w: View, dir: Path, list: seq<Rule>, t: OutputTree)
    requires QuietlyLater(v, w) && t in TreesInList(w, dir, list)
    requires forall r :: r in list ==> Key(dir, r.name) in w.rules
    ensures t in TreesInList(v, dir, StoredOnly(v, dir, list))
    decreases |list|
  {
    if list != [] {
      assert list == [list[0]] + list[1..];
      TreesHead(w, dir, list);
      var kept := StoredOnly(v, dir, list);
      if Key(dir, list[0].name) in v.rules {
        assert kept[0] == list[0] && kept[1..] == StoredOnly(v, dir, list[1..]);
        TreesHead(v, dir, kept);
      } else {
        assert kept == StoredOnly(v, dir, list[1..]);
      }
      if t in TreesInList(w, dir, [list[0]]) {
        BareTree(v, w, dir, list[0], t);
      } else {
        BareList(v, w, dir, list[1..], t);
      }
    }
  }

  lemma {:induction false} BareBefore(v: View, w: View, dir: Path, list: seq<Rule>, name: Name, t: OutputTree)
    requires QuietlyLater(v, w) && Key(dir, name) in v.rules && t in TreesBefore(w, dir, list, name)
    requires forall r :: r in list ==> Key(dir, r.name) in w.rules
    ensures t in TreesBefore(v, dir, StoredOnly(v, dir, list), name)
    decreases |list|
  {
    if list != [] {
      assert list == [list[0]] + list[1..];
      var kept := StoredOnly(v, dir, list);
      if Key(dir, list[0].name) in v.rules {
        assert kept[0] == list[0] && kept[1..] == StoredOnly(v, dir, list[1..]);
      } else {
        assert kept == StoredOnly(v, dir, list[1..]);
      }
      if t in TreesInList(w, dir, [list[0]]) {
        BareTree(v, w, dir, list[0], t);
      } else {
        BareBefore(v, w, dir, list[1..], name, t);
      }
    }
  }

  lemma {:induction false} BarePath(v: View, w: View, dir: Path, key: Key, t: OutputTree)
    requires QuietlyLater(v, w) && key in v.rules && key.dir <= dir && t in PathTrees(w, dir, key, false)
    requires forall d, r :: key.dir <= d <= dir && r in ListAt(v, d) ==> Key(d, r.name) in w.rules
    ensures t in PathTrees(v, dir, key, true)
    decreases |dir|
  {
    if dir == key.dir {
      BareBefore(v, w, dir, ListAt(v, dir), key.name, t);
    } else {
      ParentAbove(key.dir, dir);
      if t in TreesInList(w, dir, ListAt(v, dir)) {
        BareList(v, w, dir, ListAt(v, dir), t);
      } else {
        BarePath(v, w, Parent(dir), key, t);
      }
    }
  }

  /** The deletion changes no file's enclosing tree, now or after any quiet stores. */
  ghost predicate KeepsTreesOn(v: View, key: Key) {
    forall w, file :: QuietlyLater(v, w) && Silent(w, key) ==> ScanTree(Deleting(w, key), file) == ScanTree(w, file)
  }

  /** It never will exactly when a stored rule's equal tree is found before the relisted one. */
  lemma DeletionKeepsTreesOn(v: View, key: Key)
    requires Silent(v, key) && Named(v)
    ensures KeepsTreesOn(v, key) <==> TreeShadowed(v, key, true)
  {
    if TreeShadowed(v, key, true) {
      forall w, file | QuietlyLater(v, w) && Silent(w, key)
        ensures ScanTree(Deleting(w, key), file) == ScanTree(w, file)
      {
        HeldStaysShadowed(v, w, key);
        ShadowedKeepsTree(w, key, file);
      }
    } else {
      var w := BaredPath(v, TreeStart(v, key), key);
      if TreeShadowed(w, key, false) {
        var t :| t in PathTrees(w, TreeStart(w, key), key, false) && t.root == TreeRoot(w, key);
        BarePath(v, w, TreeStart(v, key), key, t);
        assert false;
      }
      var file := UnshadowedShows(w, key);
      assert !KeepsTreesOn(v, key);
    }
  }

  // ---- Memoised trees, taken up where a scan from below arrives ----

  /** The trees of the packages from dir up, short of end. */
  function Below(v: View, dir: Path, end: Path): seq<OutputTree>
    requires end <= dir
    decreases |dir|
  {
    if dir == end then []
    else
      ParentAbove(end, dir);
      TreesInList(v, dir, ListAt(v, dir)) + Below(v, Parent(dir), end)
  }

  /** Scanned on from dir with these trees, every file gets the scan's answer, now and after any quiet stores. */
  ghost predicate TreesStand(v: View, dir: Path, trees: seq<OutputTree>) {
    forall w, file {:trigger QuietlyLater(v, w), ScanTree(w, file)} :: QuietlyLater(v, w) && dir <= Parent(file) ==>
      LongestTree(Below(w, Parent(file), dir) + trees, file, None) == ScanTree(w, file)
  }

  lemma StandLater(v: View, v': View, dir: Path, trees: seq<OutputTree>)
    requires QuietlyLater(v, v') && TreesStand(v, dir, trees)
    ensures TreesStand(v', dir, trees)
  {
    forall w, file | QuietlyLater(v', w) && dir <= Parent(file)
      ensures LongestTree(Below(w, Parent(file), dir) + trees, file, None) == ScanTree(w, file)
    {
      QuietlyOn(v, v', w);
    }
  }

  lemma StandsNow(v: View, file: Path, trees: seq<OutputTree>)
    requires TreesStand(v, Parent(file), trees)
    ensures LongestTree(trees, file, None) == ScanTree(v, file)
  {
    assert QuietlyLater(v, v);
    assert Below(v, Parent(file), Parent(file)) + trees == trees;
  }

  /** A package whose every rule is stored keeps its trees through quiet stores. */
  lemma {:induction false} StoredTreesStay(v: View, w: View, dir: Path, list: seq<Rule>)
    requires QuietlyLater(v, w) && forall r :: r in list ==> Key(dir, r.name) in v.rules
    ensures TreesInList(w, dir, list) == TreesInList(v, dir, list)
    decreases |list|
  {
    if list != [] {
      assert list == [list[0]] + list[1..];
      var k := Key(dir, list[0].name);
      assert k in w.rules <==> Stored(w, k).Some?;
      assert Stored(v, k).Some?;
      StoredTreesStay(v, w, dir, list[1..]);
    }
  }

  lemma {:induction false} BelowStep(v: View, dir: Path, end: Path)
    requires end <= dir && end != []
    ensures Below(v, dir, Parent(end)) == Below(v, dir, end) + TreesInList(v, end, ListAt(v, end))
    decreases |dir|
  {
    assert Parent(end) <= dir && Parent(end) != dir;
    if dir != end {
      ParentAbove(end, dir);
      BelowStep(v, Parent(dir), end);
    } else {
      assert Below(v, Parent(end), Parent(end)) == [];
    }
  }

  lemma {:induction false} BelowAll(v: View, dir: Path)
    ensures ScanTrees(v, dir) == Below(v, dir, []) + TreesInList(v, [], ListAt(v, []))
    decreases |dir|
  {
    if dir != [] {
      BelowAll(v, Parent(dir));
    }
  }

  /** The root package's own trees stand. */
  lemma RootStands(v: View)
    requires forall r :: r in ListAt(v, []) ==> Key([], r.name) in v.rules
    ensures TreesStand(v, [], TreesInList(v, [], ListAt(v, [])))
  {
    forall w, file | QuietlyLater(v, w) && [] <= Parent(file)
      ensures LongestTree(Below(w, Parent(file), []) + TreesInList(v, [], ListAt(v, [])), file, None)
              == ScanTree(w, file)
    {
      StoredTreesStay(v, w, [], ListAt(v, []));
      BelowAll(w, Parent(file));
    }
  }

  /** A package's own trees before ones that stand above it stand. */
  lemma StandsBelow(v: View, dir: Path, above: seq<OutputTree>)
    requires dir != [] && TreesStand(v, Parent(dir), above)
    requires forall r :: r in ListAt(v, dir) ==> Key(dir, r.name) in v.rules
    ensures TreesStand(v, dir, TreesInList(v, dir, ListAt(v, dir)) + above)
  {
    var here := TreesInList(v, dir, ListAt(v, dir));
    forall w, file | QuietlyLater(v, w) && dir <= Parent(file)
      ensures LongestTree(Below(w, Parent(file), dir) + (here + above), file, None) == ScanTree(w, file)
    {
      StoredTreesStay(v, w, dir, ListAt(v, dir));
      BelowStep(w, Parent(file), dir);
      JoinRight(Below(w, Parent(file), dir), here, above);
      assert Parent(dir) <= Parent(file);
    }
  }

  lemma {:induction false} BelowCut(v: View, key: Key, dir: Path, end: Path)
    requires end <= key.dir <= dir && end != key.dir
    ensures end <= Parent(key.dir)
    ensures Below(v, dir, end) ==
            PathTrees(v, dir, key, false) + TreesFrom(v, key.dir, ListAt(v, key.dir), key.name)
            + Below(v, Parent(key.dir), end)
    decreases |dir|
  {
    ParentAbove(end, key.dir);
    if dir == key.dir {
      TreesJoin(v, dir, ListAt(v, dir), key.name);
    } else {
      ParentAbove(key.dir, dir);
      BelowCut(v, key, Parent(dir), end);
      JoinLeft(TreesInList(v, dir, ListAt(v, dir)), PathTrees(v, Parent(dir), key, false),
               TreesFrom(v, key.dir, ListAt(v, key.dir), key.name), Below(v, Parent(key.dir), end));
    }
  }

  lemma {:induction false} BelowElsewhere(v: View, key: Key, dir: Path, end: Path)
    requires Silent(v, key) && end <= dir && (key.dir <= dir ==> key.dir <= end)
    ensures Below(Deleting(v, key), dir, end) == Below(v, dir, end)
    decreases |dir|
  {
    if dir != end {
      ParentAbove(end, dir);
      assert dir != key.dir;
      ListElsewhere(v, key, dir, ListAt(v, dir), []);
      BelowElsewhere(v, key, Parent(dir), end);
    }
  }

  /** The trees below a memoised directory answer as before the deletion. */
  lemma BelowKept(v: View, key: Key, file: Path, end: Path, trees: seq<OutputTree>)
    requires Silent(v, key) && TreeShadowed(v, key, false) && end <= Parent(file)
    ensures LongestTree(Below(Deleting(v, key), Parent(file), end) + trees, file, None)
            == LongestTree(Below(v, Parent(file), end) + trees, file, None)
  {
    var v', dir := Deleting(v, key), Parent(file);
    if key.dir <= dir && !(key.dir <= end) {
      assert end <= key.dir by {
        assert dir[..|end|] == end && dir[..|key.dir|] == key.dir;
      }
      BelowCut(v, key, dir, end);
      BelowCut(v', key, dir, end);
      assert !(key.dir <= Parent(key.dir));
      BelowElsewhere(v, key, Parent(key.dir), end);
      ShadowedIsInert(v, key, file);
      BeatenOnPath(v, key, dir, file, Below(v, Parent(key.dir), end) + trees);
      JoinRight(PathTrees(v, dir, key, false) + TreesFrom(v, key.dir, ListAt(v, key.dir), key.name),
                Below(v, Parent(key.dir), end), trees);
      JoinRight(PathTrees(v', dir, key, false) + TreesFrom(v', key.dir, ListAt(v, key.dir), key.name),
                Below(v, Parent(key.dir), end), trees);
    } else {
      BelowElsewhere(v, key, dir, end);
    }
  }

  lemma JoinRight(a: seq<OutputTree>, b: seq<OutputTree>, c: seq<OutputTree>)
    ensures a + (b + c) == a + b + c
  {
  }

  /** Trees that stand still do after a deletion that stored rules shadow. */
  lemma StandDeleted(v: View, key: Key, dir: Path, trees: seq<OutputTree>)
    requires Silent(v, key) && TreeShadowed(v, key, true) && TreesStand(v, dir, trees)
    ensures TreesStand(Deleting(v, key), dir, trees)
  {
    forall w', file | QuietlyLater(Deleting(v, key), w') && dir <= Parent(file)
      ensures LongestTree(Below(w', Parent(file), dir) + trees, file, None) == ScanTree(w', file)
    {
      var w := Restored(v, key, w');
      if key !in w'.rules {
        HeldStaysShadowed(v, w, key);
        BelowKept(w, key, file, dir, trees);
        ShadowedKeepsTree(w, key, file);
      }
      assert ScanTree(w, file) == LongestTree(Below(w, Parent(file), dir) + trees, file, None);
    }
  }

  /** A later view, with the deleted rule back unless its key was stored again. */
  lemma Restored(v: View, key: Key, w': View) returns (w: View)
    requires Silent(v, key) && QuietlyLater(Deleting(v, key), w')
    ensures QuietlyLater(v, w) && Silent(w, key)
    ensures w' == if key in w'.rules then w else Deleting(w, key)
  {
    w := if key in w'.rules then w' else w'.(rules := w'.rules[key := v.rules[key]]);
    assert Stored(w', key).Some? <==> key in w'.rules;
    forall k
      ensures Stored(w, k) == Stored(v, k)
              || (!DeclaresOutputs(Stored(v, k)) && Stored(w, k).Some? && !DeclaresOutputs(Stored(w, k)))
    {
      assert k != key ==> Stored(Deleting(v, key), k) == Stored(v, k) && Stored(w, k) == Stored(w', k);
    }
    if key !in w'.rules {
      assert w.rules - {key} == w'.rules;
    }
  }

  // ---- Inputs ----

  const GEN := Name("gen", true)
  const SILENT := Rule(2, GEN, "ts_compile", NoOuts, NoOutDir)

  /** A memoised "no producer" outlives the deletion when the list still holds a rule that outputs the file. */
  lemma DeletedRuleResurfaces()
    ensures var listed, file := Rule(1, GEN, "ts_compile", Outs([["a.ts"]], false), NoOutDir), ["a.ts"];
            var v := View(map[[] := 0], map[0 := [listed]], map[Key([], GEN) := SILENT], map[]);
            && Silent(v, Key([], GEN)) && KnownFile(v, Parent(file), file) == Some(None)
            && ScanFile(Deleting(v, Key([], GEN)), Parent(file), file) == Some(Producer(listed, []))
  {
    var listed, file := Rule(1, GEN, "ts_compile", Outs([["a.ts"]], false), NoOutDir), ["a.ts"];
    var v := View(map[[] := 0], map[0 := [listed]], map[Key([], GEN) := SILENT], map[]);
    var v' := Deleting(v, Key([], GEN));
    assert Parent(file) == [] && ListAt(v, []) == [listed] == ListAt(v', []) && [listed][1..] == [];
    assert Effective(v, [], GEN) == Some(SILENT) && !ListsFile(v, [], GEN, file);
    assert KnownInList(v, [], [listed], file) == KnownInList(v, [], [], file) == Some(None);
    assert Effective(v', [], GEN) == Some(listed);
    assert ["a.ts"] in listed.outs.files && [] + ["a.ts"] == file;
    assert ListsFile(v', [], GEN, file);
  }

  /** A relisted rule whose one file another rule answers for first comes back unseen. */
  lemma ShadowedRuleStaysHidden()
    ensures var a := Rule(3, Name("a", true), "ts_compile", Outs([["f.ts"]], false), NoOutDir);
            var listed := Rule(1, GEN, "ts_compile", Outs([["f.ts"]], false), NoOutDir);
            var v := View(map[[] := 0], map[0 := [a, listed]], map[Key([], a.name) := a, Key([], GEN) := SILENT],
                          map[]);
            && Silent(v, Key([], GEN)) && Relisted(v, Key([], GEN)).files == [["f.ts"]]
            && FilesShadowed(v, Key([], GEN)) && TreeShadowed(v, Key([], GEN), true)
  {
    var a := Rule(3, Name("a", true), "ts_compile", Outs([["f.ts"]], false), NoOutDir);
    var listed := Rule(1, GEN, "ts_compile", Outs([["f.ts"]], false), NoOutDir);
    var v := View(map[[] := 0], map[0 := [a, listed]], map[Key([], a.name) := a, Key([], GEN) := SILENT], map[]);
    var file: Path := [] + ["f.ts"];
    assert FirstListed([a, listed], GEN) == FirstListed([listed], GEN) == Some(listed) by {
      assert [a, listed][1..] == [listed];
    }
    assert Parent(file) == [] && ListAt(v, []) == [a, listed];
    assert ["f.ts"] in a.outs.files && Effective(v, [], a.name) == Some(a);
    assert ListsFile(v, [], a.name, file);
    assert FileBefore(v, [], [a, listed], file, GEN).Some?;
    assert ScanFileBefore(v, [], file, Key([], GEN)).Some?;
  }

  /**
   * A shadow cast by a rule that is only listed hides a relisted tree now, and no longer once a rule without
   * outputs is stored over it, which moves no generation either.
   */
  lemma LooseShadowIsLost()
    ensures var e := Rule(4, Name("e", true), CODEGEN, NoOuts, OutDir(["t"]));
            var listed := Rule(1, GEN, CODEGEN, NoOuts, OutDir(["p", "t"]));
            var v := View(map[[] := 0, ["p"] := 1], map[0 := [listed], 1 := [e]], map[Key([], GEN) := SILENT], map[]);
            && Silent(v, Key([], GEN))
            && (forall file :: ScanTree(Deleting(v, Key([], GEN)), file) == ScanTree(v, file))
            && !KeepsTreesOn(v, Key([], GEN))
  {
    var e := Rule(4, Name("e", true), CODEGEN, NoOuts, OutDir(["t"]));
    var listed := Rule(1, GEN, CODEGEN, NoOuts, OutDir(["p", "t"]));
    var v := View(map[[] := 0, ["p"] := 1], map[0 := [listed], 1 := [e]], map[Key([], GEN) := SILENT], map[]);
    var key := Key([], GEN);
    LooseShadow(v, e, listed);
    DeletionKeepsTrees(v, key);
    DeletionKeepsTreesOn(v, key);
  }

  lemma StoredOne(v: View, dir: Path, r: Rule)
    ensures StoredOnly(v, dir, [r]) == if Key(dir, r.name) in v.rules then [r] else []
  {
    assert [r][1..] == [] && StoredOnly(v, dir, []) == [];
  }

  lemma LooseShadow(v: View, e: Rule, listed: Rule)
    requires e == Rule(4, Name("e", true), CODEGEN, NoOuts, OutDir(["t"]))
             && listed == Rule(1, GEN, CODEGEN, NoOuts, OutDir(["p", "t"]))
    requires v == View(map[[] := 0, ["p"] := 1], map[0 := [listed], 1 := [e]], map[Key([], GEN) := SILENT], map[])
    ensures Silent(v, Key([], GEN)) && Named(v)
    ensures TreeShadowed(v, Key([], GEN), false) && !TreeShadowed(v, Key([], GEN), true)
  {
    var key, p, root := Key([], GEN), ["p"], ["p", "t"];
    assert Relisted(v, key) == Declared([], Some(root), false);
    assert TreeRoot(v, key) == [] + root == root && Parent(root) == p && TreeStart(v, key) == p && Parent(p) == [];
    var t := OutputTree(p + ["t"], Producer(e, p));
    assert [e][1..] == [] && Effective(v, p, e.name) == Some(e);
    assert TreesInList(v, p, [e]) == [t] && t.root == root;
    assert ListAt(v, p) == [e] && t in PathTrees(v, p, key, false);
    assert listed.name == GEN && ListAt(v, []) == [listed];
    StoredOne(v, p, e);
    StoredOne(v, [], listed);
    assert PathTrees(v, p, key, true) == [];
  }
}
