/** The store of rules and BUILD files, and the ownership answers it caches. */
module ProgramStores {
  import opened Wrappers
  import opened Ownership
  import opened Deletions
  import opened OutputIndex

  // ---- When a cached answer still holds ----

  ghost predicate IndexHolds(v: View, clock: Clock, listEpoch: nat, dir: Path, po: PackageOutputs) {
    var holds := NoLater(po.version, VersionAt(clock, dir)) && po.epoch <= listEpoch && Indexes(dir, po)
                 && (po.version == VersionAt(clock, dir) ==> Produces(v.rules, dir, po.config, po.rules, po.producers))
                 && (po.epoch == listEpoch ==> po.file in v.lists && v.lists[po.file] == po.rules);
    holds
  }

  ghost predicate RegisteredHolds(v: View, clock: Clock, listEpoch: nat, dir: Path, b: RegisteredBuild) {
    var holds := NoLater(b.version, VersionAt(clock, dir)) && b.epoch <= listEpoch
                 && (b.version == VersionAt(clock, dir) ==> AllStored(v.rules, dir, b.rules))
                 && (b.epoch == listEpoch ==> b.file in v.lists && v.lists[b.file] == b.rules);
    holds
  }

  ghost predicate MemoAnswers(v: View, memo: ResolutionMemo) {
    && (forall f :: f in memo.producers ==> KnownFile(v, Parent(f), f) == Some(memo.producers[f]))
    && (forall d :: d in memo.trees && memo.trees[d].observed ==> TreesStand(v, d, memo.trees[d].trees))
  }

  /** A memo of this epoch and generation answers for the current rules; none is from a later one. */
  ghost predicate MemoHolds(v: View, listEpoch: nat, generation: nat, memo: Option<ResolutionMemo>) {
    match memo
    case None => true
    case Some(m) =>
      && m.stamp.listEpoch <= listEpoch && m.stamp.outputsGeneration <= generation
      && (m.stamp.listEpoch == listEpoch && m.stamp.outputsGeneration == generation ==> MemoAnswers(v, m))
  }

  ghost predicate CachesHold(v: View, clock: Clock, listEpoch: nat, outputs: map<Path, PackageOutputs>,
                             registered: map<Path, RegisteredBuild>)
  {
    var hold := (forall dir :: dir in outputs ==> IndexHolds(v, clock, listEpoch, dir, outputs[dir]))
                && (forall dir :: dir in registered ==> RegisteredHolds(v, clock, listEpoch, dir, registered[dir]));
    hold
  }

  /** A store at one key moves the version of every package whose rules it could change. */
  lemma StoreKeepsCaches(v: View, v': View, clock: Clock, key: Key, listEpoch: nat, outputs: map<Path, PackageOutputs>,
                         registered: map<Path, RegisteredBuild>)
    requires CachesHold(v, clock, listEpoch, outputs, registered)
    requires v'.files == v.files && v'.lists == v.lists && forall k :: k != key ==> Stored(v, k) == Stored(v', k)
    ensures CachesHold(v', Bump(clock, key), listEpoch, outputs, registered)
  {
    var clock' := Bump(clock, key);
    forall dir | dir in outputs
      ensures IndexHolds(v', clock', listEpoch, dir, outputs[dir])
    {
      var po := outputs[dir];
      assert IndexHolds(v, clock, listEpoch, dir, po);
      if po.version == VersionAt(clock', dir) {
        forall i | 0 <= i < |po.rules|
          ensures Key(dir, po.rules[i].name) in v'.rules
          ensures po.producers[i] == Canonical(po.config, v'.rules[Key(dir, po.rules[i].name)])
        {
          assert Stored(v, Key(dir, po.rules[i].name)) == Stored(v', Key(dir, po.rules[i].name));
        }
      }
    }
    forall dir | dir in registered
      ensures RegisteredHolds(v', clock', listEpoch, dir, registered[dir])
    {
      var b := registered[dir];
      assert RegisteredHolds(v, clock, listEpoch, dir, b);
      if b.version == VersionAt(clock', dir) {
        forall r | r in b.rules
          ensures Key(dir, r.name) in v'.rules
        {
          assert Stored(v, Key(dir, r.name)) == Stored(v', Key(dir, r.name));
        }
      }
    }
  }

  /** Storing rules that declare nothing changes no memoised answer. */
  lemma QuietKeepsMemo(v: View, v': View, memo: ResolutionMemo)
    requires QuietlyLater(v, v') && MemoAnswers(v, memo)
    ensures MemoAnswers(v', memo)
  {
    forall f | f in memo.producers
      ensures KnownFile(v', Parent(f), f) == Some(memo.producers[f])
    {
      KnownStays(v, v', Parent(f), f);
    }
    forall d | d in memo.trees && memo.trees[d].observed
      ensures TreesStand(v', d, memo.trees[d].trees)
    {
      StandLater(v, v', d, memo.trees[d].trees);
    }
  }

  /** Neither does deleting a silent rule whose list brings back nothing that shows. */
  lemma DeletionKeepsMemo(v: View, key: Key, memo: ResolutionMemo)
    requires Silent(v, key) && FilesShadowed(v, key) && TreeShadowed(v, key, true) && MemoAnswers(v, memo)
    ensures MemoAnswers(Deleting(v, key), memo)
  {
    forall f | f in memo.producers
      ensures KnownFile(Deleting(v, key), Parent(f), f) == Some(memo.producers[f])
    {
      if o :| o in Relisted(v, key).files && key.dir + o == f {
        assert FileShadowed(v, key, Parent(key.dir + o), key.dir + o);
      }
      KnownKept(v, key, Parent(f), f);
    }
    forall d | d in memo.trees && memo.trees[d].observed
      ensures TreesStand(Deleting(v, key), d, memo.trees[d].trees)
    {
      StandDeleted(v, key, d, memo.trees[d].trees);
    }
  }

  class ProgramStore {
    var files: map<Path, FileId>
    var lists: map<FileId, seq<Rule>>
    var rules: map<Key, Rule>
    var configs: map<Path, Config>
    var clock: Clock
    var outputIndex: map<Path, PackageOutputs>
    var registered: map<Path, RegisteredBuild>
    var listEpoch: nat
    var outputsGeneration: nat
    var index: Option<nat>
    var memo: Option<ResolutionMemo>

    constructor ()
      ensures Valid() && Current() == View(map[], map[], map[], map[]) && index.None?
    {
      files, lists, rules, configs := map[], map[], map[], map[];
      clock, outputIndex, registered := Clock(0, map[]), map[], map[];
      listEpoch, outputsGeneration, index, memo := 0, 0, None, None;
    }

    /** What the answers depend on. */
    ghost function Current(): View
      reads this`files, this`lists, this`rules, this`configs
    {
      View(files, lists, rules, configs)
    }

    ghost predicate Valid()
      reads this
    {
      var valid := CachesHold(Current(), clock, listEpoch, outputIndex, registered)
                   && MemoHolds(Current(), listEpoch, outputsGeneration, memo)
                   && (memo.Some? ==> index.Some?)
                   && (forall dir :: dir in files ==> files[dir] in lists);
      valid
    }

    /** The memo is of this epoch and generation, so it answers without being dropped. */
    ghost predicate Fresh()
      reads this`memo, this`listEpoch, this`outputsGeneration
    {
      memo.Some? && memo.value.stamp.listEpoch == listEpoch && memo.value.stamp.outputsGeneration == outputsGeneration
    }

    // ---- Stores ----

    method SetRule(key: Key, r: Rule)
      requires Valid()
      modifies this`rules, this`clock, this`outputsGeneration
      ensures Valid() && Current() == old(Current()).(rules := old(rules)[key := r])
    {
      StoreRule(key, r);
    }

    method StoreRule(key: Key, r: Rule)
      requires Valid()
      modifies this`rules, this`clock, this`outputsGeneration
      ensures Valid() && Current() == old(Current()).(rules := old(rules)[key := r])
    {
      ghost var v := Current();
      if DeclaresOutputs(Stored(View(files, lists, rules, configs), key)) || DeclaresOutputs(Some(r)) {
        outputsGeneration := outputsGeneration + 1;
      }
      rules := rules[key := r];
      StoreKeepsCaches(v, Current(), clock, key, listEpoch, outputIndex, registered);
      if memo.Some? && outputsGeneration == old(outputsGeneration) && MemoAnswers(v, memo.value) {
        QuietStoreIsLater(v, key, r);
        QuietKeepsMemo(v, Current(), memo.value);
      }
      clock := Bump(clock, key);
    }

    /**
     * A stored rule goes. One that declared nothing moves no generation, so while a memo is fresh nothing its
     * list still holds under the name may show: then every memoised answer stays the scan's.
     */
    method DeleteRule(key: Key)
      requires Valid()
      requires Silent(Current(), key) && Fresh() ==> FilesShadowed(Current(), key) && TreeShadowed(Current(), key, true)
      modifies this`rules, this`clock, this`outputsGeneration
      ensures Valid() && Current() == old(Current()).(rules := old(rules) - {key})
      ensures outputsGeneration == old(outputsGeneration) + if DeclaresOutputs(old(Stored(Current(), key))) then 1
          else 0
      ensures memo == old(memo)
      ensures (old(Fresh()) && !DeclaresOutputs(old(Stored(Current(), key))) ==>
               Fresh() && MemoAnswers(Current(), memo.value))
    {
      ghost var v := Current();
      if DeclaresOutputs(Stored(View(files, lists, rules, configs), key)) {
        outputsGeneration := outputsGeneration + 1;
      }
      rules := rules - {key};
      StoreKeepsCaches(v, Current(), clock, key, listEpoch, outputIndex, registered);
      if outputsGeneration == old(outputsGeneration) && Fresh() {
        if key in old(rules) {
          DeletionKeepsMemo(v, key, memo.value);
        } else {
          assert Current() == v;
        }
      }
      clock := Bump(clock, key);
    }

    method SetFile(dir: Path, f: FileId)
      requires Valid() && f in lists
      modifies this`files, this`outputsGeneration
      ensures Valid() && Current() == old(Current()).(files := old(files)[dir := f])
    {
      if dir !in files || files[dir] != f {
        outputsGeneration := outputsGeneration + 1;
      }
      ghost var v := Current();
      files := files[dir := f];
      if outputsGeneration == old(outputsGeneration) {
        assert files == old(files);
      }
      KeepsCachesApartFromFiles(v, Current());
    }

    lemma KeepsCachesApartFromFiles(v: View, v': View)
      requires CachesHold(v, clock, listEpoch, outputIndex, registered) && v'.lists == v.lists && v'.rules == v.rules
      ensures CachesHold(v', clock, listEpoch, outputIndex, registered)
    {
      forall dir | dir in outputIndex
        ensures IndexHolds(v', clock, listEpoch, dir, outputIndex[dir])
      {
        assert IndexHolds(v, clock, listEpoch, dir, outputIndex[dir]);
      }
      forall dir | dir in registered
        ensures RegisteredHolds(v', clock, listEpoch, dir, registered[dir])
      {
        assert RegisteredHolds(v, clock, listEpoch, dir, registered[dir]);
      }
    }

    /** Rule lists change only across a callback or an edit that moves the list epoch. */
    method EditLists(edited: map<FileId, seq<Rule>>)
      requires Valid() && lists.Keys <= edited.Keys
      modifies this`lists, this`listEpoch
      ensures Valid() && Current() == old(Current()).(lists := edited)
    {
      ghost var v := Current();
      lists := edited;
      listEpoch := listEpoch + 1;
      forall dir | dir in outputIndex
        ensures IndexHolds(Current(), clock, listEpoch, dir, outputIndex[dir])
      {
        assert IndexHolds(v, clock, old(listEpoch), dir, outputIndex[dir]);
      }
      forall dir | dir in registered
        ensures RegisteredHolds(Current(), clock, listEpoch, dir, registered[dir])
      {
        assert RegisteredHolds(v, clock, old(listEpoch), dir, registered[dir]);
      }
    }

    /** Configuration is frozen once the native index is set. */
    method SetConfig(dir: Path, config: Config)
      requires Valid() && index.None?
      modifies this`configs
      ensures Valid() && Current() == old(Current()).(configs := old(configs)[dir := config])
    {
      ghost var v := Current();
      configs := configs[dir := config];
      KeepsCachesApartFromFiles(v, Current());
    }

    method SetIndex(ix: nat)
      requires Valid()
      modifies this`index
      ensures Valid() && index == Some(ix)
    {
      index := Some(ix);
    }

    // ---- Observation ----

    /** Stores every rule of the package and its ancestors that nothing stored before, the root first. */
    method ObserveBuild(dir: Path)
      requires Valid()
      modifies this`rules, this`clock, this`outputsGeneration, this`registered
      ensures Valid() && Observes(old(Current()), Current()) && AllStored(rules, dir, ListAt(Current(), dir))
      ensures StoredUpTo(old(Current()), Current(), dir)
      decreases |dir|
    {
      ghost var v := Current();
      if dir != [] {
        ObserveBuild(Parent(dir));
      }
      ghost var above := Current();
      if dir !in files {
        StoredNext(v, above, above, dir);
        return;
      }
      var f, list := files[dir], lists[files[dir]];
      if dir in registered && registered[dir].file == f && registered[dir].version == VersionAt(clock, dir)
         && (registered[dir].epoch == listEpoch || registered[dir].rules == list) {
        assert RegisteredHolds(Current(), clock, listEpoch, dir, registered[dir]);
        AlreadyStored(above, dir);
        StoredNext(v, above, above, dir);
        registered := registered[dir := registered[dir].(epoch := listEpoch)];
        return;
      }
      StoreMissing(dir, list);
      StoredNext(v, above, Current(), dir);
      registered := registered[dir := RegisteredBuild(f, list, VersionAt(clock, dir), listEpoch)];
    }

    method StoreMissing(dir: Path, list: seq<Rule>)
      requires Valid() && list == ListAt(Current(), dir)
      modifies this`rules, this`clock, this`outputsGeneration
      ensures Valid() && Observes(old(Current()), Current()) && AllStored(rules, dir, list)
      ensures StoredHere(old(Current()), Current(), dir, list)
    {
      ghost var v := Current();
      for i := 0 to |list|
        invariant Valid() && Observes(v, Current()) && AllStored(rules, dir, list[..i])
        invariant StoredHere(v, Current(), dir, list[..i])
      {
        ghost var before := Current();
        var r := list[i];
        assert list[..i + 1] == list[..i] + [r];
        if Key(dir, r.name) !in rules {
          assert FirstListed(list, r.name) == Some(r) by {
            FirstUnstored(Current(), dir, list, i);
          }
          ObservedSameEffect(Current(), Key(dir, r.name), r);
          SetRule(Key(dir, r.name), r);
        }
        StoredMore(v, before, Current(), dir, list, i);
      }
      assert list[..|list|] == list;
    }

    // ---- The package index ----

    /** The package's index, from the cache while it holds; none while one of its rules is unobserved. */
    method PackageOutputsAt(dir: Path) returns (r: Option<PackageOutputs>)
      requires Valid() && dir in files
      modifies this`outputIndex
      ensures Valid()
      ensures r.None? <==> !AllStored(rules, dir, ListAt(Current(), dir))
      ensures r.Some? ==>
        Indexes(dir, r.value) && Produces(rules, dir, ConfigOf(Current(), dir), r.value.rules, r.value.producers)
                          && r.value.rules == ListAt(Current(), dir)
    {
      var f, list, version := files[dir], lists[files[dir]], VersionAt(clock, dir);
      var config := if dir in configs then configs[dir] else NO_CONFIG;
      if dir in outputIndex {
        var cached := outputIndex[dir];
        if cached.file == f && cached.version == version && cached.config == config
           && (cached.epoch == listEpoch || cached.rules == list) {
          CachedHolds(dir, cached, list);
          CachePut(Current(), clock, listEpoch, outputIndex, registered, dir, cached.(epoch := listEpoch));
          outputIndex := outputIndex[dir := cached.(epoch := listEpoch)];
          ProducedStored(rules, dir, config, cached.rules, cached.producers);
          return Some(cached);
        }
      }
      r := BuildOutputs(rules, dir, f, list, config, version, listEpoch);
      if r.Some? {
        CachePut(Current(), clock, listEpoch, outputIndex, registered, dir, r.value);
        outputIndex := outputIndex[dir := r.value];
      }
    }

    // ---- Ownership of a file ----

    /** The package's own answer: from its index, or by the list in order, observing it at the first unobserved rule. */
    method PackageProducer(dir: Path, file: Path) returns (r: Option<Producer>)
      requires Valid()
      modifies this`rules, this`clock, this`outputsGeneration, this`registered, this`outputIndex
      ensures Valid() && Observes(old(Current()), Current())
      ensures KnownInList(Current(), dir, ListAt(Current(), dir), file) == Some(r)
    {
      if dir !in files {
        return None;
      }
      var outputs := PackageOutputsAt(dir);
      if outputs.Some? {
        var po := outputs.value;
        IndexAnswers(Current(), dir, po, file);
        return if file in po.files then Some(Producer(po.producers[po.files[file]], dir)) else None;
      }
      r := ListProducer(dir, file);
    }

    method ListProducer(dir: Path, file: Path) returns (r: Option<Producer>)
      requires Valid() && dir in files
      modifies this`rules, this`clock, this`outputsGeneration, this`registered
      ensures Valid() && Observes(old(Current()), Current())
      ensures KnownInList(Current(), dir, ListAt(Current(), dir), file) == Some(r)
    {
      var list := lists[files[dir]];
      ghost var v := Current();
      for i := 0 to |list|
        invariant Valid() && Observes(v, Current())
        invariant PassedIn(Current(), dir, list[..i], file)
      {
        ghost var before := Current();
        if Key(dir, list[i].name) !in rules {
          ObserveBuild(dir);
          PassedInGrows(before, Current(), dir, list[..i], file);
        }
        var config := if dir in configs then configs[dir] else NO_CONFIG;
        var stored := Canonical(config, rules[Key(dir, list[i].name)]);
        FileNext(Current(), dir, list, i, rules[Key(dir, list[i].name)], file);
        if exists o :: o in RuleOutputs(stored).files && dir + o == file {
          return Some(Producer(stored, dir));
        }
      }
      PassedInKnown(Current(), dir, list, |list|, file);
      return None;
    }

    /** The nearest ancestor package whose rules output the file. */
    method DeclaredFile(file: Path) returns (r: Option<Producer>)
      requires Valid()
      modifies this`rules, this`clock, this`outputsGeneration, this`registered, this`outputIndex
      ensures Valid() && Observes(old(Current()), Current())
      ensures KnownFile(Current(), Parent(file), file) == Some(r)
      ensures r == ScanFile(old(Current()), Parent(file), file)
    {
      ghost var v := Current();
      var dir := Parent(file);
      r := PackageProducer(dir, file);
      while r.None? && dir != []
        invariant Valid() && Observes(v, Current()) && Passed(Current(), Parent(file), dir, file)
        invariant KnownInList(Current(), dir, ListAt(Current(), dir), file) == Some(r)
        decreases |dir|
      {
        ghost var before := Current();
        PassedFurther(before, Parent(file), dir, file);
        dir := Parent(dir);
        r := PackageProducer(dir, file);
        PassedGrows(before, Current(), Parent(file), dir, file);
      }
      PassedKnown(Current(), Parent(file), dir, file);
      KnownIsScanned(Current(), Parent(file), file);
      ScanSameEffect(v, Current(), Parent(file), file);
    }

    /** Drops every memoized answer once the index, a rule list or an output declaration moved. */
    method RefreshMemo()
      requires Valid() && index.Some?
      modifies this`memo
      ensures Valid() && memo.Some? && memo.value.stamp == Stamp(index, listEpoch, outputsGeneration)
      ensures MemoAnswers(Current(), memo.value)
      ensures memo == old(memo) || memo == Some(ResolutionMemo(memo.value.stamp, map[], map[]))
    {
      var stamp := Stamp(index, listEpoch, outputsGeneration);
      if memo.None? || memo.value.stamp != stamp {
        memo := Some(ResolutionMemo(stamp, map[], map[]));
      }
    }

    /** The rule that outputs a file: always what the unindexed scan of the current rules finds. */
    method OutputProducer(file: Path) returns (r: Option<Producer>)
      requires Valid()
      modifies this`rules, this`clock, this`outputsGeneration, this`registered, this`outputIndex, this`memo
      ensures Valid() && Observes(old(Current()), Current())
      ensures r == ScanFile(old(Current()), Parent(file), file)
    {
      if index.None? {
        r := DeclaredFile(file);
        return;
      }
      RefreshMemo();
      if file in memo.value.producers {
        KnownIsScanned(Current(), Parent(file), file);
        return memo.value.producers[file];
      }
      r := DeclaredFile(file);
      // An observation may have moved the generation; the stamp then outdates the entry.
      memo := Some(memo.value.(producers := memo.value.producers[file := r]));
    }

    /** The rule whose unreadable outputs leave a file's origin unknown: always the one the unindexed scan finds. */
    method IncompleteOutput(file: Path) returns (r: Option<Producer>)
      requires Valid()
      modifies this`outputIndex
      ensures Valid() && r == ScanIncomplete(Current(), Parent(file))
    {
      var dir := Parent(file);
      while dir !in files
        invariant Valid() && ScanIncomplete(Current(), dir) == ScanIncomplete(Current(), Parent(file))
        decreases |dir|
      {
        if dir == [] {
          return None;
        }
        dir := Parent(dir);
      }
      var outputs := PackageOutputsAt(dir);
      if outputs.Some? {
        var po := outputs.value;
        IndexedIncomplete(Current(), dir, po.rules, po.producers, 0, po.incomplete);
        assert po.rules[0..] == po.rules;
        return if po.incomplete.Some? then Some(Producer(po.producers[po.incomplete.value], dir)) else None;
      }
      r := ListIncomplete(dir, lists[files[dir]]);
    }

    method ListIncomplete(dir: Path, list: seq<Rule>) returns (r: Option<Producer>)
      ensures r == IncompleteInList(Current(), dir, list)
    {
      for i := 0 to |list|
        invariant IncompleteInList(Current(), dir, list) == IncompleteInList(Current(), dir, list[i..])
      {
        assert list[i..][0] == list[i] && list[i..][1..] == list[i + 1..];
        var key := Key(dir, list[i].name);
        if key in rules {
          var stored := Canonical(if dir in configs then configs[dir] else NO_CONFIG, rules[key]);
          if RuleOutputs(stored).incomplete {
            return Some(Producer(stored, dir));
          }
        }
      }
      return None;
    }

    // ---- Ownership by an output tree ----

    /** A memo kept from before remembers no directory whose rules were then unobserved. */
    ghost predicate NoneUnobserved()
      reads this`memo
    {
      memo.Some? ==> forall d :: d in memo.value.trees ==> memo.value.trees[d].observed
    }

    /** No tree is remembered that would still be answered with. */
    ghost predicate NoTrees()
      reads this`memo, this`index, this`listEpoch, this`outputsGeneration
    {
      memo.Some? && memo.value.stamp == Stamp(index, listEpoch, outputsGeneration) ==> memo.value.trees == map[]
    }

    /** The trees around the directory's files, unless some package from there to the root is not all stored. */
    method AncestorTreesAt(dir: Path) returns (r: AncestorTrees)
      requires Valid() && index.Some?
      modifies this`outputIndex, this`memo
      ensures Valid() && memo.Some?
      ensures r.observed ==> TreesStand(Current(), dir, r.trees)
      ensures r.observed && old(NoTrees()) ==> r.trees == ScanTrees(Current(), dir) && AllStoredUpTo(Current(), dir)
      ensures old(NoneUnobserved()) && AllStoredUpTo(Current(), dir) ==> r.observed && NoneUnobserved()
      decreases |dir|
    {
      RefreshMemo();
      if dir in memo.value.trees {
        return memo.value.trees[dir];
      }
      var trees, observed := PackageTrees(dir);
      if observed {
        if dir == [] {
          RootStands(Current());
        } else {
          var above := AncestorTreesAt(Parent(dir));
          if above.observed {
            StandsBelow(Current(), dir, above.trees);
          }
          trees, observed := trees + above.trees, above.observed;
        }
      }
      r := AncestorTrees(trees, observed);
      RememberTrees(dir, r);
    }

    method RememberTrees(dir: Path, r: AncestorTrees)
      requires Valid() && index.Some? && (r.observed ==> TreesStand(Current(), dir, r.trees))
      modifies this`memo
      ensures Valid() && memo.Some? && (old(NoneUnobserved()) && r.observed ==> NoneUnobserved())
    {
      RefreshMemo();
      memo := Some(memo.value.(trees := memo.value.trees[dir := r]));
    }

    /** The package's own trees, from its index. */
    method PackageTrees(dir: Path) returns (trees: seq<OutputTree>, observed: bool)
      requires Valid()
      modifies this`outputIndex
      ensures Valid()
      ensures observed ==> AllStored(rules, dir, ListAt(Current(), dir))
      ensures observed ==> trees == TreesInList(Current(), dir, ListAt(Current(), dir))
      ensures observed <==> (dir in files ==> AllStored(rules, dir, ListAt(Current(), dir)))
    {
      if dir !in files {
        return [], true;
      }
      var outputs := PackageOutputsAt(dir);
      if outputs.None? {
        return [], false;
      }
      IndexAnswers(Current(), dir, outputs.value, dir);
      return TreesNamed(dir, outputs.value.trees, outputs.value.producers), true;
    }

    /** The longest output tree around a file: always the one the unindexed scan of the current rules keeps. */
    method TreeProducer(file: Path) returns (r: Option<OutputTree>)
      requires Valid()
      modifies this`rules, this`clock, this`outputsGeneration, this`registered, this`outputIndex, this`memo
      ensures Valid() && Observes(old(Current()), Current())
      ensures r == ScanTree(old(Current()), file)
    {
      if index.Some? {
        var known := AncestorTreesAt(Parent(file));
        if known.observed {
          StandsNow(Current(), file, known.trees);
          r := Longest(known.trees, file, None);
          return;
        }
      }
      r := DeclaredTree(file);
    }

    method DeclaredTree(file: Path) returns (best: Option<OutputTree>)
      requires Valid()
      modifies this`rules, this`clock, this`outputsGeneration, this`registered, this`outputIndex
      ensures Valid() && Observes(old(Current()), Current())
      ensures best == ScanTree(old(Current()), file)
    {
      ghost var v := Current();
      var dir := Parent(file);
      best := PackageTree(dir, file, None);
      TreesStep(v, dir, file, None);
      while dir != []
        invariant Valid() && Observes(v, Current())
        invariant ScanTree(v, file) == if dir == [] then best else LongestTree(ScanTrees(v, Parent(dir)), file, best)
        decreases |dir|
      {
        dir := Parent(dir);
        TreesStep(v, dir, file, best);
        ListSameEffect(v, Current(), dir, ListAt(v, dir), file);
        best := PackageTree(dir, file, best);
      }
    }

    /** The longest tree so far and among the package's own. */
    method PackageTree(dir: Path, file: Path, best: Option<OutputTree>) returns (r: Option<OutputTree>)
      requires Valid()
      modifies this`rules, this`clock, this`outputsGeneration, this`registered, this`outputIndex
      ensures Valid() && Observes(old(Current()), Current())
      ensures r == LongestTree(TreesInList(old(Current()), dir, ListAt(old(Current()), dir)), file, best)
    {
      if dir !in files {
        return best;
      }
      var outputs := PackageOutputsAt(dir);
      if outputs.Some? {
        IndexAnswers(Current(), dir, outputs.value, file);
        r := Longest(TreesNamed(dir, outputs.value.trees, outputs.value.producers), file, best);
        return;
      }
      r := ListTree(dir, file, best);
    }

    method ListTree(dir: Path, file: Path, best: Option<OutputTree>) returns (r: Option<OutputTree>)
      requires Valid() && dir in files
      modifies this`rules, this`clock, this`outputsGeneration, this`registered
      ensures Valid() && Observes(old(Current()), Current())
      ensures r == LongestTree(TreesInList(old(Current()), dir, ListAt(old(Current()), dir)), file, best)
    {
      ghost var v := Current();
      var list := lists[files[dir]];
      r := best;
      for i := 0 to |list|
        invariant Valid() && Observes(v, Current())
        invariant LongestTree(TreesInList(v, dir, list[i..]), file, r)
                  == LongestTree(TreesInList(v, dir, list), file, best)
      {
        if Key(dir, list[i].name) !in rules {
          ObserveBuild(dir);
        }
        assert Effective(Current(), dir, list[i].name) == Effective(v, dir, list[i].name);
        var config := if dir in configs then configs[dir] else NO_CONFIG;
        var stored := Canonical(config, rules[Key(dir, list[i].name)]);
        var tree := RuleOutputs(stored).tree;
        TreesNext(v, dir, list, i, rules[Key(dir, list[i].name)], file, r);
        if tree.Some? {
          var t := OutputTree(dir + tree.value, Producer(stored, dir));
          if t.root <= file && (r.None? || |t.root| > |r.value.root|) {
            r := Some(t);
          }
        }
      }
    }

    lemma CachedHolds(dir: Path, cached: PackageOutputs, list: seq<Rule>)
      requires Valid() && dir in outputIndex && outputIndex[dir] == cached && dir in files && list == lists[files[dir]]
      requires cached.file == files[dir] && cached.version == VersionAt(clock, dir)
      requires (cached.epoch == listEpoch || cached.rules == list)
      ensures cached.rules == list && Indexes(dir, cached)
      ensures Produces(rules, dir, cached.config, list, cached.producers)
      ensures IndexHolds(Current(), clock, listEpoch, dir, cached.(epoch := listEpoch))
    {
      assert IndexHolds(Current(), clock, listEpoch, dir, cached);
    }
  }

  /** No listed name outputs this file. */
  ghost predicate PassedIn(v: View, dir: Path, list: seq<Rule>, file: Path) {
    forall r :: r in list ==> !(Effective(v, dir, r.name).Some? && ListsFile(v, dir, r.name, file))
  }

  lemma PassedInGrows(v: View, v': View, dir: Path, list: seq<Rule>, file: Path)
    requires Observes(v, v') && PassedIn(v, dir, list, file)
    ensures PassedIn(v', dir, list, file)
  {
    forall r | r in list
      ensures !(Effective(v', dir, r.name).Some? && ListsFile(v', dir, r.name, file))
    {
      assert Effective(v', dir, r.name) == Effective(v, dir, r.name);
    }
  }

  lemma {:induction false} PassedInKnown(v: View, dir: Path, list: seq<Rule>, i: nat, file: Path)
    requires i <= |list| && PassedIn(v, dir, list[..i], file)
    ensures KnownInList(v, dir, list, file) == KnownInList(v, dir, list[i..], file)
    decreases |list|
  {
    if i > 0 {
      assert list[0] in list[..i] && list[1..][i - 1..] == list[i..];
      assert forall r :: r in list[1..][..i - 1] ==> r in list[..i];
      PassedInKnown(v, dir, list[1..], i - 1, file);
    }
  }

  /** One more listed rule answers for the file, or is passed too. */
  lemma FileNext(v: View, dir: Path, list: seq<Rule>, i: nat, stored: Rule, file: Path)
    requires i < |list| && PassedIn(v, dir, list[..i], file) && Stored(v, Key(dir, list[i].name)) == Some(stored)
    ensures var r := Canonical(ConfigOf(v, dir), stored);
            if exists o :: o in RuleOutputs(r).files && dir + o == file
            then KnownInList(v, dir, list, file) == Some(Some(Producer(r, dir)))
            else PassedIn(v, dir, list[..i + 1], file)
  {
    KnownListSplit(v, dir, list, i, file);
    PassedInKnown(v, dir, list, i, file);
    assert list[..i + 1] == list[..i] + [list[i]];
  }

  /** The first longest tree around the file, by one pass over the list. */
  method Longest(trees: seq<OutputTree>, file: Path, best: Option<OutputTree>) returns (r: Option<OutputTree>)
    ensures r == LongestTree(trees, file, best)
  {
    r := best;
    for i := 0 to |trees|
      invariant LongestTree(trees[i..], file, r) == LongestTree(trees, file, best)
    {
      assert trees[i..][0] == trees[i] && trees[i..][1..] == trees[i + 1..];
      if trees[i].root <= file && (r.None? || |trees[i].root| > |r.value.root|) {
        r := Some(trees[i]);
      }
    }
  }

  /** What one more listed rule does to the longest tree so far. */
  lemma TreesNext(v: View, dir: Path, list: seq<Rule>, i: nat, stored: Rule, file: Path, best: Option<OutputTree>)
    requires i < |list| && Effective(v, dir, list[i].name) == Some(stored)
    ensures var r := Canonical(ConfigOf(v, dir), stored);
            var tree := RuleOutputs(r).tree;
            LongestTree(TreesInList(v, dir, list[i..]), file, best) ==
            LongestTree(TreesInList(v, dir, list[i + 1..]), file,
                        if tree.Some? && dir + tree.value <= file
                           && (best.None? || |dir + tree.value| > |best.value.root|)
                        then Some(OutputTree(dir + tree.value, Producer(r, dir))) else best)
  {
    var r := Canonical(ConfigOf(v, dir), stored);
    var one := if RuleOutputs(r).tree.Some? then [OutputTree(dir + RuleOutputs(r).tree.value, Producer(r, dir))]
        else [];
    assert list[i..][0] == list[i] && list[i..][1..] == list[i + 1..];
    assert TreesInList(v, dir, list[i..]) == one + TreesInList(v, dir, list[i + 1..]);
    LongestTreeJoin(one, TreesInList(v, dir, list[i + 1..]), file, best);
    if one != [] {
      assert one[1..] == [];
    }
  }

  lemma TreesStep(v: View, dir: Path, file: Path, best: Option<OutputTree>)
    ensures LongestTree(ScanTrees(v, dir), file, best) ==
            var here := LongestTree(TreesInList(v, dir, ListAt(v, dir)), file, best);
            if dir == [] then here else LongestTree(ScanTrees(v, Parent(dir)), file, here)
  {
    var here, above := TreesInList(v, dir, ListAt(v, dir)), if dir == [] then [] else ScanTrees(v, Parent(dir));
    LongestTreeJoin(here, above, file, best);
  }

  lemma CachePut(v: View, clock: Clock, listEpoch: nat, outputs: map<Path, PackageOutputs>,
                 registered: map<Path, RegisteredBuild>, dir: Path, po: PackageOutputs)
    requires CachesHold(v, clock, listEpoch, outputs, registered) && IndexHolds(v, clock, listEpoch, dir, po)
    ensures CachesHold(v, clock, listEpoch, outputs[dir := po], registered)
  {
  }

  /** A listed rule whose name is still unstored, after all before it are stored, is the first of its name. */
  lemma {:induction false} FirstUnstored(v: View, dir: Path, list: seq<Rule>, i: nat)
    requires i < |list| && AllStored(v.rules, dir, list[..i]) && Key(dir, list[i].name) !in v.rules
    ensures FirstListed(list, list[i].name) == Some(list[i])
    decreases |list|
  {
    if i > 0 {
      assert list[0] in list[..i] && list[1..][i - 1] == list[i];
      assert forall r :: r in list[1..][..i - 1] ==> r in list[..i];
      FirstUnstored(v, dir, list[1..], i - 1);
    }
  }

  // ---- What observing stores ----

  /**
   * The package's names in this list are stored as first listed where nothing stored them before; nothing else changes.
   */
  ghost predicate StoredHere(v: View, v': View, dir: Path, list: seq<Rule>) {
    var here := forall k :: Stored(v', k) == if k in v.rules || k.dir != dir then Stored(v, k)
        else FirstListed(list, k.name);
    here
  }

  /** Every rule of every package from the root down to dir is stored. */
  ghost predicate AllStoredUpTo(v: View, dir: Path)
    decreases |dir|
  {
    (dir in v.files ==> AllStored(v.rules, dir, ListAt(v, dir))) && (dir != [] ==> AllStoredUpTo(v, Parent(dir)))
  }

  /** So it is at every package from the root down to dir. */
  ghost predicate StoredUpTo(v: View, v': View, dir: Path) {
    var up := forall k :: Stored(v', k) == if k in v.rules || !(k.dir <= dir) then Stored(v, k)
        else FirstListed(ListAt(v, k.dir), k.name);
    up
  }

  lemma StoredNext(v: View, above: View, v': View, dir: Path)
    requires v.files == above.files && v.lists == above.lists
    requires if dir == [] then above == v else StoredUpTo(v, above, Parent(dir))
    requires StoredHere(above, v', dir, ListAt(v, dir))
    ensures StoredUpTo(v, v', dir)
  {
    forall k
      ensures Stored(v', k) == if k in v.rules || !(k.dir <= dir) then Stored(v, k)
          else FirstListed(ListAt(v, k.dir), k.name)
    {
      assert k.dir <= dir <==> k.dir == dir || (dir != [] && k.dir <= Parent(dir));
      assert k in above.rules <==> Stored(above, k).Some?;
      assert k in v.rules <==> Stored(v, k).Some?;
    }
  }

  lemma AlreadyStored(v: View, dir: Path)
    requires AllStored(v.rules, dir, ListAt(v, dir))
    ensures StoredHere(v, v, dir, ListAt(v, dir))
  {
    forall k | k !in v.rules && k.dir == dir
      ensures FirstListed(ListAt(v, dir), k.name).None?
    {
      FirstListedNamed(ListAt(v, dir), k.name);
    }
  }

  lemma {:induction false} FirstListedJoin(a: seq<Rule>, b: seq<Rule>, name: Name)
    ensures FirstListed(a + b, name) == if FirstListed(a, name).Some? then FirstListed(a, name)
        else FirstListed(b, name)
    decreases |a|
  {
    if a == [] {
      assert a + b == b;
    } else {
      assert (a + b)[1..] == a[1..] + b;
      FirstListedJoin(a[1..], b, name);
    }
  }

  lemma StoredMore(v: View, before: View, v': View, dir: Path, list: seq<Rule>, i: nat)
    requires i < |list| && StoredHere(v, before, dir, list[..i]) && v.rules.Keys <= before.rules.Keys
    requires v'.rules == if Key(dir, list[i].name) in before.rules then before.rules
        else before.rules[Key(dir, list[i].name) := list[i]]
    ensures StoredHere(v, v', dir, list[..i + 1])
  {
    assert list[..i + 1] == list[..i] + [list[i]];
    forall k
      ensures Stored(v', k) == if k in v.rules || k.dir != dir then Stored(v, k) else FirstListed(list[..i + 1], k.name)
    {
      FirstListedJoin(list[..i], [list[i]], k.name);
      assert k in before.rules <==> Stored(before, k).Some?;
    }
  }
}
