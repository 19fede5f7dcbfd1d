/**
 * The order-free supply as counts of who supplies what, and a reverse index from each file
 * and target to the dropped dependencies that read it.
 */
module FixedSupplies {
  import Sets
  import opened Graphs
  import opened Wrappers
  import opened Supply

  /** What one dependency supplies that a dependency edge reads, and the scopes it claims. */
  datatype DependencySupply = DependencySupply(files: set<File>, targets: seq<Target>, claims: set<File>)

  function ReadFiles(c: Consumer): set<File> {
    (set d, e | d in c.requirements && e in c.requirements[d].edges :: e.from)
    + (set d, e | d in c.requirements && e in c.requirements[d].edges :: e.to)
  }

  function ReadTargets(c: Consumer): set<Target> {
    set d | d in c.requirements :: c.requirements[d].target
  }

  function Filter<T(==, !new)>(s: seq<T>, keep: set<T>): (r: seq<T>)
    ensures forall x :: x in r <==> x in s && x in keep
  {
    if s == [] then [] else (if s[0] in keep then [s[0]] else []) + Filter(s[1..], keep)
  }

  function Restricted(c: Consumer, supply: DirectSupply): DependencySupply {
    DependencySupply(supply.files * ReadFiles(c), Filter(supply.targets, ReadTargets(c)),
                     Claimed(supply.inputs, c.demands))
  }

  method RestrictedSupplies(c: Consumer, m: Modes, deps: set<Dep>) returns (r: map<Dep, DependencySupply>)
    ensures r.Keys == deps && forall d {:trigger Direct(c, m, d)} :: d in deps ==>
      r[d] == Restricted(c, Direct(c, m, d))
  {
    r := map[];
    var todo := deps;
    while todo != {}
      invariant todo <= deps && r.Keys == deps - todo
      invariant forall d {:trigger Direct(c, m, d)} :: d in r ==> r[d] == Restricted(c, Direct(c, m, d))
    {
      var d :| d in todo;
      r, todo := r[d := Restricted(c, Direct(c, m, d))], todo - {d};
    }
  }

  function Count<T>(counts: map<T, int>, x: T): int {
    if x in counts then counts[x] else 0
  }

  function At<K, V>(lists: map<K, seq<V>>, k: K): seq<V> {
    if k in lists then lists[k] else []
  }

  // ---- Counting over a set of dependencies ----

  ghost function Tally<X>(bags: Dep -> multiset<X>, s: set<Dep>): multiset<X>
  {
    if s == {} then multiset{} else
      var d :| d in s;
      Tally(bags, s - {d}) + bags(d)
  }

  lemma {:induction false} TallyTakes<X>(bags: Dep -> multiset<X>, s: set<Dep>, d: Dep)
    requires d in s
    ensures Tally(bags, s) == Tally(bags, s - {d}) + bags(d)
  {
    var x :| x in s && Tally(bags, s) == Tally(bags, s - {x}) + bags(x);
    if x != d {
      TallyTakes(bags, s - {x}, d);
      TallyTakes(bags, s - {d}, x);
      assert s - {x} - {d} == s - {d} - {x};
    }
  }

  lemma {:induction false} TallyHolds<X>(bags: Dep -> multiset<X>, s: set<Dep>, x: X)
    ensures x in Tally(bags, s) <==> exists d :: d in s && x in bags(d)
  {
    if s != {} {
      var d :| d in s && Tally(bags, s) == Tally(bags, s - {d}) + bags(d);
      TallyHolds(bags, s - {d}, x);
      assert forall y :: y in s <==> y in s - {d} || y == d;
    }
  }

  function Changed(count: int, delta: int, times: nat): int {
    if delta == 1 then count + times else count - times
  }

  function Append<K, V>(lists: map<K, seq<V>>, k: K, v: V): map<K, seq<V>> {
    lists[k := At(lists, k) + [v]]
  }

  ghost predicate Tallied<X(!new)>(counts: map<X, int>, bags: Dep -> multiset<X>, s: set<Dep>) {
    forall x {:trigger Tally(bags, s)[x]} :: Count(counts, x) == Tally(bags, s)[x]
  }

  /** counts' is counts with one dependency's bag counted in or out. */
  ghost predicate Recounted<X(!new)>(counts: map<X, int>, counts': map<X, int>, delta: int, bag: multiset<X>) {
    forall x {:trigger Count(counts', x)} :: Count(counts', x) == Changed(Count(counts, x), delta, bag[x])
  }

  lemma TalliedIn<X(!new)>(counts: map<X, int>, counts': map<X, int>, bags: Dep -> multiset<X>, s: set<Dep>, d: Dep)
    requires Tallied(counts, bags, s) && d !in s && Recounted(counts, counts', 1, bags(d))
    ensures Tallied(counts', bags, s + {d})
  {
    TallyTakes(bags, s + {d}, d);
    assert s + {d} - {d} == s;
    forall x
      ensures Count(counts', x) == Tally(bags, s + {d})[x]
    {
      assert Tally(bags, s)[x] == Count(counts, x);
    }
  }

  lemma TalliedOut<X(!new)>(counts: map<X, int>, counts': map<X, int>, bags: Dep -> multiset<X>, s: set<Dep>, d: Dep)
    requires Tallied(counts, bags, s) && d in s && Recounted(counts, counts', -1, bags(d))
    ensures Tallied(counts', bags, s - {d})
  {
    TallyTakes(bags, s, d);
    forall x
      ensures Count(counts', x) == Tally(bags, s - {d})[x]
    {
      assert Tally(bags, s)[x] == Count(counts, x);
    }
  }

  /** A count covers a member's own bag, and exceeds it exactly when another member's bag shares the item. */
  lemma TalliedCovers<X(!new)>(counts: map<X, int>, bags: Dep -> multiset<X>, s: set<Dep>, d: Dep)
    requires Tallied(counts, bags, s) && d in s
    ensures forall x :: bags(d)[x] <= Count(counts, x)
    ensures forall x :: Count(counts, x) > bags(d)[x] <==> exists other :: other in s && other != d && x in bags(other)
  {
    TallyTakes(bags, s, d);
    forall x
      ensures bags(d)[x] <= Count(counts, x)
      ensures Count(counts, x) > bags(d)[x] <==> exists other :: other in s && other != d && x in bags(other)
    {
      assert Tally(bags, s)[x] == Count(counts, x);
      TallyHolds(bags, s - {d}, x);
      assert forall other :: other in s - {d} <==> other in s && other != d;
    }
  }

  ghost function FileBags(supplies: map<Dep, DependencySupply>): Dep -> multiset<File> {
    d => if d in supplies then multiset(supplies[d].files) else multiset{}
  }

  ghost function TargetBags(supplies: map<Dep, DependencySupply>): Dep -> multiset<Target> {
    d => if d in supplies then multiset(supplies[d].targets) else multiset{}
  }

  ghost function ClaimBags(supplies: map<Dep, DependencySupply>): Dep -> multiset<File> {
    d => if d in supplies then multiset(supplies[d].claims) else multiset{}
  }

  /** The three counts, as one value. */
  datatype Counts = Counts(files: map<File, int>, targets: map<Target, int>, claims: map<File, int>)

  ghost predicate CountsOf(supplies: map<Dep, DependencySupply>, counts: Counts, retained: set<Dep>) {
    var tallied := Tallied(counts.files, FileBags(supplies), retained)
                   && Tallied(counts.targets, TargetBags(supplies), retained)
                   && Tallied(counts.claims, ClaimBags(supplies), retained);
    tallied
  }

  ghost predicate RecountedBy(counts: Counts, counts': Counts, delta: int, supply: DependencySupply) {
    var recounted := Recounted(counts.files, counts'.files, delta, multiset(supply.files))
                     && Recounted(counts.targets, counts'.targets, delta, multiset(supply.targets))
                     && Recounted(counts.claims, counts'.claims, delta, multiset(supply.claims));
    recounted
  }

  lemma CountsIn(supplies: map<Dep, DependencySupply>, counts: Counts, counts': Counts, s: set<Dep>, d: Dep)
    requires CountsOf(supplies, counts, s) && d in supplies && d !in s && RecountedBy(counts, counts', 1, supplies[d])
    ensures CountsOf(supplies, counts', s + {d})
  {
    TalliedIn(counts.files, counts'.files, FileBags(supplies), s, d);
    TalliedIn(counts.targets, counts'.targets, TargetBags(supplies), s, d);
    TalliedIn(counts.claims, counts'.claims, ClaimBags(supplies), s, d);
  }

  lemma CountsOut(supplies: map<Dep, DependencySupply>, counts: Counts, counts': Counts, s: set<Dep>, d: Dep)
    requires CountsOf(supplies, counts, s) && d in s && d in supplies && RecountedBy(counts, counts', -1, supplies[d])
    ensures CountsOf(supplies, counts', s - {d})
  {
    TalliedOut(counts.files, counts'.files, FileBags(supplies), s, d);
    TalliedOut(counts.targets, counts'.targets, TargetBags(supplies), s, d);
    TalliedOut(counts.claims, counts'.claims, ClaimBags(supplies), s, d);
  }

  datatype Index = Index(readers: map<File, seq<Dep>>, needs: map<Target, seq<Dep>>)

  /** The index names exactly dropped dependencies, and under each file and target all that read it. */
  ghost predicate IndexOf(c: Consumer, index: Index, dropped: set<Dep>)
    requires dropped <= c.requirements.Keys
  {
    && (forall f, d :: d in At(index.readers, f) ==> d in dropped)
    && (forall t, d :: d in At(index.needs, t) ==> d in dropped)
    && (forall d :: d in dropped ==> d in At(index.needs, c.requirements[d].target))
    && (forall d, e :: d in dropped && e in c.requirements[d].edges ==>
          ReadsIndexed(c.requirements[d], index.readers, d, e))
  }

  predicate ReadsIndexed(r: Requirement, readers: map<File, seq<Dep>>, d: Dep, e: Edge) {
    d in At(readers, e.from) && (ReadsTo(r, e) ==> d in At(readers, e.to))
  }

  lemma Appended<K, V>(lists: map<K, seq<V>>, k: K, v: V)
    ensures v in At(Append(lists, k, v), k)
    ensures forall k', v' :: v' in At(Append(lists, k, v), k') <==> v' in At(lists, k') || (k' == k && v' == v)
  {
  }

  /** The edge's second file decides whether the edge is supplied. */
  predicate ReadsTo(r: Requirement, e: Edge) {
    !StaticSupply(r, e) && e.to.form == Source
  }

  class FixedSupply {
    const c: Consumer
    ghost const modes: Modes
    // The dependencies still counted.
    ghost var retained: set<Dep>
    var supplies: map<Dep, DependencySupply>
    var files: map<File, int>
    var targets: map<Target, int>
    var claims: map<File, int>
    var readers: map<File, seq<Dep>>
    var needs: map<Target, seq<Dep>>
    var codegen: map<(Target, File), bool>
    var blocked: bool

    ghost function Dropped(): set<Dep>
      reads this`retained
    {
      c.requirements.Keys - retained
    }

    ghost predicate SuppliesRead()
      reads this`supplies
    {
      forall d {:trigger Direct(c, modes, d)} :: d in supplies ==> supplies[d] == Restricted(c, Direct(c, modes, d))
    }

    /** The counts are those of the retained dependencies' restricted supplies. */
    ghost predicate Counted()
      reads this`retained, this`supplies, this`files, this`targets, this`claims
    {
      && retained <= supplies.Keys
      && retained <= c.requirements.Keys
      && SuppliesRead()
      && CountsOf(supplies, Counts(files, targets, claims), retained)
    }

    ghost predicate Indexed(dropped: set<Dep>)
      reads this`readers, this`needs
      requires dropped <= c.requirements.Keys
    {
      IndexOf(c, Index(readers, needs), dropped)
    }

    ghost predicate CodegenCached()
      reads this`codegen
    {
      forall k :: k in codegen ==> codegen[k] == CodegenUnsupplied(c, k.0, k.1)
    }

    /** Blocked means some dropped dependency is already unsupplied. */
    ghost predicate Valid()
      reads this
    {
      var valid := Counted() && Indexed(Dropped()) && CodegenCached() && (blocked <==> !Covers(c, modes, retained));
      valid
    }

    /** The counts answer membership of the files read and the targets resolved to. */
    ghost predicate Answers(fs: set<File>, ts: set<Target>)
      reads this`files, this`targets
    {
      && (forall f :: f in ReadFiles(c) ==> (Supplied(f) <==> f in fs))
      && (forall t :: t in ReadTargets(c) ==> (Count(targets, t) > 0 <==> t in ts))
      && (forall f :: Count(files, f) >= 0)
      && (forall t :: Count(targets, t) >= 0)
    }

    lemma CountsAnswer()
      requires Counted()
      ensures Answers(FilesOf(c, modes, retained), TargetsOf(c, modes, retained))
    {
      forall f
        ensures f in ReadFiles(c) ==> (Supplied(f) <==> f in FilesOf(c, modes, retained))
        ensures Count(files, f) >= 0
      {
        FileCountAnswers(f);
      }
      forall t
        ensures t in ReadTargets(c) ==> (Count(targets, t) > 0 <==> t in TargetsOf(c, modes, retained))
        ensures Count(targets, t) >= 0
      {
        TargetCountAnswers(t);
      }
    }

    lemma FileCountAnswers(f: File)
      requires Counted()
      ensures f in ReadFiles(c) ==> (Supplied(f) <==> f in FilesOf(c, modes, retained))
      ensures Count(files, f) >= 0
    {
      TallyHolds(FileBags(supplies), retained, f);
      if f in ReadFiles(c) && f !in c.roots {
        if d :| d in retained && f in FileBags(supplies)(d) {
          assert f in Direct(c, modes, d).files;
        }
        if f in FilesOf(c, modes, retained) {
          var d :| d in retained && f in Direct(c, modes, d).files;
          assert f in supplies[d].files;
          assert f in FileBags(supplies)(d);
        }
      }
    }

    lemma TargetCountAnswers(t: Target)
      requires Counted()
      ensures t in ReadTargets(c) ==> (Count(targets, t) > 0 <==> t in TargetsOf(c, modes, retained))
      ensures Count(targets, t) >= 0
    {
      TallyHolds(TargetBags(supplies), retained, t);
      if t in ReadTargets(c) {
        if d :| d in retained && t in TargetBags(supplies)(d) {
          assert t in Direct(c, modes, d).targets;
        }
        if t in TargetsOf(c, modes, retained) {
          var d :| d in retained && t in Direct(c, modes, d).targets;
          assert t in supplies[d].targets;
          assert t in TargetBags(supplies)(d);
        }
      }
    }

    /** One claim counted means the candidate alone claims the scope. */
    lemma ClaimCountAnswers(candidate: Dep, f: File)
      requires Counted() && candidate in retained
      ensures Count(claims, f) > 0 <==> ClaimedBy(c, modes, retained, f)
      ensures ClaimedBy(c, modes, retained - {candidate}, f)
              <==> Count(claims, f) > (if f in supplies[candidate].claims then 1 else 0)
    {
      TallyTakes(ClaimBags(supplies), retained, candidate);
      ClaimTallyHolds(retained, f);
      ClaimTallyHolds(retained - {candidate}, f);
    }

    lemma ClaimTallyHolds(s: set<Dep>, f: File)
      requires Counted() && s <= retained
      ensures f in Tally(ClaimBags(supplies), s) <==> ClaimedBy(c, modes, s, f)
    {
      TallyHolds(ClaimBags(supplies), s, f);
      if d :| d in s && f in ClaimBags(supplies)(d) {
        assert Claims(Direct(c, modes, d).inputs, c.demands, f);
      }
      if d :| d in s && Claims(Direct(c, modes, d).inputs, c.demands, f) {
        assert f in ClaimBags(supplies)(d);
      }
    }

    constructor (c: Consumer, run: Run, retained: set<Dep>)
      requires retained <= c.requirements.Keys && Settled(c, run, retained)
      ensures Valid() && this.c == c && modes == run.modes && this.retained == retained
    {
      // Every owner is settled, so reading the supplies promotes nothing.
      var read := RestrictedSupplies(c, run.modes, retained);
      this.c, modes, this.retained, supplies := c, run.modes, {}, read;
      files, targets, claims := map[], map[], map[];
      readers, needs, codegen, blocked := map[], map[], map[], false;
      new;
      CountAll(retained);
      IndexAll(c.requirements.Keys - retained);
    }

    /** Builds the index beside counts that are complete. */
    method IndexAll(dropped: set<Dep>)
      requires Counted() && dropped == Dropped() && readers == map[] && needs == map[] && codegen == map[] && !blocked
      modifies this`readers, this`needs, this`codegen, this`blocked
      ensures Valid()
    {
      CountsAnswer();
      IndexDropped(dropped);
    }

    method CountAll(all: set<Dep>)
      requires Counted() && retained == {} && all <= supplies.Keys && all <= c.requirements.Keys
      modifies this`retained, this`files, this`targets, this`claims
      ensures Counted() && retained == all
    {
      var todo := all;
      while todo != {}
        invariant todo <= all && retained == all - todo && Counted()
      {
        var d :| d in todo;
        todo := todo - {d};
        CountIn(d);
      }
    }

    method CountIn(candidate: Dep)
      requires Counted() && candidate in supplies && candidate in c.requirements && candidate !in retained
      modifies this`retained, this`files, this`targets, this`claims
      ensures Counted() && retained == old(retained) + {candidate}
    {
      ghost var rest, counts := retained, Counts(files, targets, claims);
      var _, _ := Add(candidate, 1);
      retained := rest + {candidate};
      CountsIn(supplies, counts, Counts(files, targets, claims), rest, candidate);
    }

    /** Indexes the dependencies already dropped; one left unsupplied keeps every later candidate. */
    method IndexDropped(dropped: set<Dep>)
      requires dropped == Dropped() && Answers(FilesOf(c, modes, retained), TargetsOf(c, modes, retained))
      requires Indexed({}) && CodegenCached() && !blocked
      modifies this`readers, this`needs, this`codegen, this`blocked
      ensures Indexed(dropped) && CodegenCached() && (blocked <==> !Covers(c, modes, retained))
    {
      var todo := dropped;
      ghost var fs, ts := FilesOf(c, modes, retained), TargetsOf(c, modes, retained);
      assert dropped - todo == {};
      while todo != {}
        invariant todo <= dropped && Indexed(dropped - todo) && CodegenCached()
        invariant blocked <==> exists d :: d in dropped - todo && Unsupplied(c, d, fs, ts)
      {
        var d :| d in todo;
        ghost var done := dropped - todo;
        IndexNext(d, done, fs, ts);
        todo := todo - {d};
        assert dropped - todo == done + {d};
      }
      assert dropped - todo == dropped;
      assert forall d :: d in Stranded(c, modes, retained) <==> d in dropped && Unsupplied(c, d, fs, ts);
    }

    method IndexNext(d: Dep, ghost done: set<Dep>, ghost fs: set<File>, ghost ts: set<Target>)
      requires Answers(fs, ts) && CodegenCached() && done <= c.requirements.Keys && Indexed(done) && d in c.requirements
      modifies this`readers, this`needs, this`codegen, this`blocked
      ensures Indexed(done + {d}) && CodegenCached()
      ensures blocked <==> old(blocked) || Unsupplied(c, d, fs, ts)
    {
      AddToIndex(d, done);
      var unsupplied := IsUnsupplied(d, fs, ts);
      if unsupplied {
        blocked := true;
      }
    }

    /** Counts one dependency in or out, naming what no counted dependency supplies any more. */
    method Add(dep: Dep, delta: int) returns (lost: seq<File>, lostTargets: seq<Target>)
      requires dep in supplies && (delta == 1 || delta == -1)
      requires delta == -1 ==> forall t :: multiset(supplies[dep].targets)[t] <= Count(targets, t)
      modifies this`files, this`targets, this`claims
      ensures RecountedBy(old(Counts(files, targets, claims)), Counts(files, targets, claims), delta, supplies[dep])
      ensures forall f :: f in lost <==> f in supplies[dep].files && Count(files, f) == 0
      ensures delta == -1 ==> forall t :: t in lostTargets <==> t in supplies[dep].targets && Count(targets, t) == 0
    {
      var supply := supplies[dep];
      files, lost := AddSet(files, supply.files, delta);
      targets, lostTargets := AddAll(targets, supply.targets, delta);
      var counted, _ := AddSet(claims, supply.claims, delta);
      claims := counted;
    }

    /** Whether leaving the candidate out leaves some demanded scope to the walk. */
    method WalksWithout(candidate: Dep) returns (walks: bool)
      requires Counted() && candidate in retained
      ensures walks <==> Walks(c, modes, retained - {candidate})
    {
      forall f
        ensures Count(claims, f) > 0 <==> ClaimedBy(c, modes, retained, f)
        ensures ClaimedBy(c, modes, retained - {candidate}, f)
                <==> Count(claims, f) > (if f in supplies[candidate].claims then 1 else 0)
      {
        ClaimCountAnswers(candidate, f);
      }
      walks := CountsWalk(candidate, retained - {candidate});
    }

    method CountsWalk(candidate: Dep, ghost rest: set<Dep>) returns (walks: bool)
      requires candidate in supplies
      requires forall f :: Count(claims, f) > 0 ==> f in c.demands
      requires forall f :: ClaimedBy(c, modes, rest, f) <==>
          Count(claims, f) > (if f in supplies[candidate].claims then 1 else 0)
      ensures walks <==> Walks(c, modes, rest)
    {
      var claimed := set f | f in claims && claims[f] > 0;
      assert claimed <= c.demands.Keys by {
        assert forall f :: f in claimed ==> Count(claims, f) > 0;
      }
      if |claimed| < |c.demands.Keys| {
        assert claimed != c.demands.Keys;
        ghost var f :| f in c.demands && f !in claimed;
        assert Count(claims, f) <= 0;
        return true;
      }
      Sets.Full(claimed, c.demands.Keys);
      var todo := supplies[candidate].claims;
      while todo != {}
        invariant todo <= supplies[candidate].claims
        invariant forall f :: f in supplies[candidate].claims && f !in todo ==> Count(claims, f) != 1
      {
        var f :| f in todo;
        todo := todo - {f};
        if Count(claims, f) == 1 {
          assert f in c.demands && !ClaimedBy(c, modes, rest, f);
          return true;
        }
      }
      forall f | f in c.demands
        ensures ClaimedBy(c, modes, rest, f)
      {
        assert f in claimed;
        assert Count(claims, f) > 0;
      }
      return false;
    }

    predicate Supplied(file: File)
      reads this`files
    {
      file !in c.roots && Count(files, file) > 0
    }

    method AddToIndex(dep: Dep, ghost dropped: set<Dep>)
      requires dep in c.requirements && dropped <= c.requirements.Keys && Indexed(dropped)
      modifies this`readers, this`needs
      ensures Indexed(dropped + {dep})
    {
      var index := IndexReaders(c.requirements[dep], readers, dep);
      IndexGrows(c, readers, needs, index, dropped, dep);
      needs := Append(needs, c.requirements[dep].target, dep);
      readers := index;
    }

    method IsUnsupplied(dep: Dep, ghost fs: set<File>, ghost ts: set<Target>) returns (r: bool)
      requires dep in c.requirements && Answers(fs, ts) && CodegenCached()
      modifies this`codegen
      ensures CodegenCached()
      ensures r <==> Unsupplied(c, dep, fs, ts)
    {
      var required, key := c.requirements[dep], c.requirements[dep].target;
      assert key in ReadTargets(c);
      if required.unconditional || Count(targets, key) == 0 {
        return true;
      }
      for i := 0 to |required.edges|
        invariant CodegenCached()
        invariant forall k :: 0 <= k < i ==> !EdgeUnsupplied(c, required, required.edges[k], fs)
      {
        var e := required.edges[i];
        assert e in required.edges;
        assert e.from in ReadFiles(c) && e.to in ReadFiles(c);
        var unsupplied := !Supplied(e.from);
        if !unsupplied && !StaticSupply(required, e) {
          unsupplied := e.to.form == Source && !Supplied(e.to);
          if !unsupplied {
            if (key, e.to) !in codegen {
              codegen := codegen[(key, e.to) := CodegenUnsupplied(c, key, e.to)];
            }
            unsupplied := codegen[(key, e.to)];
          }
        }
        assert unsupplied <==> EdgeUnsupplied(c, required, e, fs);
        if unsupplied {
          return true;
        }
      }
      return false;
    }

    /** Drops the candidate just when the others cover it and all dropped before it. */
    method Drop(candidate: Dep) returns (dropped: bool)
      requires Valid() && candidate in retained
      modifies this
      ensures Valid() && dropped == Covers(c, modes, old(retained) - {candidate})
      ensures retained == if dropped then old(retained) - {candidate} else old(retained)
    {
      ghost var all, rest := retained, retained - {candidate};
      if blocked {
        BlockedStays(candidate);
        return false;
      }
      var stranded := Strands(candidate);
      if stranded {
        Restore(candidate, all);
      } else {
        Commit(candidate, all);
      }
      dropped := !stranded;
    }

    method Restore(candidate: Dep, ghost all: set<Dep>)
      requires candidate in all && all <= c.requirements.Keys && retained == all - {candidate} && candidate in supplies
      requires Counted() && Indexed(c.requirements.Keys - all) && CodegenCached() && !blocked && Covers(c, modes, all)
      modifies this`retained, this`files, this`targets, this`claims
      ensures Valid() && retained == all
    {
      CountIn(candidate);
      assert retained == all;
    }

    method Commit(candidate: Dep, ghost all: set<Dep>)
      requires candidate in all && all <= c.requirements.Keys && retained == all - {candidate}
      requires Counted() && Indexed(c.requirements.Keys - all) && CodegenCached() && !blocked
      requires Covers(c, modes, retained)
      modifies this`readers, this`needs
      ensures Valid()
    {
      AddToIndex(candidate, c.requirements.Keys - all);
      assert c.requirements.Keys - all + {candidate} == Dropped();
    }

    lemma BlockedStays(candidate: Dep)
      requires retained <= c.requirements.Keys && !Covers(c, modes, retained)
      ensures !Covers(c, modes, retained - {candidate})
    {
      var d :| d in Stranded(c, modes, retained);
      UncoveredMonotone(c, modes, retained, retained - {candidate}, d);
      assert d in Stranded(c, modes, retained - {candidate});
    }

    /** Counts the candidate out, and reports whether that leaves a dropped dependency unsupplied. */
    method Strands(candidate: Dep) returns (stranded: bool)
      requires Counted() && Indexed(Dropped()) && CodegenCached() && candidate in retained && Covers(c, modes, retained)
      modifies this`retained, this`files, this`targets, this`claims, this`codegen
      ensures Counted() && CodegenCached() && retained == old(retained) - {candidate}
      ensures stranded <==> !Covers(c, modes, retained)
    {
      ghost var all := retained;
      assert candidate in c.requirements;
      CountsAnswer();
      var lost, lostTargets := CountOut(candidate);
      CountsAnswer();
      var affected := Affected(candidate, lost, lostTargets);
      AffectedDropped(all, candidate, lost, lostTargets, affected);
      stranded := AnyUnsupplied(affected, FilesOf(c, modes, retained), TargetsOf(c, modes, retained));
      if !stranded {
        NothingStranded(all, candidate, lost, lostTargets, affected);
      } else {
        ghost var d :| d in affected && Uncovered(c, modes, retained, d);
        assert d in Stranded(c, modes, retained);
      }
    }

    lemma NothingStranded(all: set<Dep>, candidate: Dep, lost: seq<File>, lostTargets: seq<Target>, affected: set<Dep>)
      requires all <= c.requirements.Keys && retained == all - {candidate} && Covers(c, modes, all)
      requires Indexed(c.requirements.Keys - all) && AffectedBy(candidate, lost, lostTargets, affected)
      requires affected <= c.requirements.Keys && forall d :: d in affected ==> !Uncovered(c, modes, retained, d)
      requires forall f :: f in ReadFiles(c) && f in FilesOf(c, modes, all) && f !in lost ==>
          f in FilesOf(c, modes, retained)
      requires forall t :: t in ReadTargets(c) && t in TargetsOf(c, modes, all) && t !in lostTargets ==>
          t in TargetsOf(c, modes, retained)
      ensures Covers(c, modes, retained)
    {
      forall d | d in c.requirements && d !in retained
        ensures !Uncovered(c, modes, retained, d)
      {
        if d !in affected {
          assert candidate in affected;
          assert d !in Stranded(c, modes, all);
          UnaffectedStays(all, candidate, lost, lostTargets, affected, d);
        }
      }
    }

    lemma AffectedDropped(all: set<Dep>, candidate: Dep, lost: seq<File>, lostTargets: seq<Target>, affected: set<Dep>)
      requires Indexed(c.requirements.Keys - all) && candidate in c.requirements
      requires AffectedBy(candidate, lost, lostTargets, affected)
      ensures affected <= c.requirements.Keys - all + {candidate}
    {
      forall d | d in affected
        ensures d in c.requirements.Keys - all + {candidate}
      {
        if f :| f in lost && d in At(readers, f) {
        } else if t :| t in lostTargets && d in At(needs, t) {
        }
      }
    }

    lemma UnaffectedStays(all: set<Dep>, candidate: Dep, lost: seq<File>, lostTargets: seq<Target>, affected: set<Dep>,
                          d: Dep)
      requires d in c.requirements && d !in all && d !in affected && !Uncovered(c, modes, all, d)
      requires Indexed(c.requirements.Keys - all) && AffectedBy(candidate, lost, lostTargets, affected)
      requires forall f :: f in ReadFiles(c) && f in FilesOf(c, modes, all) && f !in lost ==>
          f in FilesOf(c, modes, retained)
      requires forall t :: t in ReadTargets(c) && t in TargetsOf(c, modes, all) && t !in lostTargets ==>
          t in TargetsOf(c, modes, retained)
      ensures !Uncovered(c, modes, retained, d)
    {
      var r, fs, ts := c.requirements[d], FilesOf(c, modes, all), TargetsOf(c, modes, all);
      assert r.target in ReadTargets(c);
      forall e | e in r.edges
        ensures e.from in fs ==> e.from in FilesOf(c, modes, retained)
        ensures ReadsTo(r, e) && e.to in fs ==> e.to in FilesOf(c, modes, retained)
      {
        assert ReadsIndexed(r, readers, d, e);
        assert e.from in ReadFiles(c) && e.to in ReadFiles(c);
      }
      StaysSupplied(c, r, fs, ts, FilesOf(c, modes, retained), TargetsOf(c, modes, retained));
    }

    method AnyUnsupplied(deps: set<Dep>, ghost fs: set<File>, ghost ts: set<Target>) returns (found: bool)
      requires deps <= c.requirements.Keys && Answers(fs, ts) && CodegenCached()
      modifies this`codegen
      ensures CodegenCached()
      ensures found <==> exists d :: d in deps && Unsupplied(c, d, fs, ts)
    {
      var todo := deps;
      while todo != {}
        invariant todo <= deps && CodegenCached()
        invariant forall d :: d in deps && d !in todo ==> !Unsupplied(c, d, fs, ts)
      {
        var d :| d in todo;
        todo := todo - {d};
        found := IsUnsupplied(d, fs, ts);
        if found {
          return;
        }
      }
      found := false;
    }

    /** Counts the candidate out; what it alone supplied is lost. */
    method CountOut(candidate: Dep) returns (lost: seq<File>, lostTargets: seq<Target>)
      requires Counted() && candidate in retained
      modifies this`retained, this`files, this`targets, this`claims
      ensures Counted() && retained == old(retained) - {candidate}
      ensures forall f :: f in ReadFiles(c) && f in FilesOf(c, modes, old(retained)) && f !in lost ==>
          f in FilesOf(c, modes, retained)
      ensures forall t :: t in ReadTargets(c) && t in TargetsOf(c, modes, old(retained)) && t !in lostTargets ==>
          t in TargetsOf(c, modes, retained)
    {
      ghost var all, counts := retained, Counts(files, targets, claims);
      TalliedCovers(targets, TargetBags(supplies), all, candidate);
      lost, lostTargets := Add(candidate, -1);
      retained := all - {candidate};
      CountsOut(supplies, counts, Counts(files, targets, claims), all, candidate);
      CountsAnswer();
      CountsAnswer();
      forall f | f in ReadFiles(c) && f in FilesOf(c, modes, all) && f !in lost
        ensures f in FilesOf(c, modes, retained)
      {
        if f !in supplies[candidate].files {
          assert f !in Direct(c, modes, candidate).files;
          FileWithout(c, modes, all, candidate, f);
        }
      }
      forall t | t in ReadTargets(c) && t in TargetsOf(c, modes, all) && t !in lostTargets
        ensures t in TargetsOf(c, modes, retained)
      {
        if t !in supplies[candidate].targets {
          assert t !in Direct(c, modes, candidate).targets;
          TargetWithout(c, modes, all, candidate, t);
        }
      }
    }

    ghost predicate AffectedBy(candidate: Dep, lost: seq<File>, lostTargets: seq<Target>, affected: set<Dep>)
      reads this`readers, this`needs
    {
      forall d :: d in affected <==>
        (d == candidate || (exists f :: f in lost && d in At(readers, f))
         || (exists t :: t in lostTargets && d in At(needs, t)))
    }

    /** The candidate, and every dropped dependency that reads something now lost. */
    method Affected(candidate: Dep, lost: seq<File>, lostTargets: seq<Target>) returns (affected: set<Dep>)
      ensures AffectedBy(candidate, lost, lostTargets, affected)
    {
      affected := {candidate};
      for i := 0 to |lost|
        invariant forall d :: d in affected <==> d == candidate || exists f :: f in lost[..i] && d in At(readers, f)
      {
        affected := affected + Elements(At(readers, lost[i]));
        assert lost[..i + 1] == lost[..i] + [lost[i]];
      }
      assert lost[..|lost|] == lost;
      for i := 0 to |lostTargets|
        invariant forall d :: d in affected <==>
          (d == candidate || (exists f :: f in lost && d in At(readers, f))
           || (exists t :: t in lostTargets[..i] && d in At(needs, t)))
      {
        affected := affected + Elements(At(needs, lostTargets[i]));
        assert lostTargets[..i + 1] == lostTargets[..i] + [lostTargets[i]];
      }
      assert lostTargets[..|lostTargets|] == lostTargets;
    }
  }

  /** Every dependency listed before is still listed, and only dep is new. */
  ghost predicate Lists<K(!new)>(lists: map<K, seq<Dep>>, lists': map<K, seq<Dep>>, dep: Dep) {
    forall k, d {:trigger d in At(lists', k)} {:trigger d in At(lists, k)} ::
      (d in At(lists, k) ==> d in At(lists', k)) && (d in At(lists', k) ==> d in At(lists, k) || d == dep)
  }

  method IndexReaders(r: Requirement, readers: map<File, seq<Dep>>, dep: Dep) returns (index: map<File, seq<Dep>>)
    ensures Lists(readers, index, dep)
    ensures forall e :: e in r.edges ==> ReadsIndexed(r, index, dep, e)
  {
    index := readers;
    for i := 0 to |r.edges|
      invariant Lists(readers, index, dep)
      invariant forall k :: 0 <= k < i ==> ReadsIndexed(r, index, dep, r.edges[k])
    {
      var e := r.edges[i];
      Appended(index, e.from, dep);
      index := Append(index, e.from, dep);
      if ReadsTo(r, e) {
        Appended(index, e.to, dep);
        index := Append(index, e.to, dep);
      }
    }
  }

  lemma IndexGrows(c: Consumer, readers: map<File, seq<Dep>>, needs: map<Target, seq<Dep>>, index: map<File, seq<Dep>>,
                   dropped: set<Dep>, dep: Dep)
    requires dropped <= c.requirements.Keys && IndexOf(c, Index(readers, needs), dropped) && dep in c.requirements
    requires Lists(readers, index, dep)
    requires forall e :: e in c.requirements[dep].edges ==> ReadsIndexed(c.requirements[dep], index, dep, e)
    ensures IndexOf(c, Index(index, Append(needs, c.requirements[dep].target, dep)), dropped + {dep})
  {
    Appended(needs, c.requirements[dep].target, dep);
    forall d, e | d in dropped && e in c.requirements[d].edges
      ensures ReadsIndexed(c.requirements[d], index, d, e)
    {
      assert ReadsIndexed(c.requirements[d], readers, d, e);
    }
  }

  lemma FileWithout(c: Consumer, m: Modes, all: set<Dep>, d: Dep, f: File)
    requires f in FilesOf(c, m, all) && f !in Direct(c, m, d).files
    ensures f in FilesOf(c, m, all - {d})
  {
  }

  lemma TargetWithout(c: Consumer, m: Modes, all: set<Dep>, d: Dep, t: Target)
    requires t in TargetsOf(c, m, all) && t !in Direct(c, m, d).targets
    ensures t in TargetsOf(c, m, all - {d})
  {
  }

  /** A dependency none of whose reads was lost stays supplied. */
  lemma StaysSupplied(c: Consumer, r: Requirement, fs: set<File>, ts: set<Target>, fs': set<File>, ts': set<Target>)
    requires !RequirementUnsupplied(c, r, fs, ts) && r.target in ts'
    requires forall e :: e in r.edges && e.from in fs ==> e.from in fs'
    requires forall e :: e in r.edges && ReadsTo(r, e) && e.to in fs ==> e.to in fs'
    ensures !RequirementUnsupplied(c, r, fs', ts')
  {
    forall e | e in r.edges
      ensures !EdgeUnsupplied(c, r, e, fs')
    {
      assert !EdgeUnsupplied(c, r, e, fs);
    }
  }

  /** Adds delta to the count of each item, naming each that falls to zero. */
  method AddSet<T(==, !new)>(counts: map<T, int>, items: set<T>, delta: int) returns (r: map<T, int>, lost: seq<T>)
    requires delta == 1 || delta == -1
    ensures Recounted(counts, r, delta, multiset(items))
    ensures forall x :: x in lost <==> x in items && Count(r, x) == 0
  {
    r, lost := counts, [];
    var todo := items;
    while todo != {}
      invariant todo <= items
      invariant forall x :: Count(r, x) == if x in items && x !in todo then Count(counts, x) + delta
          else Count(counts, x)
      invariant forall x :: x in lost <==> x in items && x !in todo && Count(r, x) == 0
    {
      var x :| x in todo;
      todo := todo - {x};
      r := r[x := Count(r, x) + delta];
      if r[x] == 0 {
        lost := lost + [x];
      }
    }
  }

  /** Adds delta to the count of each listed item, in turn, naming each that falls to zero. */
  method AddAll<T(==, !new)>(counts: map<T, int>, items: seq<T>, delta: int) returns (r: map<T, int>, lost: seq<T>)
    requires delta == 1 || delta == -1
    requires delta == -1 ==> forall x :: multiset(items)[x] <= Count(counts, x)
    ensures Recounted(counts, r, delta, multiset(items))
    ensures delta == -1 ==> forall x :: x in lost <==> x in items && Count(r, x) == 0
  {
    r, lost := counts, [];
    for i := 0 to |items|
      invariant Recounted(counts, r, delta, multiset(items[..i]))
      invariant delta == -1 ==> forall x :: x in lost <==> x in items[..i] && Count(r, x) == 0
    {
      var x := items[i];
      assert items[..i + 1] == items[..i] + [x];
      assert multiset(items[..i + 1]) == multiset(items[..i]) + multiset{x};
      assert items == items[..i + 1] + items[i + 1..];
      ghost var before := r;
      r := r[x := Count(r, x) + delta];
      assert forall y :: Count(r, y) == if y == x then Count(before, y) + delta else Count(before, y);
      if r[x] == 0 {
        lost := lost + [x];
      }
    }
    assert items[..|items|] == items;
  }
}
