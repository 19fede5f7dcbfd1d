/** The minimization of a consumer's dependencies: the reference loop, the fast loop, and what both keep. */
module Minimize {
  import opened Graphs
  import opened Wrappers
  import opened Supply
  import opened FixedSupplies

  /** The retained dependencies, in candidate order. */
  function Select(order: seq<Dep>, retained: set<Dep>): (r: seq<Dep>)
    ensures forall d :: d in r <==> d in order && d in retained
  {
    if order == [] then [] else (if order[0] in retained then [order[0]] else []) + Select(order[1..], retained)
  }

  /** Minimizing so far: what is retained, and what the source owner was asked. */
  datatype Progress = Progress(retained: set<Dep>, run: Run)

  /**
   * The reference step: recompute the whole supply without the candidate, and keep it if anything dropped lost its
   * supply.
   */
  function ExactStep(w: World, order: seq<Dep>, p: Progress, candidate: Dep): Progress {
    var without := p.retained - {candidate};
    var pass := SuppliedProgramInputs(w, p.run, Select(order, without));
    Progress(if AllSupplied(w.c, without, pass) then without else p.retained + {candidate}, pass.run)
  }

  function Exact(w: World, order: seq<Dep>, todo: seq<Dep>, p: Progress): Progress
    decreases |todo|
  {
    if todo == [] then p else Exact(w, order, todo[1..], ExactStep(w, order, p, todo[0]))
  }

  ghost predicate Distinct<T>(s: seq<T>) {
    forall i, j :: 0 <= i < j < |s| ==> s[i] != s[j]
  }

  /** The order lists each dependency of the consumer once. */
  ghost predicate IsOrder(c: Consumer, order: seq<Dep>) {
    Elements(order) == c.requirements.Keys && Distinct(order)
  }

  lemma SelectElements(order: seq<Dep>, retained: set<Dep>)
    requires retained <= Elements(order)
    ensures Elements(Select(order, retained)) == retained
  {
  }

  /** A reference step drops the candidate just when the rest covers, in the modes its pass reads. */
  lemma StepDrops(w: World, order: seq<Dep>, p: Progress, candidate: Dep, m: Modes)
    requires OrderFree(w.c) && IsOrder(w.c, order) && candidate in p.retained && p.retained <= w.c.requirements.Keys
    requires Reads(w, p.run, Select(order, p.retained - {candidate}), m)
    ensures ExactStep(w, order, p, candidate).retained ==
            if Covers(w.c, m, p.retained - {candidate}) then p.retained - {candidate} else p.retained
  {
    var rest := p.retained - {candidate};
    var ds := Select(order, rest);
    SelectElements(order, rest);
    var pass := SuppliedProgramInputs(w, p.run, ds);
    forall d | d in w.c.requirements
      ensures Unsupplied(w.c, d, SuppliedFiles(w.c, pass), pass.targets) <==> Uncovered(w.c, m, rest, d)
    {
      ReadVerdict(w, p.run, ds, m, d);
    }
    forall d
      ensures d in Stranded(w.c, m, rest)
              <==> d in w.c.requirements && d !in rest && Unsupplied(w.c, d, SuppliedFiles(w.c, pass), pass.targets)
    {
    }
    assert p.retained + {candidate} == p.retained;
  }

  /** A quiet reference step also changes no mode. */
  lemma QuietStep(w: World, order: seq<Dep>, p: Progress, candidate: Dep)
    requires OrderFree(w.c) && IsOrder(w.c, order) && candidate in p.retained && p.retained <= w.c.requirements.Keys
    requires Quiet(w.c, p.run, p.retained - {candidate})
    ensures ExactStep(w, order, p, candidate) ==
            var rest := p.retained - {candidate};
            p.(retained := if Covers(w.c, p.run.modes, rest) then rest else p.retained)
  {
    SelectElements(order, p.retained - {candidate});
    QuietPass(w, p.run, Select(order, p.retained - {candidate}));
    StepDrops(w, order, p, candidate, p.run.modes);
  }

  /** Whether an earlier candidate's walk was already found to ask nothing new. */
  class DependencyMemo {
    var walkComplete: bool

    constructor ()
      ensures !walkComplete
    {
      walkComplete := false;
    }

    ghost predicate Valid(c: Consumer, run: Run, retained: set<Dep>)
      reads this
    {
      walkComplete ==> WalkSettled(c, run, retained)
    }

    /** Whether the scope walk has no owner left to ask for the first time. */
    method IsWalkSettled(c: Consumer, run: Run, retained: set<Dep>) returns (settled: bool)
      requires Valid(c, run, retained)
      modifies this
      ensures Valid(c, run, retained)
      ensures settled <==> WalkSettled(c, run, retained)
    {
      if walkComplete {
        return true;
      }
      settled := ReachesOnly(c.children, Programs(c, retained), run.called);
      // What is retained later walks no further.
      walkComplete := settled;
    }
  }

  /** One candidate over the fixed supply, unless its walk could still ask a new owner. */
  method TryCounted(supply: FixedSupply, memo: DependencyMemo, run: Run, retained: set<Dep>, candidate: Dep)
    returns (counted: bool, dropped: bool)
    requires supply.Valid() && supply.retained == retained && candidate in retained
    requires supply.modes == run.modes && Settled(supply.c, run, retained) && memo.Valid(supply.c, run, retained)
    modifies supply, memo
    ensures supply.Valid() && memo.Valid(supply.c, run, retained) && (!counted ==> !memo.walkComplete)
    ensures counted ==> Quiet(supply.c, run, retained - {candidate})
    ensures counted ==> dropped == Covers(supply.c, run.modes, retained - {candidate})
    ensures supply.retained == if counted && dropped then retained - {candidate} else retained
  {
    var walks := supply.WalksWithout(candidate);
    counted, dropped := true, false;
    if walks {
      counted := memo.IsWalkSettled(supply.c, run, retained);
    }
    if counted {
      FewerSettled(supply.c, run, retained, retained - {candidate});
      dropped := supply.Drop(candidate);
    }
  }

  /** One candidate by recomputing the supply of all the others. */
  method TryExact(w: World, order: seq<Dep>, retained: set<Dep>, run: Run, candidate: Dep)
    returns (dropped: bool, asked: Run)
    requires candidate in retained
    ensures ExactStep(w, order, Progress(retained, run), candidate)
            == Progress(if dropped then retained - {candidate} else retained, asked)
  {
    var without := retained - {candidate};
    var pass := SuppliedProgramInputs(w, run, Select(order, without));
    assert retained + {candidate} == retained;
    return AllSupplied(w.c, without, pass), pass.run;
  }

  /** The fixed supply, while there is one, is that of the retained dependencies, all of them settled. */
  ghost predicate Ready(c: Consumer, supply: FixedSupply?, run: Run, retained: set<Dep>)
    reads supply
  {
    var ready := supply != null ==>
      supply.Valid() && supply.c == c && supply.modes == run.modes && supply.retained == retained
      && OrderFree(c) && Settled(c, run, retained);
    ready
  }

  /** One candidate: counted over a fixed supply once every remaining owner has settled, and otherwise recomputed. */
  method Consider(w: World, order: seq<Dep>, memo: DependencyMemo, orderFree: bool, fixed: FixedSupply?,
                  before: set<Dep>, start: Run, candidate: Dep)
    returns (supply: FixedSupply?, retained: set<Dep>, run: Run)
    requires IsOrder(w.c, order) && orderFree == OrderFree(w.c) && candidate in before
             && before <= w.c.requirements.Keys
    requires memo.Valid(w.c, start, before) && (memo.walkComplete ==> fixed != null) && Ready(w.c, fixed, start, before)
    modifies memo, fixed
    ensures Stepped(w, order, Progress(before, start), candidate, Progress(retained, run))
    ensures memo.Valid(w.c, run, retained) && (memo.walkComplete ==> supply != null)
            && Ready(w.c, supply, run, retained)
    ensures supply == null || supply == fixed || fresh(supply)
  {
    supply, retained, run := fixed, before, start;
    if orderFree && supply == null && Settled(w.c, run, retained) {
      supply := new FixedSupply(w.c, run, retained);
    }
    var counted, dropped := false, false;
    if supply != null {
      counted, dropped := TryCounted(supply, memo, run, retained, candidate);
    }
    if counted {
      QuietStep(w, order, Progress(before, start), candidate);
    } else {
      supply := null;
      dropped, run := TryExact(w, order, retained, run, candidate);
    }
    if dropped {
      FewerSettled(w.c, run, retained, retained - {candidate});
      retained := retained - {candidate};
    }
  }

  /** Always true: asserting it of a value unfolds what is stated below for that value, and nothing else does. */
  ghost predicate Considers(p: Progress) {
    true
  }

  /** What the reference step comes to, for whoever considers it. */
  ghost predicate Stepped(w: World, order: seq<Dep>, p: Progress, candidate: Dep, next: Progress) {
    forall x {:trigger Considers(x)} :: x == p ==> ExactStep(w, order, x, candidate) == next
  }

  /** From the i-th candidate on, the reference loop ends where it does from the start, for whoever considers it. */
  ghost predicate Ends(w: World, order: seq<Dep>, i: nat, p: Progress, start: Progress) {
    forall x {:trigger Considers(x)} :: x == p && i <= |order| ==>
      Exact(w, order, order[i..], x) == Exact(w, order, order, start)
  }

  /** The candidates still to come are all retained. */
  ghost predicate Ahead(order: seq<Dep>, i: nat, retained: set<Dep>) {
    var ahead := forall k :: i <= k < |order| ==> order[k] in retained;
    ahead
  }

  lemma EndsFirst(w: World, order: seq<Dep>, p: Progress)
    requires IsOrder(w.c, order) && p.retained == w.c.requirements.Keys
    ensures Ends(w, order, 0, p, p) && Ahead(order, 0, p.retained)
  {
    assert order[0..] == order;
    assert forall k :: 0 <= k < |order| ==> order[k] in Elements(order);
  }

  lemma EndsLast(w: World, order: seq<Dep>, p: Progress, start: Progress)
    requires Ends(w, order, |order|, p, start)
    ensures p == Exact(w, order, order, start)
  {
    assert Considers(p);
    assert order[|order|..] == [];
  }

  /** A step decides its own candidate alone, and the loop goes on from it. */
  lemma StepsOn(w: World, order: seq<Dep>, i: nat, p: Progress, next: Progress, start: Progress)
    requires IsOrder(w.c, order) && i < |order| && p.retained <= w.c.requirements.Keys && Ahead(order, i, p.retained)
    requires Stepped(w, order, p, order[i], next) && Ends(w, order, i, p, start)
    ensures Ends(w, order, i + 1, next, start) && next.retained <= w.c.requirements.Keys
            && Ahead(order, i + 1, next.retained)
  {
    assert Considers(p);
    assert order[i] in Elements(order);
    assert order[i..][0] == order[i] && order[i..][1..] == order[i + 1..];
  }

  /** The minimization as it runs, one candidate after another. */
  method MinimizeDependencies(w: World, order: seq<Dep>, start: Run, memo: DependencyMemo)
    returns (retained: set<Dep>, run: Run)
    requires IsOrder(w.c, order) && !memo.walkComplete
    modifies memo
    ensures Progress(retained, run) == Exact(w, order, order, Progress(w.c.requirements.Keys, start))
  {
    retained, run := w.c.requirements.Keys, start;
    var orderFree := OrderFree(w.c);
    var supply: FixedSupply? := null;
    ghost var first := Progress(retained, run);
    EndsFirst(w, order, first);
    for i := 0 to |order|
      invariant retained <= w.c.requirements.Keys && Ahead(order, i, retained)
      invariant Ends(w, order, i, Progress(retained, run), first)
      invariant memo.Valid(w.c, run, retained) && (memo.walkComplete ==> supply != null)
      invariant Ready(w.c, supply, run, retained) && (supply != null ==> fresh(supply))
    {
      ghost var p := Progress(retained, run);
      supply, retained, run := Consider(w, order, memo, orderFree, supply, retained, run, order[i]);
      StepsOn(w, order, i, p, Progress(retained, run), first);
    }
    EndsLast(w, order, Progress(retained, run), first);
  }

  /** The walk stays settled as the retained dependencies shrink. */
  lemma FewerSettled(c: Consumer, run: Run, retained: set<Dep>, fewer: set<Dep>)
    requires fewer <= retained
    ensures Settled(c, run, retained) ==> Settled(c, run, fewer)
    ensures WalkSettled(c, run, retained) ==> WalkSettled(c, run, fewer)
  {
    assert Programs(c, fewer) <= Programs(c, retained);
    forall k | ReachedFrom(c.children, Programs(c, fewer), k)
      ensures ReachedFrom(c.children, Programs(c, retained), k)
    {
    }
  }

  // ---- What the reference loop keeps, from any start ----

  lemma StepSettles(w: World, order: seq<Dep>, p: Progress, candidate: Dep)
    requires Settling(w, p.run) && p.retained <= Elements(order)
    ensures var run := ExactStep(w, order, p, candidate).run;
            Keeps(p.run, run) && Settling(w, run) && Settled(w.c, run, p.retained - {candidate})
  {
    SelectElements(order, p.retained - {candidate});
    PassSettles(w, p.run, Select(order, p.retained - {candidate}));
  }

  /** The loop changes no mode already asked for. */
  lemma {:induction false} ExactKeeps(w: World, order: seq<Dep>, todo: seq<Dep>, p: Progress)
    requires IsOrder(w.c, order) && p.retained <= w.c.requirements.Keys && Elements(todo) <= p.retained
    requires Distinct(todo)
    requires Settling(w, p.run)
    ensures Keeps(p.run, Exact(w, order, todo, p).run)
    decreases |todo|
  {
    if todo != [] {
      StepSettles(w, order, p, todo[0]);
      assert p.retained + {todo[0]} == p.retained;
      ExactKeeps(w, order, todo[1..], ExactStep(w, order, p, todo[0]));
    }
  }

  /** The pass over the retained dependencies, once read or while none is dropped, supplies every dropped one. */
  predicate Supplies(w: World, order: seq<Dep>, p: Progress) {
    || p.retained == w.c.requirements.Keys
    || (Settled(w.c, p.run, p.retained)
        && AllSupplied(w.c, p.retained, SuppliedProgramInputs(w, p.run, Select(order, p.retained))))
  }

  lemma StepStaysSupplied(w: World, order: seq<Dep>, p: Progress, candidate: Dep)
    requires IsOrder(w.c, order) && p.retained <= w.c.requirements.Keys && candidate in p.retained
    requires Settling(w, p.run) && Supplies(w, order, p)
    ensures Supplies(w, order, ExactStep(w, order, p, candidate))
  {
    var next := ExactStep(w, order, p, candidate);
    StepSettles(w, order, p, candidate);
    assert p.retained + {candidate} == p.retained;
    if next.retained != w.c.requirements.Keys {
      var ds := Select(order, next.retained);
      SelectElements(order, next.retained);
      var start := Pass(next.run, map[], {}, w.c.demands);
      SettledReads(w, start, ds);
      if next.retained == p.retained {
        var before := Pass(p.run, map[], {}, w.c.demands);
        SettledReads(w, before, ds);
        LaterReads(w, before, ds, next.run);
        SamePass(w, p.run, next.run, ds, next.run.modes);
      } else {
        PassReads(w, p.run, ds, next.run);
        SamePass(w, p.run, next.run, ds, next.run.modes);
      }
    }
  }

  /** Dropping in any order of candidates leaves every dropped dependency supplied by retained ones. */
  lemma {:induction false} ExactSupplies(w: World, order: seq<Dep>, todo: seq<Dep>, p: Progress)
    requires IsOrder(w.c, order) && p.retained <= w.c.requirements.Keys && Elements(todo) <= p.retained
    requires Distinct(todo)
    requires Settling(w, p.run) && Supplies(w, order, p)
    ensures Supplies(w, order, Exact(w, order, todo, p))
    decreases |todo|
  {
    if todo != [] {
      StepSettles(w, order, p, todo[0]);
      StepStaysSupplied(w, order, p, todo[0]);
      assert p.retained + {todo[0]} == p.retained;
      ExactSupplies(w, order, todo[1..], ExactStep(w, order, p, todo[0]));
    }
  }

  lemma UncoveringMonotone(c: Consumer, m: Modes, retained: set<Dep>, fewer: set<Dep>)
    requires fewer <= retained && !Covers(c, m, retained)
    ensures !Covers(c, m, fewer)
  {
    var d :| d in Stranded(c, m, retained);
    UncoveredMonotone(c, m, retained, fewer, d);
    assert d in Stranded(c, m, fewer);
  }

  /** Under the guard, the loop ends with a cover, in the modes it ends in, from which nothing tried can be left out. */
  lemma {:induction false} ExactMinimal(w: World, order: seq<Dep>, todo: seq<Dep>, p: Progress)
    requires OrderFree(w.c) && IsOrder(w.c, order)
    requires p.retained <= w.c.requirements.Keys && Elements(todo) <= p.retained && Distinct(todo)
    requires Settling(w, p.run) && Covers(w.c, Exact(w, order, todo, p).run.modes, p.retained)
    ensures var r := Exact(w, order, todo, p);
            && r.retained <= p.retained && Covers(w.c, r.run.modes, r.retained)
            && forall d :: d in todo && d in r.retained ==> !Covers(w.c, r.run.modes, r.retained - {d})
    decreases |todo|
  {
    if todo != [] {
      var without, next, r := p.retained - {todo[0]}, ExactStep(w, order, p, todo[0]), Exact(w, order, todo, p);
      assert p.retained + {todo[0]} == p.retained;
      StepSettles(w, order, p, todo[0]);
      ExactKeeps(w, order, todo[1..], next);
      PassReads(w, p.run, Select(order, without), r.run);
      StepDrops(w, order, p, todo[0], r.run.modes);
      ExactMinimal(w, order, todo[1..], next);
      forall d | d in todo && d in r.retained
        ensures !Covers(w.c, r.run.modes, r.retained - {d})
      {
        if d == todo[0] {
          UncoveringMonotone(w.c, r.run.modes, without, r.retained - {d});
        } else {
          assert d in todo[1..];
        }
      }
    }
  }

  /**
   * What minimization promises, from any start: in the modes it ends in, the retained dependencies
   * alone supply every dropped one, and no proper subset of them does.
   */
  lemma MinimizedCoversMinimally(w: World, order: seq<Dep>, start: Run, fewer: set<Dep>)
    requires OrderFree(w.c) && IsOrder(w.c, order) && Settling(w, start)
    ensures var r := Exact(w, order, order, Progress(w.c.requirements.Keys, start));
            Covers(w.c, r.run.modes, r.retained) && (fewer < r.retained ==> !Covers(w.c, r.run.modes, fewer))
  {
    var p := Progress(w.c.requirements.Keys, start);
    ExactMinimal(w, order, order, p);
    var r := Exact(w, order, order, p);
    if fewer < r.retained {
      var d :| d in r.retained && d !in fewer;
      UncoveringMonotone(w.c, r.run.modes, r.retained - {d}, fewer);
    }
  }

  /** Coverage needs no guard: an order-dependent pass over the result still supplies all it dropped. */
  lemma MinimizedSupplies(w: World, order: seq<Dep>, start: Run)
    requires IsOrder(w.c, order) && Settling(w, start)
    ensures var r := Exact(w, order, order, Progress(w.c.requirements.Keys, start));
            AllSupplied(w.c, r.retained, SuppliedProgramInputs(w, r.run, Select(order, r.retained)))
  {
    ExactSupplies(w, order, order, Progress(w.c.requirements.Keys, start));
  }

  // ---- Why minimality needs a guard ----

  const DECLARED := File("d/index.d.ts", Declaration, false)
  const A := Dep("a")
  const C := Dep("c")
  const D := Dep("d")

  /** c claims the scope for scopes only and d as a source; a reads it, and d cannot be left out. */
  function UnguardedConsumer(): Consumer {
    Consumer(
      map[A := Requirement(Target("a"), None, true, [Edge(SCOPE_FILE, DECLARED)], false),
          C := Requirement(Target("c"), Some(Target("c")), false, [], false),
          D := Requirement(Target("d"), Some(Target("d")), false, [], true)],
      {}, map[SCOPE_FILE := 1], Target("self"),
      map[Target("c") := Owner(map[SCOPE_FILE := 1], [], false, {}),
          Target("d") := Owner(map[SCOPE_FILE := 0, DECLARED := 0], [Target("a"), Target("c")], false, {})],
      map[], map[])
  }

  function UnguardedRun(): Run {
    Run({Target("c"), Target("d")}, map[Target("c") := EmittedEmission, Target("d") := EmittedEmission])
  }

  lemma UnguardedSupplies(c: Consumer)
    requires c == UnguardedConsumer()
    ensures Direct(c, UnguardedRun().modes, C) == DirectSupply(map[SCOPE_FILE := 1], {}, [])
    ensures Direct(c, UnguardedRun().modes, D) ==
            DirectSupply(map[SCOPE_FILE := 0, DECLARED := 0], {DECLARED}, [Target("a"), Target("c")])
  {
    assert Joins(OwnerOf(c, Target("d")), EmittedEmission, DECLARED);
  }

  /** What is unsupplied here: a without the scope, anything d's targets miss, and d always. */
  lemma UnguardedVerdicts(c: Consumer, files: set<File>, targets: set<Target>)
    requires c == UnguardedConsumer()
    ensures Target("a") in targets ==> (Unsupplied(c, A, files, targets) <==> SCOPE_FILE !in files)
    ensures Target("c") in targets ==> !Unsupplied(c, C, files, targets)
    ensures Unsupplied(c, D, files, targets) && c.requirements.Keys == {A, C, D}
  {
    var a, edge := c.requirements[A], Edge(SCOPE_FILE, DECLARED);
    assert forall e :: e in a.edges <==> e == edge;
    assert EdgeUnsupplied(c, a, edge, files) <==> SCOPE_FILE !in files;
  }

  /** With c before it, d's claim comes too late to supply the scope as a source. */
  lemma PassWithBoth(w: World)
    requires w.c == UnguardedConsumer()
    ensures var p := SuppliedProgramInputs(w, UnguardedRun(), [C, D]);
            Target("a") in p.targets && SCOPE_FILE in p.supplied && p.supplied[SCOPE_FILE] == 1
            && p.run == UnguardedRun()
  {
    UnguardedSupplies(w.c);
    FirstClaims(w, UnguardedRun(), C, D, SCOPE_FILE);
    assert Target("a") in Elements([Target("a"), Target("c")]);
  }

  lemma OneStep(w: World, p: Pass, d: Dep)
    ensures DirectPass(w, p, [d]) == DirectStep(w, p, d)
  {
    assert [d][1..] == [] && DirectPass(w, DirectStep(w, p, d), []) == DirectStep(w, p, d);
  }

  /** The direct pass over d alone, or after a dependency that supplies nothing. */
  lemma DirectWithD(w: World, start: Pass, ds: seq<Dep>)
    requires w.c == UnguardedConsumer() && (ds == [D] || ds == [A, D])
    ensures DirectPass(w, start, ds) == DirectStep(w, start, D)
  {
    if ds == [D] {
      OneStep(w, start, D);
    } else {
      TwoSteps(w, start, A, D);
      assert Program(w.c, A).None?;
    }
  }

  /** So d's claim comes first, and is as a source. */
  lemma PassWithD(w: World, ds: seq<Dep>)
    requires w.c == UnguardedConsumer() && (ds == [D] || ds == [A, D])
    ensures var p := SuppliedProgramInputs(w, UnguardedRun(), ds);
            && Target("a") in p.targets && Target("c") in p.targets && p.run == UnguardedRun()
            && SCOPE_FILE in p.supplied && p.supplied[SCOPE_FILE] == 0
  {
    UnguardedSupplies(w.c);
    var start, supply := Pass(UnguardedRun(), map[], {}, w.c.demands), Direct(w.c, UnguardedRun().modes, D);
    DirectWithD(w, start, ds);
    StepOf(w, start, D, supply);
    assert Target("a") in Elements(supply.targets) && Target("c") in Elements(supply.targets);
    ClaimsTheOne(start.(supplied := start.supplied + Only(supply.inputs, supply.files),
                        targets := start.targets + Elements(supply.targets)), supply.inputs, SCOPE_FILE);
  }

  lemma SelectThree(x: Dep, y: Dep, z: Dep, retained: set<Dep>)
    ensures Select([x, y, z], retained) ==
            (if x in retained then [x] else []) + (if y in retained then [y] else [])
            + (if z in retained then [z] else [])
  {
    assert [x, y, z][1..] == [y, z] && [y, z][1..] == [z] && [z][1..] == [];
    assert Select([z], retained) == (if z in retained then [z] else []) + Select([], retained);
    assert Select([y, z], retained) == (if y in retained then [y] else []) + Select([z], retained);
  }

  lemma SelectWithout()
    ensures Select([A, C, D], {A, C, D} - {A}) == [C, D]
    ensures Select([A, C, D], {A, C, D} - {C}) == [A, D]
  {
    SelectThree(A, C, D, {A, C, D} - {A});
    SelectThree(A, C, D, {A, C, D} - {C});
  }

  lemma ExactThree(w: World, order: seq<Dep>, x: Dep, y: Dep, z: Dep, p: Progress)
    ensures Exact(w, order, [x, y, z], p) == ExactStep(w, order, ExactStep(w, order, ExactStep(w, order, p, x), y), z)
  {
    assert [x, y, z][1..] == [y, z] && [y, z][1..] == [z] && [z][1..] == [];
    var first := ExactStep(w, order, p, x);
    var second := ExactStep(w, order, first, y);
    assert Exact(w, order, [y, z], first) == Exact(w, order, [z], second)
           == Exact(w, order, [], ExactStep(w, order, second, z));
  }

  /** a is kept, as c claims the scope before d. */
  lemma FirstStep(w: World)
    requires w.c == UnguardedConsumer()
    ensures ExactStep(w, [A, C, D], Progress({A, C, D}, UnguardedRun()), A) == Progress({A, C, D}, UnguardedRun())
  {
    var without := {A, C, D} - {A};
    SelectWithout();
    PassWithBoth(w);
    var pass := SuppliedProgramInputs(w, UnguardedRun(), [C, D]);
    UnguardedVerdicts(w.c, SuppliedFiles(w.c, pass), pass.targets);
    assert A in w.c.requirements && A !in without && !AllSupplied(w.c, without, pass);
    assert {A, C, D} + {A} == {A, C, D};
  }

  /** c is dropped, and with it the early claim. */
  lemma SecondStep(w: World)
    requires w.c == UnguardedConsumer()
    ensures ExactStep(w, [A, C, D], Progress({A, C, D}, UnguardedRun()), C) == Progress({A, D}, UnguardedRun())
  {
    var without := {A, C, D} - {C};
    assert without == {A, D};
    SelectWithout();
    PassWithD(w, [A, D]);
    var pass := SuppliedProgramInputs(w, UnguardedRun(), [A, D]);
    UnguardedVerdicts(w.c, SuppliedFiles(w.c, pass), pass.targets);
    assert AllSupplied(w.c, without, pass);
  }

  /** d stays: nothing supplies it. */
  lemma LastStep(w: World)
    requires w.c == UnguardedConsumer()
    ensures ExactStep(w, [A, C, D], Progress({A, D}, UnguardedRun()), D).retained == {A, D}
  {
    var without := {A, D} - {D};
    var pass := SuppliedProgramInputs(w, UnguardedRun(), Select([A, C, D], without));
    UnguardedVerdicts(w.c, SuppliedFiles(w.c, pass), pass.targets);
    assert D in w.c.requirements && D !in without;
    assert !AllSupplied(w.c, without, pass);
    assert {A, D} + {D} == {A, D};
  }

  /** Without the guard the loop can end in {a, d} although d alone supplies everything else. */
  lemma UnguardedNotMinimal(w: World)
    requires w.c == UnguardedConsumer()
    ensures !OrderFree(w.c)
    ensures Exact(w, [A, C, D], [A, C, D], Progress(w.c.requirements.Keys, UnguardedRun())).retained == {A, D}
    ensures AllSupplied(w.c, {D}, SuppliedProgramInputs(w, UnguardedRun(), [D]))
  {
    assert !OrderFree(w.c) by {
      assert Edge(SCOPE_FILE, DECLARED) in w.c.requirements[A].edges && SCOPE_FILE in w.c.demands;
    }
    UnguardedVerdicts(w.c, {}, {});
    ExactThree(w, [A, C, D], A, C, D, Progress({A, C, D}, UnguardedRun()));
    FirstStep(w);
    SecondStep(w);
    LastStep(w);
    DAloneSupplies(w);
  }

  lemma DAloneSupplies(w: World)
    requires w.c == UnguardedConsumer()
    ensures AllSupplied(w.c, {D}, SuppliedProgramInputs(w, UnguardedRun(), [D]))
  {
    PassWithD(w, [D]);
    var pass := SuppliedProgramInputs(w, UnguardedRun(), [D]);
    UnguardedVerdicts(w.c, SuppliedFiles(w.c, pass), pass.targets);
  }
}
