/**
 * The emission closure: a depth-first walk whose marks are absent, visited and required, over a
 * graph that may be cyclic and that completing a program rewires.
 */
module Emission {
  import opened Graphs
  import opened Wrappers
  import Sets

  datatype Key = Key(text: string)

  datatype Kind = Compiler | Proto | Alias | OtherKind
  datatype Mode = SourceEmission | EmittedEmission | UnknownEmission

  /** What the walk reads of a rule: managed means generated here and not kept. */
  datatype Rule = Rule(kind: Kind, managed: bool, emitKept: bool, emit: Mode, publishesTypeScript: bool,
    dependenciesIncomplete: bool)

  /** What completing a program does: the owners it asks about, then the deps it leaves on the rule. */
  datatype Completion = Completion(asked: seq<Key>, deps: seq<Key>)

  /** Visiting such a rule makes it required and, unless its emit is kept, sets emit. */
  predicate Promotes(rules: map<Key, Rule>, k: Key) {
    k in rules && rules[k].kind == Compiler && rules[k].managed
  }

  predicate SetsEmit(rules: map<Key, Rule>, k: Key) {
    Promotes(rules, k) && !rules[k].emitKept
  }

  /** A required rule the run can publish; any other ends the run. */
  predicate Publishable(rules: map<Key, Rule>, k: Key) {
    k in rules ==>
      && rules[k].kind != Proto
      && !rules[k].dependenciesIncomplete
      && (rules[k].kind == Compiler && !SetsEmit(rules, k) && rules[k].emit != EmittedEmission ==>
          !rules[k].publishesTypeScript)
  }

  predicate Required(seen: map<Key, bool>, k: Key) {
    k in seen && seen[k]
  }

  /** Marks only rise. */
  predicate Rises(seen: map<Key, bool>, seen': map<Key, bool>) {
    var rises := forall k :: k in seen ==> k in seen' && (seen[k] ==> seen'[k]);
    rises
  }

  // ---- What the walk keeps, apart from the frames still open at each mark ----

  /** Closed frames have marked every successor as high as their own mark. */
  ghost predicate Marked(g: Graph<Key>, seen: map<Key, bool>, visiting: set<Key>, requiring: set<Key>) {
    var marked := (forall k, n :: Required(seen, k) && k !in requiring && n in Next(g, k) ==> Required(seen, n))
                  && (forall k, n :: k in seen && k !in visiting && k !in requiring && n in Next(g, k) ==> n in seen);
    marked
  }

  ghost predicate Judged(rules: map<Key, Rule>, seen: map<Key, bool>, emitted: set<Key>) {
    var judged := (forall k :: k in emitted <==> k in seen && SetsEmit(rules, k))
                  && (forall k :: k in seen && Promotes(rules, k) ==> seen[k])
                  && (forall k :: Required(seen, k) ==> Publishable(rules, k));
    judged
  }

  ghost predicate SeenReached(g: Graph<Key>, starts: set<Key>, seen: map<Key, bool>) {
    var reached := forall k {:trigger ReachedFrom(g, starts, k)} :: k in seen ==> ReachedFrom(g, starts, k);
    reached
  }

  ghost predicate RequiredReached(g: Graph<Key>, demands: set<Key>, seen: map<Key, bool>) {
    var reached := forall k {:trigger ReachedFrom(g, demands, k)} :: Required(seen, k) ==> ReachedFrom(g, demands, k);
    reached
  }

  /**
   * Everything seen is reached from a start, and everything required from a demand: a consumer's target or a promoted
   * rule.
   */
  ghost predicate Sourced(g: Graph<Key>, starts: set<Key>, demands: set<Key>, seen: map<Key, bool>) {
    var sourced := SeenReached(g, starts, seen) && RequiredReached(g, demands, seen);
    sourced
  }

  /** The keys still short of the highest mark, counted once for each mark they lack. */
  ghost function Unmarked(g: Graph<Key>, seen: map<Key, bool>): nat {
    |g.Keys - seen.Keys| + |set k | k in g.Keys && !Required(seen, k)|
  }

  lemma MarkingDescends(g: Graph<Key>, seen: map<Key, bool>, seen': map<Key, bool>, k: Key)
    requires Rises(seen, seen') && k in g && k in seen'
    requires k !in seen || (!seen[k] && seen'[k])
    ensures Unmarked(g, seen') < Unmarked(g, seen)
  {
    var a, a' := g.Keys - seen.Keys, g.Keys - seen'.Keys;
    var b, b' := set k | k in g.Keys && !Required(seen, k), set k | k in g.Keys && !Required(seen', k);
    assert a' <= a && b' <= b;
    Sets.Smaller(a', a);
    Sets.Smaller(b', b);
    if k !in seen {
      assert a' <= a - {k};
      Sets.Smaller(a', a - {k});
    } else {
      assert b' <= b - {k};
      Sets.Smaller(b', b - {k});
    }
  }

  lemma RisingKeepsDescent(g: Graph<Key>, seen: map<Key, bool>, seen': map<Key, bool>)
    requires Rises(seen, seen')
    ensures Unmarked(g, seen') <= Unmarked(g, seen)
  {
    var b, b' := set k | k in g.Keys && !Required(seen, k), set k | k in g.Keys && !Required(seen', k);
    assert g.Keys - seen'.Keys <= g.Keys - seen.Keys && b' <= b;
    Sets.Smaller(g.Keys - seen'.Keys, g.Keys - seen.Keys);
    Sets.Smaller(b', b);
  }

  /** Reaching survives any change that leaves a closed set above the roots at least its edges. */
  lemma ReachedKept(g: Graph<Key>, g': Graph<Key>, roots: set<Key>, s: set<Key>)
    requires roots <= s && Closed(g, s)
    requires forall k :: k in s ==> Elements(Next(g, k)) <= Elements(Next(g', k))
    ensures forall x :: ReachedFrom(g, roots, x) ==> ReachedFrom(g', roots, x)
  {
    forall x | ReachedFrom(g, roots, x)
      ensures ReachedFrom(g', roots, x)
    {
      var r :| r in roots && Reaches(g, r, x);
      var p :| Path(g, p) && p[0] == r && p[|p| - 1] == x;
      forall i | 0 <= i < |p| - 1
        ensures p[i + 1] in Next(g', p[i])
      {
        ClosedHoldsPath(g, s, p, i);
        assert p[i + 1] in Elements(Next(g, p[i]));
      }
      assert Path(g', p);
    }
  }

  lemma MoreRootsReach(g: Graph<Key>, roots: set<Key>, roots': set<Key>)
    requires roots <= roots'
    ensures forall x :: ReachedFrom(g, roots, x) ==> ReachedFrom(g, roots', x)
  {
  }

  lemma StillReached(g: Graph<Key>, roots: set<Key>, roots': set<Key>, key: Key)
    requires roots <= roots'
    ensures ReachedFrom(g, roots, key) ==> ReachedFrom(g, roots', key)
  {
  }

  /** A dependency is reached as its key is. */
  lemma OneReached(g: Graph<Key>, starts: set<Key>, demands: set<Key>, key: Key, dep: Key, required: bool)
    requires ReachedFrom(g, starts, key) && (required ==> ReachedFrom(g, demands, key)) && dep in Next(g, key)
    ensures ReachedFrom(g, starts, dep) && (required ==> ReachedFrom(g, demands, dep))
  {
    NextReached(g, starts, key);
    if required {
      NextReached(g, demands, key);
    }
  }

  lemma SourcedMore(g: Graph<Key>, starts: set<Key>, demands: set<Key>, starts': set<Key>, demands': set<Key>,
                    seen: map<Key, bool>)
    requires Sourced(g, starts, demands, seen) && starts <= starts' && demands <= demands'
    ensures Sourced(g, starts', demands', seen)
  {
    MoreRootsReach(g, starts, starts');
    MoreRootsReach(g, demands, demands');
  }

  /** Marking a key opens a frame for it. */
  lemma MarkOpens(g: Graph<Key>, seen: map<Key, bool>, visiting: set<Key>, requiring: set<Key>, k: Key, required: bool)
    requires Marked(g, seen, visiting, requiring) && !Required(seen, k)
    ensures Marked(g, seen[k := required], if required then visiting else visiting + {k},
                   if required then requiring + {k} else requiring)
  {
    var seen' := seen[k := required];
    forall x, n | Required(seen', x) && x !in (if required then requiring + {k} else requiring) && n in Next(g, x)
      ensures Required(seen', n)
    {
      assert Required(seen, x) && Required(seen, n);
    }
  }

  /** A frame whose successors are all marked closes. */
  lemma MarkCloses(g: Graph<Key>, seen: map<Key, bool>, visiting: set<Key>, requiring: set<Key>, k: Key, required: bool)
    requires Marked(g, seen, if required then visiting else visiting + {k},
                    if required then requiring + {k} else requiring)
    requires forall n :: n in Next(g, k) ==> n in seen && (required ==> seen[n])
    ensures Marked(g, seen, visiting, requiring)
  {
  }

  /** Marking a reached key keeps every mark accounted for; a promoted key is a demand of its own. */
  lemma MarkSourced(g: Graph<Key>, starts: set<Key>, demands: set<Key>, seen: map<Key, bool>, k: Key, required: bool)
    requires Sourced(g, starts, demands, seen) && !Required(seen, k)
    requires ReachedFrom(g, starts, k) && (required ==> ReachedFrom(g, demands, k))
    ensures Sourced(g, starts, demands, seen[k := required]) && Rises(seen, seen[k := required])
  {
    forall x | Required(seen[k := required], x)
      ensures ReachedFrom(g, demands, x)
    {
      assert x == k || Required(seen, x);
    }
  }

  /** The run ends on a rule that is required and cannot be published. */
  ghost predicate Blocked(rules: map<Key, Rule>, seen: map<Key, bool>) {
    exists k :: Required(seen, k) && !Publishable(rules, k)
  }

  /** Edges are only lost from required keys, and remembered. */
  ghost predicate Steady(graph: Graph<Key>, ever: Graph<Key>, seen: map<Key, bool>) {
    var steady := (forall k :: Elements(Next(graph, k)) <= Elements(Next(ever, k)))
                  && (forall k :: !Required(seen, k) ==> Next(ever, k) == Next(graph, k));
    steady
  }

  /** What holds between any two steps of the walk. */
  ghost predicate Walking(graph: Graph<Key>, ever: Graph<Key>, rules: map<Key, Rule>, seen: map<Key, bool>,
                          emitted: set<Key>,
                          visiting: set<Key>, requiring: set<Key>) {
    var walking := Marked(ever, seen, visiting, requiring) && Judged(rules, seen, emitted) && Steady(graph, ever, seen);
    walking
  }

  /** The first i dependencies are marked as high as asked. */
  ghost predicate MarkedUpTo(dependencies: seq<Key>, i: nat, required: bool, seen: map<Key, bool>)
    requires i <= |dependencies|
  {
    var marked := forall d :: d in dependencies[..i] ==> d in seen && (required ==> seen[d]);
    marked
  }

  lemma MarkedMore(dependencies: seq<Key>, i: nat, required: bool, seen: map<Key, bool>, seen': map<Key, bool>)
    requires i < |dependencies| && MarkedUpTo(dependencies, i, required, seen) && Rises(seen, seen')
    requires dependencies[i] in seen' && (required ==> seen'[dependencies[i]])
    ensures MarkedUpTo(dependencies, i + 1, required, seen')
  {
    assert dependencies[..i + 1] == dependencies[..i] + [dependencies[i]];
  }

  lemma RisesThrough(a: map<Key, bool>, b: map<Key, bool>, c: map<Key, bool>)
    requires Rises(a, b) && Rises(b, c)
    ensures Rises(a, c)
  {
  }

  function Opened(open: set<Key>, key: Key, mine: bool): set<Key> {
    if mine then open + {key} else open
  }

  /** Marking a key, and setting emit where the mark calls for it, opens its frame. */
  lemma FrameOpens(graph: Graph<Key>, ever: Graph<Key>, rules: map<Key, Rule>, seen: map<Key, bool>, emitted: set<Key>,
                   visiting: set<Key>, requiring: set<Key>, key: Key, consumer: bool, required: bool)
    requires Walking(graph, ever, rules, seen, emitted, visiting, requiring) && !Required(seen, key)
    requires required == (consumer || Promotes(rules, key)) && (required ==> Publishable(rules, key))
    ensures Walking(graph, ever, rules, seen[key := required],
                    if SetsEmit(rules, key) then emitted + {key} else emitted,
              Opened(visiting, key, !required), Opened(requiring, key, required))
  {
    MarkOpens(ever, seen, visiting, requiring, key, required);
  }

  lemma FrameCloses(graph: Graph<Key>, ever: Graph<Key>, rules: map<Key, Rule>, seen: map<Key, bool>, emitted: set<Key>,
                    visiting: set<Key>, requiring: set<Key>, key: Key, required: bool)
    requires Walking(graph, ever, rules, seen, emitted, Opened(visiting, key, !required),
                     Opened(requiring, key, required))
    requires MarkedUpTo(Next(ever, key), |Next(ever, key)|, required, seen)
    ensures Walking(graph, ever, rules, seen, emitted, visiting, requiring)
  {
    assert Next(ever, key)[..|Next(ever, key)|] == Next(ever, key);
    MarkCloses(ever, seen, visiting, requiring, key, required);
  }

  /** Replacing a program's dependencies; a key not yet seen has walked none of its old ones. */
  ghost function Replaced(ever: Graph<Key>, seen: map<Key, bool>, key: Key, deps: seq<Key>): Graph<Key> {
    ever[key := if key in seen then Next(ever, key) + deps else deps]
  }

  lemma ReplacedReaches(ever: Graph<Key>, seen: map<Key, bool>, roots: set<Key>, key: Key, deps: seq<Key>)
    requires Marked(ever, seen, {}, {}) && roots <= seen.Keys
    ensures forall x :: ReachedFrom(ever, roots, x) ==> ReachedFrom(Replaced(ever, seen, key, deps), roots, x)
  {
    forall k | k in seen.Keys
      ensures Elements(Next(ever, k)) <= Elements(Next(Replaced(ever, seen, key, deps), k))
    {
      ElementsJoin(Next(ever, key), deps);
    }
    forall x, y | x in seen.Keys && y in Next(ever, x)
      ensures y in seen.Keys
    {
      assert x in seen;
    }
    ReachedKept(ever, Replaced(ever, seen, key, deps), roots, seen.Keys);
  }

  lemma ReplacedSourced(ever: Graph<Key>, starts: set<Key>, demands: set<Key>, seen: map<Key, bool>, key: Key,
                        deps: seq<Key>)
    requires Marked(ever, seen, {}, {}) && Sourced(ever, starts, demands, seen)
    requires starts <= seen.Keys && demands <= seen.Keys
    ensures Sourced(Replaced(ever, seen, key, deps), starts, demands, seen)
  {
    ReplacedReaches(ever, seen, starts, key, deps);
    ReplacedReaches(ever, seen, demands, key, deps);
  }

  lemma ReplacedWalks(graph: Graph<Key>, ever: Graph<Key>, rules: map<Key, Rule>, seen: map<Key, bool>,
                      emitted: set<Key>, key: Key, deps: seq<Key>)
    requires Walking(graph, ever, rules, seen, emitted, {}, {})
    requires key in seen ==> seen[key]
    ensures Walking(graph[key := deps], Replaced(ever, seen, key, deps), rules, seen, emitted, {}, {key})
    ensures key !in seen ==> Walking(graph[key := deps], Replaced(ever, seen, key, deps), rules, seen, emitted, {}, {})
  {
    var ever' := Replaced(ever, seen, key, deps);
    ElementsJoin(Next(ever, key), deps);
    forall k
      ensures Elements(Next(graph[key := deps], k)) <= Elements(Next(ever', k))
    {
      assert k == key || Next(ever', k) == Next(ever, k);
    }
    forall k, n | Required(seen, k) && k !in {key} && n in Next(ever', k)
      ensures Required(seen, n)
    {
      assert n in Next(ever, k);
    }
  }

  lemma ReplacedKeeps(before: Graph<Key>, ever: Graph<Key>, starts: set<Key>, demands: set<Key>, seen: map<Key, bool>,
                      key: Key, deps: seq<Key>)
    requires Required(seen, key) && ever == Replaced(before, seen, key, deps) && Sourced(ever, starts, demands, seen)
    ensures ReachedFrom(ever, starts, key) && ReachedFrom(ever, demands, key)
    ensures forall d :: d in deps ==> d in Next(ever, key)
  {
  }

  lemma ReplacedCloses(graph: Graph<Key>, ever: Graph<Key>, rules: map<Key, Rule>, marks: map<Key, bool>,
                       seen: map<Key, bool>, emitted: set<Key>, key: Key, deps: seq<Key>)
    requires Marked(ever, marks, {}, {}) && Required(marks, key) && Rises(marks, seen)
    requires Walking(graph, Replaced(ever, marks, key, deps), rules, seen, emitted, {}, {key})
    requires MarkedUpTo(deps, |deps|, true, seen)
    ensures Walking(graph, Replaced(ever, marks, key, deps), rules, seen, emitted, {}, {})
  {
    assert deps[..|deps|] == deps;
    var ever' := Replaced(ever, marks, key, deps);
    forall n | n in Next(ever', key)
      ensures Required(seen, n)
    {
      if n in Next(ever, key) {
        assert Required(marks, n);
      } else {
        assert n in deps;
      }
    }
    MarkCloses(ever', seen, {}, {}, key, true);
  }

  ghost predicate Anchors(starts: set<Key>, demands: set<Key>, seen: map<Key, bool>) {
    var anchors := starts <= seen.Keys && forall k :: k in demands ==> Required(seen, k);
    anchors
  }

  ghost predicate PromotesOnly(rules: map<Key, Rule>, demands: set<Key>, demands': set<Key>, seen: map<Key, bool>) {
    var only := demands <= demands' && forall k :: k in demands' ==>
        k in demands || (Promotes(rules, k) && Required(seen, k));
    only
  }

  lemma PromotesThrough(rules: map<Key, Rule>, a: set<Key>, b: set<Key>, c: set<Key>, seen: map<Key, bool>,
                        seen': map<Key, bool>)
    requires PromotesOnly(rules, a, b, seen) && PromotesOnly(rules, b, c, seen') && Rises(seen, seen')
    ensures PromotesOnly(rules, a, c, seen')
  {
    forall k | k in c && k !in a
      ensures Promotes(rules, k) && Required(seen', k)
    {
      assert k in b ==> Required(seen, k);
    }
  }

  lemma AnchorsMore(rules: map<Key, Rule>, starts: set<Key>, demands: set<Key>, seen: map<Key, bool>,
                    demands': set<Key>, seen': map<Key, bool>)
    requires Anchors(starts, demands, seen) && Rises(seen, seen') && PromotesOnly(rules, demands, demands', seen')
    ensures Anchors(starts, demands', seen')
  {
    forall k | k in demands'
      ensures Required(seen', k)
    {
      assert k in demands ==> Required(seen, k);
    }
  }

  ghost predicate AllDemanded(asked: seq<Key>, demands: set<Key>) {
    var all := forall a :: a in asked ==> a in demands;
    all
  }

  /** Every completed program left its dependencies on its rule, and nothing else changed the graph. */
  ghost predicate Entered(rules: map<Key, Rule>, initial: Graph<Key>, programs: map<Key, Completion>, graph: Graph<Key>,
                          pending: map<Key, Completion>, finished: set<Key>, seen: map<Key, bool>, demands: set<Key>) {
    var entered := (forall k :: k in programs ==> Promotes(rules, k))
                   && (forall k :: k in pending ==> k in programs && programs[k] == pending[k] && k !in finished)
                   && (forall k :: k in finished ==> k in programs)
                   && (forall k :: Next(graph, k) == if k in finished then programs[k].deps else Next(initial, k))
                   && (forall k :: k in finished && k in seen ==> AllDemanded(programs[k].asked, demands));
    entered
  }

  /** The edges the walk went by: a marked program's old dependencies stay beside its new ones. */
  ghost function Walked(initial: Graph<Key>, programs: map<Key, Completion>, finished: set<Key>, seen: map<Key, bool>,
                        key: Key): set<Key>
  {
    if key in finished && key in programs then
      (if key in seen then Elements(Next(initial, key)) else {}) + Elements(programs[key].deps)
    else Elements(Next(initial, key))
  }

  ghost predicate Remembers(initial: Graph<Key>, programs: map<Key, Completion>, finished: set<Key>,
                            seen: map<Key, bool>, ever: Graph<Key>)
  {
    var remembers := forall k :: Elements(Next(ever, k)) == Walked(initial, programs, finished, seen, k);
    remembers
  }

  lemma RemembersMore(initial: Graph<Key>, programs: map<Key, Completion>, finished: set<Key>, seen: map<Key, bool>,
                      ever: Graph<Key>, seen': map<Key, bool>)
    requires Remembers(initial, programs, finished, seen, ever) && Rises(seen, seen')
    requires (finished <= seen.Keys || seen' == seen)
    ensures Remembers(initial, programs, finished, seen', ever)
  {
    forall k
      ensures Elements(Next(ever, k)) == Walked(initial, programs, finished, seen', k)
    {
      assert k in finished && finished <= seen.Keys ==> k in seen.Keys;
      assert k in seen ==> k in seen';
    }
  }

  lemma RemembersNext(initial: Graph<Key>, programs: map<Key, Completion>, finished: set<Key>, seen: map<Key, bool>,
                      ever: Graph<Key>, key: Key)
    requires Remembers(initial, programs, finished, seen, ever) && key in programs && key !in finished
    ensures Remembers(initial, programs, finished + {key}, seen, Replaced(ever, seen, key, programs[key].deps))
  {
    ElementsJoin(Next(ever, key), programs[key].deps);
    var ever' := Replaced(ever, seen, key, programs[key].deps);
    forall k
      ensures Elements(Next(ever', k)) == Walked(initial, programs, finished + {key}, seen, k)
    {
      if k == key {
        assert Elements(Next(ever, k)) == Elements(Next(initial, k));
      } else {
        assert Next(ever', k) == Next(ever, k);
      }
    }
  }

  lemma EnteredMore(rules: map<Key, Rule>, initial: Graph<Key>, programs: map<Key, Completion>, graph: Graph<Key>,
                    pending: map<Key, Completion>,
                    finished: set<Key>, seen: map<Key, bool>, demands: set<Key>, seen': map<Key, bool>,
                    demands': set<Key>)
    requires Entered(rules, initial, programs, graph, pending, finished, seen, demands)
    requires demands <= demands' && (finished <= seen.Keys || seen' == seen)
    ensures Entered(rules, initial, programs, graph, pending, finished, seen', demands')
  {
  }

  lemma EnteredNext(rules: map<Key, Rule>, initial: Graph<Key>, programs: map<Key, Completion>, graph: Graph<Key>,
                    pending: map<Key, Completion>,
                    finished: set<Key>, seen: map<Key, bool>, demands: set<Key>, key: Key)
    requires Entered(rules, initial, programs, graph, pending, finished, seen, demands)
    requires key in programs && key !in pending && key !in finished
    requires key in seen ==> AllDemanded(programs[key].asked, demands)
    ensures Entered(rules, initial, programs, graph[key := programs[key].deps], pending, finished + {key}, seen,
                    demands)
  {
  }

  /** The closure's state between two completions. */
  datatype Snapshot = Snapshot(seen: map<Key, bool>, emitted: set<Key>, pending: set<Key>, finished: set<Key>,
    starts: set<Key>, demands: set<Key>)

  /** Always true: asserting it of a value unfolds what is stated below for that value, and nothing else does. */
  ghost predicate Opens(graph: Graph<Key>) {
    true
  }

  /** The completed programs' record, for whoever opens it. */
  ghost predicate Kept(rules: map<Key, Rule>, initial: Graph<Key>, programs: map<Key, Completion>, graph: Graph<Key>,
                       ever: Graph<Key>,
                       pending: map<Key, Completion>, finished: set<Key>, seen: map<Key, bool>, demands: set<Key>) {
    forall g {:trigger Opens(g)} :: g == graph ==>
      Entered(rules, initial, programs, g, pending, finished, seen, demands)
      && Remembers(initial, programs, finished, seen, ever)
  }

  lemma KeptIs(rules: map<Key, Rule>, initial: Graph<Key>, programs: map<Key, Completion>, graph: Graph<Key>,
               ever: Graph<Key>,
               pending: map<Key, Completion>, finished: set<Key>, seen: map<Key, bool>, demands: set<Key>)
    requires Kept(rules, initial, programs, graph, ever, pending, finished, seen, demands)
    ensures Entered(rules, initial, programs, graph, pending, finished, seen, demands)
    ensures Remembers(initial, programs, finished, seen, ever)
  {
    assert Opens(graph);
  }

  lemma Keeps(rules: map<Key, Rule>, initial: Graph<Key>, programs: map<Key, Completion>, graph: Graph<Key>,
              ever: Graph<Key>,
              pending: map<Key, Completion>, finished: set<Key>, seen: map<Key, bool>, demands: set<Key>)
    requires Entered(rules, initial, programs, graph, pending, finished, seen, demands)
    requires Remembers(initial, programs, finished, seen, ever)
    ensures Kept(rules, initial, programs, graph, ever, pending, finished, seen, demands)
  {
    forall g | g == graph
      ensures Entered(rules, initial, programs, g, pending, finished, seen, demands)
    {
    }
  }

  lemma KeptMore(rules: map<Key, Rule>, initial: Graph<Key>, programs: map<Key, Completion>, graph: Graph<Key>,
                 ever: Graph<Key>, pending: map<Key, Completion>,
                 finished: set<Key>, seen: map<Key, bool>, demands: set<Key>, seen': map<Key, bool>, demands': set<Key>)
    requires Kept(rules, initial, programs, graph, ever, pending, finished, seen, demands)
    requires demands <= demands' && Rises(seen, seen') && (finished <= seen.Keys || seen' == seen)
    ensures Kept(rules, initial, programs, graph, ever, pending, finished, seen', demands')
  {
    KeptIs(rules, initial, programs, graph, ever, pending, finished, seen, demands);
    EnteredMore(rules, initial, programs, graph, pending, finished, seen, demands, seen', demands');
    RemembersMore(initial, programs, finished, seen, ever, seen');
    Keeps(rules, initial, programs, graph, ever, pending, finished, seen', demands');
  }

  lemma KeptNext(rules: map<Key, Rule>, initial: Graph<Key>, programs: map<Key, Completion>, graph: Graph<Key>,
                 ever: Graph<Key>, pending: map<Key, Completion>,
                 finished: set<Key>, seen: map<Key, bool>, demands: set<Key>, key: Key)
    requires Kept(rules, initial, programs, graph, ever, pending, finished, seen, demands)
    requires key in programs && key !in pending && key !in finished
    requires (key in seen ==> AllDemanded(programs[key].asked, demands))
    ensures Kept(rules, initial, programs, graph[key := programs[key].deps],
                 Replaced(ever, seen, key, programs[key].deps), pending, finished + {key}, seen, demands)
  {
    KeptIs(rules, initial, programs, graph, ever, pending, finished, seen, demands);
    EnteredNext(rules, initial, programs, graph, pending, finished, seen, demands, key);
    RemembersNext(initial, programs, finished, seen, ever, key);
    Keeps(rules, initial, programs, graph[key := programs[key].deps], Replaced(ever, seen, key, programs[key].deps),
          pending, finished + {key}, seen, demands);
  }

  lemma KeptTaken(rules: map<Key, Rule>, initial: Graph<Key>, programs: map<Key, Completion>, graph: Graph<Key>,
                  ever: Graph<Key>, pending: map<Key, Completion>,
                  finished: set<Key>, seen: map<Key, bool>, demands: set<Key>, key: Key)
    requires Kept(rules, initial, programs, graph, ever, pending, finished, seen, demands) && key in pending
    ensures Kept(rules, initial, programs, graph, ever, pending - {key}, finished, seen, demands)
    ensures key in programs && programs[key] == pending[key] && key !in finished && Promotes(rules, key)
  {
    KeptIs(rules, initial, programs, graph, ever, pending, finished, seen, demands);
    Keeps(rules, initial, programs, graph, ever, pending - {key}, finished, seen, demands);
  }

  /** Once no pending program is required, none is marked at all. */
  lemma KeptUnmarked(graph: Graph<Key>, ever: Graph<Key>, rules: map<Key, Rule>, initial: Graph<Key>,
                     programs: map<Key, Completion>, pending: map<Key, Completion>,
                     finished: set<Key>, seen: map<Key, bool>, emitted: set<Key>, demands: set<Key>)
    requires Kept(rules, initial, programs, graph, ever, pending, finished, seen, demands)
    requires Walking(graph, ever, rules, seen, emitted, {}, {}) && forall k :: k in pending ==> !Required(seen, k)
    ensures pending.Keys !! seen.Keys
  {
    KeptIs(rules, initial, programs, graph, ever, pending, finished, seen, demands);
  }

  lemma DemandedMore(asked: seq<Key>, demands: set<Key>, demands': set<Key>)
    requires asked != [] && asked[0] in demands && demands <= demands' && AllDemanded(asked[1..], demands')
    ensures AllDemanded(asked, demands')
  {
    assert asked == [asked[0]] + asked[1..];
  }

  /** Completing only adds marks, starts and demands. */
  ghost predicate Grows(from: Snapshot, to: Snapshot) {
    var grows := Rises(from.seen, to.seen) && from.starts <= to.starts && from.demands <= to.demands;
    grows
  }

  /**
   * Completing these programs and those they ask about finishes each that leaves pending; an unrooted one marks
   * nothing.
   */
  ghost predicate Completes(from: Snapshot, to: Snapshot, extra: set<Key>, rooted: bool) {
    var completes := to.pending <= from.pending && to.finished == from.finished + (from.pending - to.pending) + extra
                     && (!rooted ==>
                         to.seen == from.seen && to.emitted == from.emitted && to.starts == from.starts
                         && to.demands == from.demands);
    completes
  }

  lemma CompletesTaken(from: Snapshot, to: Snapshot, key: Key, rooted: bool)
    requires key in from.pending && Completes(from.(pending := from.pending - {key}), to, {key}, rooted)
    ensures Completes(from, to, {}, rooted) && to.pending < from.pending
  {
    assert from.pending - to.pending == (from.pending - {key} - to.pending) + {key};
  }

  lemma GrowsThrough(a: Snapshot, b: Snapshot, c: Snapshot)
    requires Grows(a, b) && Grows(b, c)
    ensures Grows(a, c)
  {
  }

  lemma CompletesThrough(a: Snapshot, b: Snapshot, c: Snapshot, extra: set<Key>, extra': set<Key>, rooted: bool)
    requires Completes(a, b, extra, rooted) && Completes(b, c, extra', rooted)
    ensures Completes(a, c, extra + extra', rooted)
  {
  }

  /** A target the walk starts from, and whether a rule generated here runs it. */
  datatype Origin = Origin(key: Key, consumer: bool)

  ghost function StartKeys(origins: seq<Origin>): set<Key> {
    set o | o in origins :: o.key
  }

  ghost function ConsumerKeys(origins: seq<Origin>): set<Key> {
    set o | o in origins && o.consumer :: o.key
  }

  lemma OriginsMore(origins: seq<Origin>, i: nat)
    requires i < |origins|
    ensures StartKeys(origins[..i + 1]) == StartKeys(origins[..i]) + {origins[i].key}
    ensures ConsumerKeys(origins[..i + 1])
            == ConsumerKeys(origins[..i]) + (if origins[i].consumer then {origins[i].key} else {})
  {
    var now, more := origins[..i], origins[..i + 1];
    assert more == now + [origins[i]];
    assert forall o :: o in more <==> o in now || o == origins[i];
    assert forall o :: o in now ==> o in more;
    assert origins[i] in more;
  }

  // ---- Every edge a run can walk ----

  /** The rules' graph with, for each program, what completing it asks about and leaves as dependencies. */
  ghost function Full(initial: Graph<Key>, programs: map<Key, Completion>): Graph<Key>
    decreases programs.Keys
  {
    if programs == map[] then initial
    else
      var k :| k in programs;
      Full(initial, programs - {k})[k := Next(initial, k) + programs[k].deps + programs[k].asked]
  }

  ghost function FullDeps(initial: Graph<Key>, programs: map<Key, Completion>, k: Key): seq<Key> {
    if k in programs then Next(initial, k) + programs[k].deps + programs[k].asked else Next(initial, k)
  }

  lemma {:induction false} FullNext(initial: Graph<Key>, programs: map<Key, Completion>)
    ensures forall k :: Next(Full(initial, programs), k) == FullDeps(initial, programs, k)
    decreases programs.Keys
  {
    if programs != map[] {
      var p :| p in programs
               && Full(initial, programs) == Full(initial, programs - {p})[p := FullDeps(initial, programs, p)];
      FullNext(initial, programs - {p});
      forall k
        ensures Next(Full(initial, programs), k) == FullDeps(initial, programs, k)
      {
        if k != p {
          assert Next(Full(initial, programs), k) == Next(Full(initial, programs - {p}), k);
        }
      }
    }
  }

  /** What demands to be published: consumers' targets, and managed compilers the starts reach. */
  ghost function Wanted(rules: map<Key, Rule>, full: Graph<Key>, origins: seq<Origin>): set<Key> {
    ConsumerKeys(origins) + set k | k in rules && Promotes(rules, k) && ReachedFrom(full, StartKeys(origins), k)
  }

  lemma {:induction false} PathReached(g: Graph<Key>, g': Graph<Key>, roots': set<Key>, p: seq<Key>, i: nat)
    requires forall k :: Elements(Next(g, k)) <= Elements(Next(g', k))
    requires Path(g, p) && i < |p| && ReachedFrom(g', roots', p[0])
    ensures ReachedFrom(g', roots', p[i])
  {
    if i > 0 {
      PathReached(g, g', roots', p, i - 1);
      assert p[i - 1 + 1] in Elements(Next(g, p[i - 1]));
      NextReached(g', roots', p[i - 1]);
    }
  }

  /** What roots reach, a larger graph reaches from whatever reaches them. */
  lemma ReachedOver(g: Graph<Key>, g': Graph<Key>, roots: set<Key>, roots': set<Key>)
    requires forall k :: Elements(Next(g, k)) <= Elements(Next(g', k))
    requires forall r :: r in roots ==> ReachedFrom(g', roots', r)
    ensures forall x :: ReachedFrom(g, roots, x) ==> ReachedFrom(g', roots', x)
  {
    forall x | ReachedFrom(g, roots, x)
      ensures ReachedFrom(g', roots', x)
    {
      var r :| r in roots && Reaches(g, r, x);
      var p :| Path(g, p) && p[0] == r && p[|p| - 1] == x;
      PathReached(g, g', roots', p, |p| - 1);
    }
  }

  /** The edges walked lie in the full graph, and starts and demands go back to the run's inputs over it. */
  ghost predicate Traces(full: Graph<Key>, roots: set<Key>, wanted: set<Key>, ever: Graph<Key>, starts: set<Key>,
                         demands: set<Key>)
  {
    var traces := (forall k :: Elements(Next(ever, k)) <= Elements(Next(full, k)))
                  && (forall k :: k in starts ==> ReachedFrom(full, roots, k))
                  && (forall k :: k in demands ==> ReachedFrom(full, wanted, k));
    traces
  }

  /** So does everything marked. */
  lemma TracesMarks(full: Graph<Key>, roots: set<Key>, wanted: set<Key>, ever: Graph<Key>, starts: set<Key>,
                    demands: set<Key>, seen: map<Key, bool>)
    requires Traces(full, roots, wanted, ever, starts, demands) && Sourced(ever, starts, demands, seen)
    ensures forall k :: k in seen ==> ReachedFrom(full, roots, k)
    ensures forall k :: Required(seen, k) ==> ReachedFrom(full, wanted, k)
  {
    ReachedOver(ever, full, starts, roots);
    ReachedOver(ever, full, demands, wanted);
  }

  /** Before anything is marked, all of it holds. */
  lemma StartsOut(rules: map<Key, Rule>, graph: Graph<Key>, programs: map<Key, Completion>, origins: seq<Origin>)
    requires forall k :: k in programs ==> Promotes(rules, k)
    ensures Walking(graph, graph, rules, map[], {}, {}, {}) && Sourced(graph, {}, {}, map[]) && Anchors({}, {}, map[])
    ensures Kept(rules, graph, programs, graph, graph, programs, {}, map[], {})
    ensures var full := Full(graph, programs);
            Traces(full, StartKeys(origins), Wanted(rules, full, origins), graph, {}, {})
  {
    Keeps(rules, graph, programs, graph, graph, programs, {}, map[], {});
    FullNext(graph, programs);
    forall k
      ensures Elements(Next(graph, k)) <= Elements(Next(Full(graph, programs), k))
    {
    }
  }

  /** A promoted rule's own demand goes back to the start it was reached from. */
  lemma TracesPromoted(rules: map<Key, Rule>, full: Graph<Key>, origins: seq<Origin>, ever: Graph<Key>,
                       starts: set<Key>, demands: set<Key>, demands': set<Key>, seen: map<Key, bool>)
    requires Traces(full, StartKeys(origins), Wanted(rules, full, origins), ever, starts, demands)
    requires Sourced(ever, starts, demands', seen) && PromotesOnly(rules, demands, demands', seen)
    ensures Traces(full, StartKeys(origins), Wanted(rules, full, origins), ever, starts, demands')
  {
    ReachedOver(ever, full, starts, StartKeys(origins));
    var wanted := Wanted(rules, full, origins);
    RootsReached(full, wanted);
    forall k | k in demands'
      ensures ReachedFrom(full, wanted, k)
    {
      if k !in demands {
        assert ReachedFrom(ever, starts, k);
        assert k in wanted;
      }
    }
  }

  lemma TracesStart(full: Graph<Key>, roots: set<Key>, wanted: set<Key>, ever: Graph<Key>, starts: set<Key>,
                    demands: set<Key>, key: Key, consumer: bool)
    requires Traces(full, roots, wanted, ever, starts, demands)
    requires ReachedFrom(full, roots, key) && (consumer ==> ReachedFrom(full, wanted, key))
    ensures Traces(full, roots, wanted, ever, starts + {key}, demands + (if consumer then {key} else {}))
  {
  }

  lemma TracesReplaced(initial: Graph<Key>, programs: map<Key, Completion>, roots: set<Key>, wanted: set<Key>,
                       ever: Graph<Key>,
                       starts: set<Key>, demands: set<Key>, seen: map<Key, bool>, key: Key)
    requires Traces(Full(initial, programs), roots, wanted, ever, starts, demands) && key in programs
    ensures Traces(Full(initial, programs), roots, wanted, Replaced(ever, seen, key, programs[key].deps), starts,
                   demands)
  {
    var full, ever' := Full(initial, programs), Replaced(ever, seen, key, programs[key].deps);
    FullNext(initial, programs);
    ElementsJoin(Next(ever, key), programs[key].deps);
    forall k
      ensures Elements(Next(ever', k)) <= Elements(Next(full, k))
    {
      if k == key {
        ElementsJoin(Next(initial, key), programs[key].deps);
        ElementsJoin(Next(initial, key) + programs[key].deps, programs[key].asked);
      }
    }
  }

  /** Every key goes back to the run's inputs, as a start and as a demand. */
  ghost predicate AllTraced(full: Graph<Key>, roots: set<Key>, wanted: set<Key>, keys: seq<Key>) {
    var all := forall k :: k in keys ==> ReachedFrom(full, roots, k) && ReachedFrom(full, wanted, k);
    all
  }

  lemma TracedRest(full: Graph<Key>, roots: set<Key>, wanted: set<Key>, keys: seq<Key>)
    requires AllTraced(full, roots, wanted, keys) && keys != []
    ensures ReachedFrom(full, roots, keys[0]) && ReachedFrom(full, wanted, keys[0])
    ensures AllTraced(full, roots, wanted, keys[1..])
  {
    assert keys[0] in keys;
    assert forall k :: k in keys[1..] ==> k in keys;
  }

  /** What a required program asks about goes back to the run's inputs through it. */
  lemma TracesAsked(initial: Graph<Key>, programs: map<Key, Completion>, roots: set<Key>, wanted: set<Key>,
                    ever: Graph<Key>,
                    starts: set<Key>, demands: set<Key>, seen: map<Key, bool>, key: Key)
    requires Traces(Full(initial, programs), roots, wanted, ever, starts, demands)
    requires Sourced(ever, starts, demands, seen)
    requires Required(seen, key) && key in programs
    ensures AllTraced(Full(initial, programs), roots, wanted, programs[key].asked)
  {
    var full := Full(initial, programs);
    TracesMarks(full, roots, wanted, ever, starts, demands, seen);
    FullNext(initial, programs);
    NextReached(full, roots, key);
    NextReached(full, wanted, key);
    forall k | k in programs[key].asked
      ensures k in Next(full, key)
    {
    }
  }

  /** Once every program is completed, a marked key's full successors are marked as high. */
  lemma FullEdgeMarked(rules: map<Key, Rule>, initial: Graph<Key>, programs: map<Key, Completion>, graph: Graph<Key>,
                       ever: Graph<Key>, seen: map<Key, bool>, emitted: set<Key>, demands: set<Key>, x: Key, y: Key)
    requires Walking(graph, ever, rules, seen, emitted, {}, {}) && forall k :: k in demands ==> Required(seen, k)
    requires Elements(Next(ever, x)) == Walked(initial, programs, programs.Keys, seen, x)
    requires x in programs ==> AllDemanded(programs[x].asked, demands)
    requires x in seen && y in FullDeps(initial, programs, x)
    ensures y in seen && (seen[x] ==> seen[y])
  {
    if x in programs && y in programs[x].asked {
      assert y in demands;
      assert Required(seen, y);
    } else {
      assert y in Walked(initial, programs, programs.Keys, seen, x);
      assert y in Elements(Next(ever, x));
      assert Marked(ever, seen, {}, {});
      if seen[x] {
        assert Required(seen, x) && Required(seen, y);
      }
    }
  }

  ghost function RequiredKeys(seen: map<Key, bool>): set<Key> {
    set k | k in seen && seen[k]
  }

  lemma FullClosed(rules: map<Key, Rule>, initial: Graph<Key>, programs: map<Key, Completion>, graph: Graph<Key>,
                   ever: Graph<Key>, seen: map<Key, bool>, emitted: set<Key>, demands: set<Key>)
    requires Walking(graph, ever, rules, seen, emitted, {}, {}) && forall k :: k in demands ==> Required(seen, k)
    requires Remembers(initial, programs, programs.Keys, seen, ever)
    requires forall k :: k in programs && k in seen ==> AllDemanded(programs[k].asked, demands)
    ensures Closed(Full(initial, programs), seen.Keys) && Closed(Full(initial, programs), RequiredKeys(seen))
  {
    FullNext(initial, programs);
    forall x, y | x in seen.Keys && y in Next(Full(initial, programs), x)
      ensures y in seen.Keys && (x in RequiredKeys(seen) ==> y in RequiredKeys(seen))
    {
      FullEdgeMarked(rules, initial, programs, graph, ever, seen, emitted, demands, x, y);
    }
  }

  lemma WantedRequired(graph: Graph<Key>, ever: Graph<Key>, rules: map<Key, Rule>, seen: map<Key, bool>,
                       emitted: set<Key>,
                       full: Graph<Key>, origins: seq<Origin>, demands: set<Key>)
    requires Walking(graph, ever, rules, seen, emitted, {}, {}) && forall k :: k in demands ==> Required(seen, k)
    requires ConsumerKeys(origins) <= demands && forall k :: ReachedFrom(full, StartKeys(origins), k) ==> k in seen
    ensures forall k :: k in Wanted(rules, full, origins) ==> Required(seen, k)
  {
    forall k | k in Wanted(rules, full, origins)
      ensures Required(seen, k)
    {
      if k in ConsumerKeys(origins) {
        assert k in demands;
      } else {
        assert Judged(rules, seen, emitted);
      }
    }
  }

  /** So the marks are reachability over the full graph. */
  lemma MarksAreFull(rules: map<Key, Rule>, initial: Graph<Key>, programs: map<Key, Completion>, origins: seq<Origin>,
                     graph: Graph<Key>,
                     ever: Graph<Key>, seen: map<Key, bool>, emitted: set<Key>, starts: set<Key>, demands: set<Key>)
    requires Walking(graph, ever, rules, seen, emitted, {}, {}) && Sourced(ever, starts, demands, seen)
    requires Anchors(starts, demands, seen)
    requires Traces(Full(initial, programs), StartKeys(origins), Wanted(rules, Full(initial, programs), origins), ever,
                    starts, demands)
    requires Remembers(initial, programs, programs.Keys, seen, ever)
    requires forall k :: k in programs && k in seen ==> AllDemanded(programs[k].asked, demands)
    requires StartKeys(origins) <= starts && ConsumerKeys(origins) <= demands
    ensures forall k :: k in seen <==> ReachedFrom(Full(initial, programs), StartKeys(origins), k)
    ensures forall k :: Required(seen, k) <==>
      ReachedFrom(Full(initial, programs), Wanted(rules, Full(initial, programs), origins), k)
  {
    var full := Full(initial, programs);
    var wanted := Wanted(rules, full, origins);
    FullClosed(rules, initial, programs, graph, ever, seen, emitted, demands);
    SeenIsFull(full, StartKeys(origins), wanted, ever, seen, starts, demands);
    WantedRequired(graph, ever, rules, seen, emitted, full, origins, demands);
    RequiredIsFull(full, StartKeys(origins), wanted, ever, seen, starts, demands);
  }

  lemma SeenIsFull(full: Graph<Key>, roots: set<Key>, wanted: set<Key>, ever: Graph<Key>, seen: map<Key, bool>,
                   starts: set<Key>, demands: set<Key>)
    requires Traces(full, roots, wanted, ever, starts, demands) && Sourced(ever, starts, demands, seen)
    requires Anchors(starts, demands, seen)
    requires roots <= starts && Closed(full, seen.Keys)
    ensures forall k :: k in seen <==> ReachedFrom(full, roots, k)
  {
    TracesMarks(full, roots, wanted, ever, starts, demands, seen);
    ClosedHoldsReached(full, roots, seen.Keys);
  }

  lemma RequiredIsFull(full: Graph<Key>, roots: set<Key>, wanted: set<Key>, ever: Graph<Key>, seen: map<Key, bool>,
                       starts: set<Key>, demands: set<Key>)
    requires Traces(full, roots, wanted, ever, starts, demands) && Sourced(ever, starts, demands, seen)
    requires Closed(full, RequiredKeys(seen)) && forall k :: k in wanted ==> Required(seen, k)
    ensures forall k :: Required(seen, k) <==> ReachedFrom(full, wanted, k)
  {
    TracesMarks(full, roots, wanted, ever, starts, demands, seen);
    ClosedHoldsReached(full, wanted, RequiredKeys(seen));
  }

  // ---- What the final graph still reaches ----

  /** Completing program k took away an edge the run walked from it, to d. */
  ghost predicate Lost(initial: Graph<Key>, programs: map<Key, Completion>, k: Key, d: Key) {
    k in programs && (d in Next(initial, k) || d in programs[k].asked) && d !in programs[k].deps
  }

  ghost predicate IsFinal(initial: Graph<Key>, programs: map<Key, Completion>, graph: Graph<Key>) {
    forall k :: Next(graph, k) == if k in programs then programs[k].deps else Next(initial, k)
  }

  /** Some lost edge of a rule still reached led to this key. */
  ghost predicate ReachedByLost(initial: Graph<Key>, programs: map<Key, Completion>, graph: Graph<Key>, roots: set<Key>,
                                key: Key)
  {
    exists k, d ::
      Lost(initial, programs, k, d) && ReachedFrom(graph, roots, k) && Reaches(Full(initial, programs), d, key)
  }

  /** Each key is still reached, or was reached through an edge that completing took away. */
  lemma {:induction false} FullSplits(initial: Graph<Key>, programs: map<Key, Completion>, graph: Graph<Key>,
                                      roots: set<Key>, p: seq<Key>, i: nat)
    requires IsFinal(initial, programs, graph) && Path(Full(initial, programs), p) && p[0] in roots && i < |p|
    ensures ReachedFrom(graph, roots, p[i]) || ReachedByLost(initial, programs, graph, roots, p[i])
  {
    if i == 0 {
      RootReached(graph, roots, p[0]);
    } else {
      var full := Full(initial, programs);
      FullSplits(initial, programs, graph, roots, p, i - 1);
      FullNext(initial, programs);
      assert p[i - 1 + 1] in Next(full, p[i - 1]);
      if ReachedFrom(graph, roots, p[i - 1]) {
        if p[i] in Next(graph, p[i - 1]) {
          NextReached(graph, roots, p[i - 1]);
        } else {
          ReachesSelf(full, p[i]);
          assert Lost(initial, programs, p[i - 1], p[i]);
        }
      } else {
        var k, d :| Lost(initial, programs, k, d) && ReachedFrom(graph, roots, k) && Reaches(full, d, p[i - 1]);
        ReachesStep(full, d, p[i - 1], p[i]);
      }
    }
  }

  lemma FinalWithinFull(initial: Graph<Key>, programs: map<Key, Completion>, graph: Graph<Key>, roots: set<Key>)
    requires IsFinal(initial, programs, graph)
    ensures forall k :: ReachedFrom(graph, roots, k) ==> ReachedFrom(Full(initial, programs), roots, k)
  {
    FullNext(initial, programs);
    forall k
      ensures Elements(Next(graph, k)) <= Elements(Next(Full(initial, programs), k))
    {
    }
    RootsReached(Full(initial, programs), roots);
    ReachedOver(graph, Full(initial, programs), roots, roots);
  }

  /** What is reached reaches on. */
  lemma ReachedOn(g: Graph<Key>, roots: set<Key>, via: Key, to: Key)
    requires ReachedFrom(g, roots, via) && Reaches(g, via, to)
    ensures ReachedFrom(g, roots, to)
  {
    var p :| Path(g, p) && p[0] == via && p[|p| - 1] == to;
    PathReached(g, g, roots, p, |p| - 1);
  }

  lemma LostWasReached(initial: Graph<Key>, programs: map<Key, Completion>, graph: Graph<Key>, roots: set<Key>,
                       key: Key)
    requires IsFinal(initial, programs, graph) && ReachedByLost(initial, programs, graph, roots, key)
    ensures ReachedFrom(Full(initial, programs), roots, key)
  {
    var full := Full(initial, programs);
    var k, d :| Lost(initial, programs, k, d) && ReachedFrom(graph, roots, k) && Reaches(full, d, key);
    FinalWithinFull(initial, programs, graph, roots);
    FullNext(initial, programs);
    assert d in Next(full, k);
    NextReached(full, roots, k);
    ReachedOn(full, roots, d, key);
  }

  /** The full graph reaches a key exactly when the final one does, or through a lost edge of a rule still reached. */
  lemma FullIsFinalOrLost(initial: Graph<Key>, programs: map<Key, Completion>, graph: Graph<Key>, roots: set<Key>,
                          key: Key)
    requires IsFinal(initial, programs, graph)
    ensures ReachedFrom(Full(initial, programs), roots, key)
            <==> ReachedFrom(graph, roots, key) || ReachedByLost(initial, programs, graph, roots, key)
  {
    FinalWithinFull(initial, programs, graph, roots);
    if ReachedByLost(initial, programs, graph, roots, key) {
      LostWasReached(initial, programs, graph, roots, key);
    } else if ReachedFrom(Full(initial, programs), roots, key) {
      var full := Full(initial, programs);
      var r :| r in roots && Reaches(full, r, key);
      var p :| Path(full, p) && p[0] == r && p[|p| - 1] == key;
      FullSplits(initial, programs, graph, roots, p, |p| - 1);
    }
  }

  lemma {:induction false} PathStays(g: Graph<Key>, graph: Graph<Key>, roots: set<Key>, p: seq<Key>, i: nat)
    requires Path(g, p) && i < |p| && ReachedFrom(graph, roots, p[0])
    requires forall k, d :: ReachedFrom(graph, roots, k) && d in Next(g, k) ==> ReachedFrom(graph, roots, d)
    ensures ReachedFrom(graph, roots, p[i])
  {
    if i > 0 {
      PathStays(g, graph, roots, p, i - 1);
      assert p[i - 1 + 1] in Next(g, p[i - 1]);
    }
  }

  lemma FinalStays(full: Graph<Key>, graph: Graph<Key>, roots: set<Key>)
    requires forall k, d :: ReachedFrom(graph, roots, k) && d in Next(full, k) ==> ReachedFrom(graph, roots, d)
    ensures forall k :: ReachedFrom(full, roots, k) ==> ReachedFrom(graph, roots, k)
  {
    forall k | ReachedFrom(full, roots, k)
      ensures ReachedFrom(graph, roots, k)
    {
      var r :| r in roots && Reaches(full, r, k);
      var p :| Path(full, p) && p[0] == r && p[|p| - 1] == k;
      RootReached(graph, roots, r);
      PathStays(full, graph, roots, p, |p| - 1);
    }
  }

  /**
   * The marks track the final graph exactly when every lost edge of a rule still reached leads to one still reached.
   */
  lemma MarksTrackFinal(initial: Graph<Key>, programs: map<Key, Completion>, graph: Graph<Key>, roots: set<Key>)
    requires IsFinal(initial, programs, graph)
    ensures (forall k :: ReachedFrom(Full(initial, programs), roots, k) <==> ReachedFrom(graph, roots, k))
            <==> (forall k, d :: Lost(initial, programs, k, d) && ReachedFrom(graph, roots, k) ==>
                    ReachedFrom(graph, roots, d))
  {
    var full := Full(initial, programs);
    FullNext(initial, programs);
    FinalWithinFull(initial, programs, graph, roots);
    if k, d :| Lost(initial, programs, k, d) && ReachedFrom(graph, roots, k) && !ReachedFrom(graph, roots, d) {
      NextReached(full, roots, k);
      assert d in Next(full, k);
    } else {
      forall k, d | ReachedFrom(graph, roots, k) && d in Next(full, k)
        ensures ReachedFrom(graph, roots, d)
      {
        NextReached(graph, roots, k);
        assert d in Next(graph, k) || Lost(initial, programs, k, d);
      }
      FinalStays(full, graph, roots);
    }
  }

  /**
   * Emit tracks the final graph exactly when no rule that takes emit hangs on lost edges alone:
   * each one a lost edge of a rule still reached led to is itself still reached.
   */
  lemma EmitTracksFinal(rules: map<Key, Rule>, initial: Graph<Key>, programs: map<Key, Completion>, graph: Graph<Key>,
                        roots: set<Key>)
    requires IsFinal(initial, programs, graph)
    ensures (forall k :: SetsEmit(rules, k) ==>
               (ReachedFrom(Full(initial, programs), roots, k) <==> ReachedFrom(graph, roots, k)))
            <==> (forall k :: SetsEmit(rules, k) && ReachedByLost(initial, programs, graph, roots, k) ==>
                    ReachedFrom(graph, roots, k))
  {
    forall k
      ensures ReachedFrom(Full(initial, programs), roots, k)
              <==> ReachedFrom(graph, roots, k) || ReachedByLost(initial, programs, graph, roots, k)
    {
      FullIsFinalOrLost(initial, programs, graph, roots, k);
    }
  }

  predicate IsAlias(rules: map<Key, Rule>, k: Key) {
    k in rules && rules[k].kind.Alias?
  }

  /** Each key of the trail but the last is an alias of the next. */
  ghost predicate AliasSteps(rules: map<Key, Rule>, graph: Graph<Key>, trail: seq<Key>) {
    && trail != []
    && forall i :: 0 <= i < |trail| - 1 ==>
        IsAlias(rules, trail[i]) && Next(graph, trail[i]) != [] && trail[i + 1] == Next(graph, trail[i])[0]
  }

  /** Aliases all the way to a key that is none. */
  ghost predicate AliasTrail(rules: map<Key, Rule>, graph: Graph<Key>, trail: seq<Key>) {
    AliasSteps(rules, graph, trail) && !IsAlias(rules, trail[|trail| - 1])
  }

  /** A trail that starts among aliases of one another never leaves them. */
  lemma TrailStays(rules: map<Key, Rule>, graph: Graph<Key>, met: set<Key>)
    requires forall k :: k in met ==> IsAlias(rules, k)
    requires forall k :: k in met && Next(graph, k) != [] ==> Next(graph, k)[0] in met
    ensures forall trail :: AliasTrail(rules, graph, trail) ==> trail[0] !in met
  {
    forall trail | AliasTrail(rules, graph, trail)
      ensures trail[0] !in met
    {
      if trail[0] in met {
        TrailWithin(rules, graph, met, trail, |trail| - 1);
      }
    }
  }

  lemma {:induction false} TrailWithin(rules: map<Key, Rule>, graph: Graph<Key>, met: set<Key>, trail: seq<Key>, i: nat)
    requires AliasSteps(rules, graph, trail) && trail[0] in met && i < |trail|
    requires forall k :: k in met && Next(graph, k) != [] ==> Next(graph, k)[0] in met
    ensures trail[i] in met
  {
    if i > 0 {
      TrailWithin(rules, graph, met, trail, i - 1);
      assert trail[i - 1 + 1] == Next(graph, trail[i - 1])[0];
    }
  }

  /** The key's aliases lead to target, which is no alias. */
  ghost predicate Names(rules: map<Key, Rule>, graph: Graph<Key>, key: Key, target: Key) {
    exists trail :: AliasTrail(rules, graph, trail) && trail[0] == key && trail[|trail| - 1] == target
  }

  lemma {:induction false} TrailsAgree(rules: map<Key, Rule>, graph: Graph<Key>, a: seq<Key>, b: seq<Key>, i: nat)
    requires AliasTrail(rules, graph, a) && AliasSteps(rules, graph, b) && a[0] == b[0] && i < |b|
    ensures i < |a| && a[i] == b[i]
  {
    if i > 0 {
      TrailsAgree(rules, graph, a, b, i - 1);
      assert b[i - 1 + 1] == Next(graph, b[i - 1])[0];
      assert i < |a|;
      assert a[i - 1 + 1] == Next(graph, a[i - 1])[0];
    }
  }

  lemma NamesOne(rules: map<Key, Rule>, graph: Graph<Key>, key: Key, target: Key, other: Key)
    requires Names(rules, graph, key, target) && Names(rules, graph, key, other)
    ensures target == other
  {
    var a :| AliasTrail(rules, graph, a) && a[0] == key && a[|a| - 1] == target;
    var b :| AliasTrail(rules, graph, b) && b[0] == key && b[|b| - 1] == other;
    TrailsAgree(rules, graph, a, b, |b| - 1);
    TrailsAgree(rules, graph, b, a, |a| - 1);
  }

  // ---- The programs a completion pulls in ----

  /** The rules these questions lead to. */
  ghost function Callees(rules: map<Key, Rule>, graph: Graph<Key>, asked: seq<Key>): set<Key> {
    set t | t in rules && exists a :: a in asked && Names(rules, graph, a, t)
  }

  ghost function Calls(rules: map<Key, Rule>, graph: Graph<Key>, programs: map<Key, Completion>, p: Key): set<Key> {
    if p in programs then Callees(rules, graph, programs[p].asked) else {}
  }

  /** A set that holds the pending seeds, and the pending programs its own members ask about. */
  ghost predicate HoldsAsked(rules: map<Key, Rule>, graph: Graph<Key>, programs: map<Key, Completion>,
                             pending: set<Key>, seeds: set<Key>, s: set<Key>)
  {
    var holds := (forall t :: t in seeds && t in pending ==> t in s)
                 && (forall p, t :: p in s && t in Calls(rules, graph, programs, p) && t in pending ==> t in s);
    holds
  }

  /**
   * Exactly the pending seeds, and the pending programs those ask about in turn, were taken: they are the least such
   * set.
   */
  ghost predicate Pulled(rules: map<Key, Rule>, graph: Graph<Key>, programs: map<Key, Completion>, pending: set<Key>,
                         left: set<Key>, seeds: set<Key>)
  {
    var pulled := left <= pending && HoldsAsked(rules, graph, programs, pending, seeds, pending - left)
                  && (forall s {:trigger HoldsAsked(rules, graph, programs, pending, seeds, s)} ::
                        HoldsAsked(rules, graph, programs, pending, seeds, s) ==> pending - left <= s);
    pulled
  }

  lemma PulledThrough(rules: map<Key, Rule>, graph: Graph<Key>, programs: map<Key, Completion>, a: set<Key>,
                      b: set<Key>, c: set<Key>,
                      seeds: set<Key>, seeds': set<Key>)
    requires Pulled(rules, graph, programs, a, b, seeds) && Pulled(rules, graph, programs, b, c, seeds')
    ensures Pulled(rules, graph, programs, a, c, seeds + seeds')
  {
    forall s | HoldsAsked(rules, graph, programs, a, seeds + seeds', s)
      ensures a - c <= s
    {
      assert HoldsAsked(rules, graph, programs, a, seeds, s);
      assert HoldsAsked(rules, graph, programs, b, seeds', s);
      assert a - c == (a - b) + (b - c);
    }
  }

  lemma PulledNone(rules: map<Key, Rule>, graph: Graph<Key>, programs: map<Key, Completion>, pending: set<Key>,
                   seeds: set<Key>)
    requires forall t :: t in seeds ==> t !in pending
    ensures Pulled(rules, graph, programs, pending, pending, seeds)
  {
  }

  lemma PulledTaken(rules: map<Key, Rule>, graph: Graph<Key>, programs: map<Key, Completion>, pending: set<Key>,
                    left: set<Key>, key: Key)
    requires key in pending && Pulled(rules, graph, programs, pending - {key}, left, Calls(rules, graph, programs, key))
    ensures Pulled(rules, graph, programs, pending, left, {key})
  {
    assert pending - left == (pending - {key} - left) + {key};
    forall s | HoldsAsked(rules, graph, programs, pending, {key}, s)
      ensures pending - left <= s
    {
      assert HoldsAsked(rules, graph, programs, pending - {key}, Calls(rules, graph, programs, key), s);
    }
  }

  lemma CalleesJoin(rules: map<Key, Rule>, graph: Graph<Key>, asked: seq<Key>)
    requires asked != []
    ensures Callees(rules, graph, asked) == Callees(rules, graph, [asked[0]]) + Callees(rules, graph, asked[1..])
  {
    assert forall a :: a in asked <==> a in [asked[0]] || a in asked[1..];
  }

  /** Completing changes no alias, so a question leads where it first led. */
  lemma NamesKept(rules: map<Key, Rule>, initial: Graph<Key>, programs: map<Key, Completion>, graph: Graph<Key>,
                  pending: map<Key, Completion>, finished: set<Key>, seen: map<Key, bool>, demands: set<Key>)
    requires Entered(rules, initial, programs, graph, pending, finished, seen, demands)
    ensures forall trail :: AliasTrail(rules, graph, trail) <==> AliasTrail(rules, initial, trail)
  {
    forall k | IsAlias(rules, k)
      ensures Next(graph, k) == Next(initial, k)
    {
      assert k in finished ==> k in programs;
    }
    forall trail
      ensures AliasSteps(rules, graph, trail) <==> AliasSteps(rules, initial, trail)
    {
    }
  }

  class EmissionClosure {
    const rules: map<Key, Rule>
    const origins: seq<Origin>
    var graph: Graph<Key>
    var seen: map<Key, bool>
    var emitted: set<Key>
    var pending: map<Key, Completion>

    // The graph and the programs before anything was completed, and the programs completed since.
    ghost const initial: Graph<Key>
    ghost const programs: map<Key, Completion>
    ghost const full: Graph<Key>
    ghost var finished: set<Key>

    // The edges walked, the keys walked from, and those required without being reached from a required one.
    ghost var ever: Graph<Key>
    ghost var starts: set<Key>
    ghost var demands: set<Key>

    ghost function Starts(): set<Key> {
      StartKeys(origins)
    }

    /** What the run's inputs demand to be published. */
    ghost function Demanded(): set<Key> {
      Wanted(rules, full, origins)
    }

    ghost predicate Walks(visiting: set<Key>, requiring: set<Key>)
      reads this`graph, this`ever, this`seen, this`emitted
    {
      Walking(graph, ever, rules, seen, emitted, visiting, requiring)
    }

    /**
     * Every mark goes back to a start or demand over the edges walked, and those to the run's inputs over the full
     * graph.
     */
    ghost predicate Accounts()
      reads this`ever, this`starts, this`demands, this`seen
    {
      var accounts := Sourced(ever, starts, demands, seen) && Traces(full, Starts(), Demanded(), ever, starts, demands);
      accounts
    }

    /** The run's inputs reach this key, as a start and, if a consumer runs it, as a demand. */
    ghost predicate Traced(key: Key, consumer: bool) {
      var traced := ReachedFrom(full, Starts(), key) && (consumer ==> ReachedFrom(full, Demanded(), key));
      traced
    }

    ghost predicate TracedAll(keys: seq<Key>) {
      AllTraced(full, Starts(), Demanded(), keys)
    }

    ghost predicate Reached(key: Key, required: bool)
      reads this`ever, this`starts, this`demands
    {
      var reached := ReachedFrom(ever, starts, key) && (required ==> ReachedFrom(ever, demands, key));
      reached
    }

    ghost predicate OnlyPromoted(before: set<Key>)
      reads this`demands, this`seen
    {
      PromotesOnly(rules, before, demands, seen)
    }

    method Visit(key: Key, consumer: bool, ghost visiting: set<Key>, ghost requiring: set<Key>) returns (fatal: bool)
      requires Walks(visiting, requiring) && Accounts() && Reached(key, consumer)
      modifies this`seen, this`emitted, this`demands
      ensures Rises(old(seen), seen) && Accounts() && OnlyPromoted(old(demands))
      ensures fatal ==> Blocked(rules, seen)
      ensures !fatal ==> Walks(visiting, requiring) && key in seen && (consumer ==> seen[key])
      decreases Unmarked(graph, seen), 0
    {
      if key in seen && (seen[key] || !consumer) {
        return false;
      }
      var required, blocked := Mark(key, consumer, visiting, requiring);
      if blocked {
        return true;
      }
      if key in graph {
        MarkingDescends(graph, old(seen), seen, key);
        fatal := VisitAll(key, graph[key], required, Opened(visiting, key, !required),
                          Opened(requiring, key, required));
        if fatal {
          return;
        }
      }
      FrameCloses(graph, ever, rules, seen, emitted, visiting, requiring, key, required);
      return false;
    }

    /** Marks a key, promoting a managed compiler to required and setting its emit. */
    method Mark(key: Key, consumer: bool, ghost visiting: set<Key>, ghost requiring: set<Key>)
      returns (required: bool, fatal: bool)
      requires Walks(visiting, requiring) && Accounts() && Reached(key, consumer)
      requires !Required(seen, key) && (key in seen ==> consumer)
      modifies this`seen, this`emitted, this`demands
      ensures required == (consumer || Promotes(rules, key)) && seen == old(seen)[key := required]
      ensures Rises(old(seen), seen) && Accounts() && OnlyPromoted(old(demands))
      ensures fatal ==> Blocked(rules, seen)
      ensures !fatal ==>
        Walks(Opened(visiting, key, !required), Opened(requiring, key, required)) && Reached(key, required)
      ensures Next(ever, key) == Next(graph, key)
    {
      required := consumer || Promotes(rules, key);
      if Promotes(rules, key) {
        demands := demands + {key};
        SourcedMore(ever, starts, old(demands), starts, demands, seen);
        MoreRootsReach(ever, old(demands), demands);
        RootReached(ever, demands, key);
      }
      MarkSourced(ever, starts, demands, seen, key, required);
      seen := seen[key := required];
      TracesPromoted(rules, full, origins, ever, starts, old(demands), demands, seen);
      if required && !Publishable(rules, key) {
        assert Required(seen, key);
        return required, true;
      }
      FrameOpens(graph, ever, rules, old(seen), emitted, visiting, requiring, key, consumer, required);
      emitted := if SetsEmit(rules, key) then emitted + {key} else emitted;
      fatal := false;
    }

    /** Visits a marked key's dependencies in turn. */
    method VisitAll(ghost key: Key, dependencies: seq<Key>, required: bool, ghost visiting: set<Key>,
                    ghost requiring: set<Key>) returns (fatal: bool)
      requires Walks(visiting, requiring) && Accounts() && Reached(key, required)
      requires forall d :: d in dependencies ==> d in Next(ever, key)
      modifies this`seen, this`emitted, this`demands
      ensures Rises(old(seen), seen) && Accounts() && OnlyPromoted(old(demands))
      ensures fatal ==> Blocked(rules, seen)
      ensures !fatal ==> Walks(visiting, requiring) && MarkedUpTo(dependencies, |dependencies|, required, seen)
      decreases Unmarked(graph, seen), 1
    {
      for i := 0 to |dependencies|
        invariant Walks(visiting, requiring) && Accounts() && Reached(key, required) && OnlyPromoted(old(demands))
        invariant Rises(old(seen), seen) && Unmarked(graph, seen) <= Unmarked(graph, old(seen))
        invariant MarkedUpTo(dependencies, i, required, seen)
      {
        ghost var marks, before := seen, demands;
        OneReached(ever, starts, demands, key, dependencies[i], required);
        fatal := Visit(dependencies[i], required, visiting, requiring);
        RisesThrough(old(seen), marks, seen);
        PromotesThrough(rules, old(demands), before, demands, marks, seen);
        if fatal {
          return;
        }
        RisingKeepsDescent(graph, marks, seen);
        MarkedMore(dependencies, i, required, marks, seen);
        StillReached(ever, before, demands, key);
      }
      return false;
    }

    /** Every start is marked, and every demand required. */
    ghost predicate Anchored()
      reads this`starts, this`demands, this`seen
    {
      Anchors(starts, demands, seen)
    }

    ghost predicate Between()
      reads this`graph, this`ever, this`seen, this`emitted, this`starts, this`demands
    {
      var between := Walks({}, {}) && Accounts() && Anchored();
      between
    }

    /** Walks from a key nothing else need reach. */
    method Start(key: Key, consumer: bool) returns (fatal: bool)
      requires Between() && Traced(key, consumer)
      modifies this`seen, this`emitted, this`starts, this`demands
      ensures starts == old(starts) + {key} && OnlyPromoted(old(demands) + (if consumer then {key} else {}))
      ensures Rises(old(seen), seen) && Accounts() && (fatal ==> Blocked(rules, seen))
      ensures !fatal ==> Between() && key in seen && (consumer ==> seen[key])
    {
      TracesStart(full, Starts(), Demanded(), ever, starts, demands, key, consumer);
      starts := starts + {key};
      demands := demands + (if consumer then {key} else {});
      SourcedMore(ever, old(starts), old(demands), starts, demands, seen);
      RootReached(ever, starts, key);
      if consumer {
        RootReached(ever, demands, key);
      }
      fatal := Visit(key, consumer, {}, {});
    }

    // ---- Completing programs ----

    /** What the completed programs have done so far. */
    ghost predicate Ledger()
      reads this`graph, this`ever, this`pending, this`finished, this`demands, this`seen
    {
      var ledger := Kept(rules, initial, programs, graph, ever, pending, finished, seen, demands)
                    && full == Full(initial, programs);
      ledger
    }

    /** Follows aliases to the rule they name; a loop of aliases, or an alias of nothing, names none. */
    method RuleTarget(key: Key) returns (target: Option<Key>)
      ensures target.Some? ==> Reaches(graph, key, target.value)
      ensures target.Some? ==> Names(rules, graph, key, target.value)
      ensures target.None? ==> forall trail :: AliasTrail(rules, graph, trail) ==> trail[0] != key
    {
      var at, met := key, {};
      ghost var trail := [key];
      ReachesSelf(graph, key);
      while at !in met
        invariant Reaches(graph, key, at) && met <= rules.Keys && key in met + {at}
        invariant AliasSteps(rules, graph, trail) && trail[0] == key && trail[|trail| - 1] == at
        invariant forall k :: k in met ==> IsAlias(rules, k) && Next(graph, k) != [] && Next(graph, k)[0] in met + {at}
        decreases rules.Keys - met
      {
        if !IsAlias(rules, at) {
          return Some(at);
        }
        if Next(graph, at) == [] {
          TrailStays(rules, graph, met + {at});
          return None;
        }
        met := met + {at};
        ReachesStep(graph, key, at, Next(graph, at)[0]);
        at := Next(graph, at)[0];
        trail := trail + [at];
      }
      TrailStays(rules, graph, met);
      return None;
    }

    ghost function Now(): Snapshot
      reads this`seen, this`emitted, this`pending, this`finished, this`starts, this`demands
    {
      Snapshot(seen, emitted, pending.Keys, finished, starts, demands)
    }

    /** While rooted programs complete, every finished one is marked; afterwards, no pending one is. */
    ghost predicate Phase(rooted: bool)
      reads this`graph, this`ever, this`seen, this`emitted, this`starts, this`demands, this`pending, this`finished
    {
      var phase := Between() && Ledger() && if rooted then finished <= seen.Keys else pending.Keys !! seen.Keys;
      phase
    }

    /** A step of the completion loop, whether or not it ended the run. */
    ghost predicate Advances(from: Snapshot, extra: set<Key>, rooted: bool, fatal: bool)
      reads this`graph, this`ever, this`seen, this`emitted, this`starts, this`demands, this`pending, this`finished
    {
      var advances := Grows(from, Now()) && Accounts()
                      && (if fatal then rooted && Blocked(rules, seen)
                          else Phase(rooted) && Completes(from, Now(), extra, rooted));
      advances
    }

    lemma AdvancesThrough(from: Snapshot, via: Snapshot, extra: set<Key>, extra': set<Key>, rooted: bool, fatal: bool)
      requires Grows(from, via) && Completes(from, via, extra, rooted) && Advances(via, extra', rooted, fatal)
      ensures Advances(from, extra + extra', rooted, fatal)
    {
      GrowsThrough(from, via, Now());
      if !fatal {
        CompletesThrough(from, via, Now(), extra, extra', rooted);
      }
    }

    lemma RequiredHolds(key: Key, target: Key)
      requires Walks({}, {}) && Required(seen, key) && Reaches(graph, key, target)
      ensures Required(seen, target)
    {
      var required := set k | k in seen && seen[k];
      forall x, y | x in required && y in Next(graph, x)
        ensures y in required
      {
        assert y in Elements(Next(graph, x));
        assert Required(seen, x) && Required(seen, y);
      }
      ClosedHolds(graph, required, key, target);
    }

    /** Leaves a completed program's dependencies on its rule. */
    method Replace(key: Key, deps: seq<Key>)
      requires Between() && Ledger() && key in programs && key !in pending && key !in finished
      requires deps == programs[key].deps
      requires key in seen ==> seen[key] && AllDemanded(programs[key].asked, demands)
      modifies this`graph, this`ever, this`finished
      ensures Walks({}, {key}) && Accounts() && Anchored() && Ledger() && finished == old(finished) + {key}
      ensures key !in seen ==> Between()
      ensures ever == Replaced(old(ever), seen, key, deps)
    {
      ReplacedSourced(ever, starts, demands, seen, key, deps);
      TracesReplaced(initial, programs, Starts(), Demanded(), ever, starts, demands, seen, key);
      ReplacedWalks(graph, ever, rules, seen, emitted, key, deps);
      KeptNext(rules, initial, programs, graph, ever, pending, finished, seen, demands, key);
      graph := graph[key := deps];
      ever := Replaced(ever, seen, key, deps);
      finished := finished + {key};
    }

    /** Requires a required program's new dependencies. */
    method Rewire(key: Key, deps: seq<Key>) returns (fatal: bool)
      requires Between() && Ledger() && key in programs && key !in pending && key !in finished
      requires deps == programs[key].deps
      requires Required(seen, key) && finished <= seen.Keys
      requires AllDemanded(programs[key].asked, demands)
      modifies this`graph, this`ever, this`finished, this`seen, this`emitted, this`demands
      ensures Rises(old(seen), seen) && Accounts() && (fatal ==> Blocked(rules, seen)) && OnlyPromoted(old(demands))
      ensures !fatal ==> Between() && Ledger() && finished == old(finished) + {key} && finished <= seen.Keys
    {
      ghost var before := ever;
      Replace(key, deps);
      ReplacedKeeps(before, ever, starts, demands, seen, key, deps);
      fatal := VisitAll(key, deps, true, {}, {key});
      if !fatal {
        AnchorsMore(rules, starts, old(demands), old(seen), demands, seen);
        ReplacedCloses(graph, before, rules, old(seen), seen, emitted, key, deps);
        KeptMore(rules, initial, programs, graph, ever, pending, finished, old(seen), old(demands), seen, demands);
      }
    }

    /** What left pending is exactly what these programs stand for. */
    ghost predicate Took(before: set<Key>, seeds: set<Key>)
      reads this`pending
    {
      Pulled(rules, initial, programs, before, pending.Keys, seeds)
    }

    /** Completes one program, first answering each owner it asks about. */
    method Complete(key: Key, completion: Completion, rooted: bool) returns (fatal: bool)
      requires Phase(rooted) && key in programs && programs[key] == completion && key !in pending && key !in finished
      requires if rooted then Required(seen, key) else key !in seen
      modifies this
      ensures Advances(old(Now()), {key}, rooted, fatal)
      ensures !fatal ==> Took(old(pending.Keys), Calls(rules, initial, programs, key))
      decreases pending.Keys, 3
    {
      if rooted {
        TracesAsked(initial, programs, Starts(), Demanded(), ever, starts, demands, seen, key);
      }
      fatal := AnswerAll(completion.asked, rooted);
      if fatal {
        return;
      }
      ghost var now := Now();
      fatal := Finish(key, completion, rooted);
      AdvancesThrough(old(Now()), now, {}, {key}, rooted, fatal);
    }

    method AnswerAll(asked: seq<Key>, rooted: bool) returns (fatal: bool)
      requires Phase(rooted) && (rooted ==> TracedAll(asked))
      modifies this
      ensures Advances(old(Now()), {}, rooted, fatal)
      ensures !fatal && rooted ==> AllDemanded(asked, demands)
      ensures !fatal ==> Took(old(pending.Keys), Callees(rules, initial, asked))
      decreases pending.Keys, 2, |asked|
    {
      if asked == [] {
        PulledNone(rules, initial, programs, pending.Keys, Callees(rules, initial, asked));
        return false;
      }
      if rooted {
        TracedRest(full, Starts(), Demanded(), asked);
      }
      fatal := Answer(asked[0], rooted);
      if fatal {
        return;
      }
      ghost var now := Now();
      fatal := AnswerAll(asked[1..], rooted);
      AdvancesThrough(old(Now()), now, {}, {}, rooted, fatal);
      if !fatal {
        CalleesJoin(rules, initial, asked);
        PulledThrough(rules, initial, programs, old(pending.Keys), now.pending, pending.Keys,
                      Callees(rules, initial, [asked[0]]), Callees(rules, initial, asked[1..]));
        if rooted {
          DemandedMore(asked, now.demands, demands);
        }
      }
    }

    method Finish(key: Key, completion: Completion, rooted: bool) returns (fatal: bool)
      requires Phase(rooted) && key in programs && programs[key] == completion && key !in pending && key !in finished
      requires if rooted then Required(seen, key) && AllDemanded(completion.asked, demands) else key !in seen
      modifies this`graph, this`ever, this`finished, this`seen, this`emitted, this`demands
      ensures Advances(old(Now()), {key}, rooted, fatal)
    {
      if rooted {
        fatal := Rewire(key, completion.deps);
      } else {
        Replace(key, completion.deps);
        fatal := false;
      }
    }

    /** Requires an owner a rooted program asks about, and completes it first if it is pending. */
    method Answer(asked: Key, rooted: bool) returns (fatal: bool)
      requires Phase(rooted) && (rooted ==> Traced(asked, true))
      modifies this
      ensures Advances(old(Now()), {}, rooted, fatal)
      ensures !fatal && rooted ==> asked in demands
      ensures !fatal ==> Took(old(pending.Keys), Callees(rules, initial, [asked]))
      decreases pending.Keys, 1
    {
      if rooted {
        fatal := Ask(asked);
        if fatal {
          return;
        }
      }
      ghost var now := Now();
      var target := RuleTarget(asked);
      AsksFor(asked, target);
      if target.None? || target.value !in pending {
        PulledNone(rules, initial, programs, pending.Keys, Callees(rules, initial, [asked]));
        return false;
      }
      if rooted {
        RequiredHolds(asked, target.value);
      }
      fatal := CompleteOwner(target.value, rooted);
      assert Callees(rules, initial, [asked]) == {target.value};
      AdvancesThrough(old(Now()), now, {}, {}, rooted, fatal);
    }

    /** A question leads to at most one pending program, the one its aliases name. */
    lemma AsksFor(asked: Key, target: Option<Key>)
      requires Ledger()
      requires target.Some? ==> Names(rules, graph, asked, target.value)
      requires target.None? ==> forall trail :: AliasTrail(rules, graph, trail) ==> trail[0] != asked
      ensures Callees(rules, initial, [asked]) == if target.Some? && target.value in rules then {target.value} else {}
    {
      KeptIs(rules, initial, programs, graph, ever, pending, finished, seen, demands);
      NamesKept(rules, initial, programs, graph, pending, finished, seen, demands);
      forall t | t in Callees(rules, initial, [asked])
        ensures target.Some? && t == target.value
      {
        var trail :| AliasTrail(rules, initial, trail) && trail[0] == asked && trail[|trail| - 1] == t;
        assert AliasTrail(rules, graph, trail);
        if target.Some? {
          NamesOne(rules, graph, asked, t, target.value);
        }
      }
      if target.Some? && target.value in rules {
        var trail :| AliasTrail(rules, graph, trail) && trail[0] == asked && trail[|trail| - 1] == target.value;
        assert AliasTrail(rules, initial, trail);
        assert asked in [asked] && Names(rules, initial, asked, target.value);
      }
    }

    method CompleteOwner(key: Key, rooted: bool) returns (fatal: bool)
      requires Phase(rooted) && key in pending && (rooted ==> Required(seen, key))
      modifies this
      ensures Advances(old(Now()), {}, rooted, fatal)
      ensures !fatal ==> Now().pending < old(Now()).pending && Took(old(pending.Keys), {key})
      ensures key in rules
      decreases pending.Keys, 0
    {
      var completion := Take(key, rooted);
      fatal := Complete(key, completion, rooted);
      if !fatal {
        CompletesTaken(old(Now()), Now(), key, rooted);
        PulledTaken(rules, initial, programs, old(pending.Keys), pending.Keys, key);
      }
    }

    method Take(key: Key, rooted: bool) returns (completion: Completion)
      requires Phase(rooted) && key in pending
      modifies this`pending
      ensures pending == old(pending) - {key} && key in programs && completion == programs[key] && key !in finished
      ensures Phase(rooted) && Promotes(rules, key)
    {
      KeptTaken(rules, initial, programs, graph, ever, pending, finished, seen, demands, key);
      completion := pending[key];
      pending := pending - {key};
    }

    method Ask(asked: Key) returns (fatal: bool)
      requires Phase(true) && Traced(asked, true)
      modifies this`seen, this`emitted, this`starts, this`demands
      ensures Advances(old(Now()), {}, true, fatal)
      ensures !fatal ==> asked in demands && Required(seen, asked)
    {
      fatal := Start(asked, true);
      if !fatal {
        KeptMore(rules, initial, programs, graph, ever, pending, finished, old(seen), old(demands), seen, demands);
      }
    }

    constructor (rules: map<Key, Rule>, graph: Graph<Key>, programs: map<Key, Completion>, origins: seq<Origin>)
      requires forall k :: k in programs ==> Promotes(rules, k)
      ensures this.rules == rules && this.graph == graph == initial && this.programs == programs
      ensures this.origins == origins
      ensures full == Full(initial, programs)
      ensures Phase(true) && Now() == Snapshot(map[], {}, programs.Keys, {}, {}, {})
    {
      this.rules, this.graph, this.initial, this.programs, this.origins := rules, graph, graph, programs, origins;
      full := Full(graph, programs);
      seen, emitted, pending := map[], {}, programs;
      ever, starts, demands, finished := graph, {}, {}, {};
      new;
      StartsOut(rules, graph, programs, origins);
    }

    method StartAll() returns (fatal: bool)
      requires Phase(true) && finished == {}
      modifies this`seen, this`emitted, this`starts, this`demands
      ensures Accounts() && (fatal ==> Blocked(rules, seen))
      ensures !fatal ==> Phase(true) && StartKeys(origins) <= starts && ConsumerKeys(origins) <= demands
    {
      for i := 0 to |origins|
        invariant Phase(true) && StartKeys(origins[..i]) <= starts && ConsumerKeys(origins[..i]) <= demands
      {
        ghost var marks, before := seen, demands;
        OriginsMore(origins, i);
        OriginTraced(i);
        fatal := Start(origins[i].key, origins[i].consumer);
        if fatal {
          return;
        }
        KeptMore(rules, initial, programs, graph, ever, pending, finished, marks, before, seen, demands);
      }
      assert origins[..|origins|] == origins;
      return false;
    }

    lemma OriginTraced(i: nat)
      requires i < |origins|
      ensures Traced(origins[i].key, origins[i].consumer)
    {
      assert origins[i] in origins;
      RootReached(full, Starts(), origins[i].key);
      if origins[i].consumer {
        assert origins[i].key in ConsumerKeys(origins);
        RootReached(full, Demanded(), origins[i].key);
      }
    }

    /**
     * The whole closure: visits every start, then completes rooted programs until none is left, then the rest.
     * In whatever order the origins and programs come, the marks are reachability over the full graph, emit is set
     * on exactly the rules the origins reach, and the run ends early exactly when a demanded rule cannot be published.
     */
    method Close() returns (fatal: bool)
      requires Phase(true) && Now() == Snapshot(map[], {}, programs.Keys, {}, {}, {})
      modifies this
      ensures full == Full(initial, programs)
      ensures fatal <==> exists k :: ReachedFrom(full, Demanded(), k) && !Publishable(rules, k)
      ensures !fatal ==> IsFinal(initial, programs, graph)
      ensures !fatal ==> forall k :: k in seen <==> ReachedFrom(full, Starts(), k)
      ensures !fatal ==> forall k :: Required(seen, k) <==> ReachedFrom(full, Demanded(), k)
      ensures !fatal ==> forall k :: k in emitted <==> SetsEmit(rules, k) && ReachedFrom(full, Starts(), k)
      ensures !fatal ==> forall k, n :: Required(seen, k) && n in Next(graph, k) ==> Required(seen, n)
      ensures !fatal ==> forall k :: k in seen && Promotes(rules, k) ==> Required(seen, k)
      ensures !fatal ==>
        ((forall k :: k in emitted <==> SetsEmit(rules, k) && ReachedFrom(graph, Starts(), k)) <==>
         (forall k :: SetsEmit(rules, k) && ReachedByLost(initial, programs, graph, Starts(), k) ==>
            ReachedFrom(graph, Starts(), k)))
    {
      fatal := CloseMarks();
      if fatal {
        BlockedReached();
        return;
      }
      KeptIs(rules, initial, programs, graph, ever, pending, finished, seen, demands);
      MarksAreFull(rules, initial, programs, origins, graph, ever, seen, emitted, starts, demands);
      MarksAreKept();
      EmitTracksFinal(rules, initial, programs, graph, Starts());
    }

    /** What the marks say of publishing and of the graph as it is now. */
    lemma MarksAreKept()
      requires Walks({}, {})
      ensures forall k :: Required(seen, k) ==> Publishable(rules, k)
      ensures forall k :: k in emitted <==> k in seen && SetsEmit(rules, k)
      ensures forall k :: k in seen && Promotes(rules, k) ==> Required(seen, k)
      ensures forall k, n :: Required(seen, k) && n in Next(graph, k) ==> Required(seen, n)
    {
      forall k, n | Required(seen, k) && n in Next(graph, k)
        ensures Required(seen, n)
      {
        assert n in Elements(Next(graph, k));
        assert n in Elements(Next(ever, k));
      }
    }

    method CloseMarks() returns (fatal: bool)
      requires Phase(true) && Now() == Snapshot(map[], {}, programs.Keys, {}, {}, {})
      modifies this
      ensures Accounts() && (fatal ==> Blocked(rules, seen))
      ensures !fatal ==> Phase(false) && finished == programs.Keys
      ensures !fatal ==> StartKeys(origins) <= starts && ConsumerKeys(origins) <= demands
    {
      fatal := StartAll();
      if fatal {
        return;
      }
      fatal := CompleteRooted();
      if fatal {
        return;
      }
      CompleteUnrooted();
    }

    lemma BlockedReached()
      requires Accounts() && Blocked(rules, seen)
      ensures exists k :: ReachedFrom(full, Demanded(), k) && !Publishable(rules, k)
    {
      TracesMarks(full, Starts(), Demanded(), ever, starts, demands, seen);
      var k :| Required(seen, k) && !Publishable(rules, k);
      assert ReachedFrom(full, Demanded(), k);
    }

    /** Completes programs that are required until no pending one is. */
    method CompleteRooted() returns (fatal: bool)
      requires Phase(true)
      modifies this
      ensures Advances(old(Now()), {}, true, fatal)
      ensures !fatal ==> Phase(false)
    {
      while exists k :: k in pending && Required(seen, k)
        invariant Advances(old(Now()), {}, true, false) && Phase(true)
        decreases pending.Keys
      {
        ghost var now := Now();
        var key :| key in pending && Required(seen, key);
        fatal := CompleteOwner(key, true);
        AdvancesThrough(old(Now()), now, {}, {}, true, fatal);
        if fatal {
          return;
        }
      }
      KeptUnmarked(graph, ever, rules, initial, programs, pending, finished, seen, emitted, demands);
      return false;
    }

    /** Completes the programs no runtime consumer reaches; nothing is marked any more. */
    method CompleteUnrooted()
      requires Phase(false)
      modifies this
      ensures Advances(old(Now()), {}, false, false) && Phase(false) && pending == map[]
    {
      while pending != map[]
        invariant Advances(old(Now()), {}, false, false) && Phase(false)
        decreases pending.Keys
      {
        ghost var now := Now();
        assert pending.Keys != {};
        var key :| key in pending;
        var fatal := CompleteOwner(key, false);
        AdvancesThrough(old(Now()), now, {}, {}, false, fatal);
      }
    }
  }

  /** A program completed without its one dependency leaves it to the full graph alone. */
  lemma DroppedIsLost(initial: Graph<Key>, programs: map<Key, Completion>, graph: Graph<Key>, app: Key, lost: Key)
    requires IsFinal(initial, programs, graph) && programs == map[app := Completion([], [])]
    requires lost in Next(initial, app) && app != lost
    ensures ReachedFrom(Full(initial, programs), {app}, lost) && !ReachedFrom(graph, {app}, lost)
  {
    FullNext(initial, programs);
    RootReached(Full(initial, programs), {app}, app);
    NextReached(Full(initial, programs), {app}, app);
    assert Next(graph, app) == [];
    ClosedHoldsReached(graph, {app}, {app});
  }

  /** A dependency that completing drops after the walk keeps its emit, though the final graph no longer reaches it. */
  method DroppedKeepsEmission() returns (closure: EmissionClosure, app: Key, lost: Key)
    ensures lost in closure.emitted && closure.Starts() == {app} && !ReachedFrom(closure.graph, closure.Starts(), lost)
  {
    app, lost := Key("app"), Key("old");
    var compiled := Rule(Compiler, true, false, SourceEmission, false, false);
    var rules := map[app := compiled, lost := compiled];
    closure := new EmissionClosure(rules, map[app := [lost]], map[app := Completion([], [])], [Origin(app, true)]);
    assert StartKeys([Origin(app, true)]) == {app} by {
      assert Origin(app, true) in [Origin(app, true)];
    }
    assert forall k :: Publishable(rules, k);
    assert SetsEmit(rules, lost);
    var fatal := closure.Close();
    DroppedIsLost(closure.initial, closure.programs, closure.graph, app, lost);
  }
}
