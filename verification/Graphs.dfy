/** Reachability in a finite directed graph, shared by every closure in the model. */
module Graphs {

  /** A graph is its nodes' successor lists; a node without an entry has none. */
  type Graph<T(==)> = map<T, seq<T>>

  function Next<T>(g: Graph<T>, x: T): seq<T> {
    if x in g then g[x] else []
  }

  /** Nodes, each one a successor of the node before it. */
  ghost predicate Path<T(!new)>(g: Graph<T>, p: seq<T>) {
    && p != []
    && forall i :: 0 <= i < |p| - 1 ==> p[i + 1] in Next(g, p[i])
  }

  ghost predicate Reaches<T(!new)>(g: Graph<T>, from: T, to: T) {
    exists p: seq<T> :: Path(g, p) && p[0] == from && p[|p| - 1] == to
  }

  ghost predicate ReachedFrom<T(!new)>(g: Graph<T>, roots: set<T>, x: T) {
    exists r :: r in roots && Reaches(g, r, x)
  }

  /** Every successor of a member is a member. */
  ghost predicate Closed<T(!new)>(g: Graph<T>, s: set<T>) {
    forall x, y :: x in s && y in Next(g, x) ==> y in s
  }

  lemma ReachesSelf<T(!new)>(g: Graph<T>, x: T)
    ensures Reaches(g, x, x)
  {
    assert Path(g, [x]);
  }

  lemma ReachesStep<T(!new)>(g: Graph<T>, from: T, via: T, to: T)
    requires Reaches(g, from, via) && to in Next(g, via)
    ensures Reaches(g, from, to)
  {
    var p :| Path(g, p) && p[0] == from && p[|p| - 1] == via;
    assert Path(g, p + [to]);
  }

  /** A closed set that holds a node holds everything the node reaches. */
  lemma ClosedHolds<T(!new)>(g: Graph<T>, s: set<T>, from: T, to: T)
    requires Closed(g, s) && from in s && Reaches(g, from, to)
    ensures to in s
  {
    var p :| Path(g, p) && p[0] == from && p[|p| - 1] == to;
    ClosedHoldsPath(g, s, p, |p| - 1);
  }

  lemma {:induction false} ClosedHoldsPath<T(!new)>(g: Graph<T>, s: set<T>, p: seq<T>, k: nat)
    requires Closed(g, s) && Path(g, p) && k < |p| && p[0] in s
    ensures p[k] in s
  {
    if k > 0 {
      ClosedHoldsPath(g, s, p, k - 1);
      assert p[k - 1 + 1] in Next(g, p[k - 1]);
    }
  }

  lemma RootReached<T(!new)>(g: Graph<T>, roots: set<T>, r: T)
    requires r in roots
    ensures ReachedFrom(g, roots, r)
  {
    ReachesSelf(g, r);
  }

  lemma RootsReached<T(!new)>(g: Graph<T>, roots: set<T>)
    ensures forall r :: r in roots ==> ReachedFrom(g, roots, r)
  {
    forall r | r in roots
      ensures ReachedFrom(g, roots, r)
    {
      RootReached(g, roots, r);
    }
  }

  lemma NextReached<T(!new)>(g: Graph<T>, roots: set<T>, x: T)
    requires ReachedFrom(g, roots, x)
    ensures forall y :: y in Next(g, x) ==> ReachedFrom(g, roots, y)
  {
    var r :| r in roots && Reaches(g, r, x);
    forall y | y in Next(g, x)
      ensures ReachedFrom(g, roots, y)
    {
      ReachesStep(g, r, x, y);
    }
  }

  lemma ClosedHoldsReached<T(!new)>(g: Graph<T>, roots: set<T>, s: set<T>)
    requires roots <= s && Closed(g, s)
    ensures forall x :: ReachedFrom(g, roots, x) ==> x in s
  {
    forall x | ReachedFrom(g, roots, x)
      ensures x in s
    {
      var r :| r in roots && Reaches(g, r, x);
      ClosedHolds(g, s, r, x);
    }
  }

  function Elements<T>(s: seq<T>): set<T> {
    set x | x in s
  }

  lemma ElementsJoin<T>(a: seq<T>, b: seq<T>)
    ensures Elements(a + b) == Elements(a) + Elements(b)
  {
  }

  lemma ElementsPop<T>(queue: seq<T>)
    requires queue != []
    ensures Elements(queue) == Elements(queue[1..]) + {queue[0]}
  {
    assert queue == [queue[0]] + queue[1..];
    ElementsJoin([queue[0]], queue[1..]);
  }

  /** A search's progress: every successor of a seen node is seen or pending, and all of them are reached. */
  ghost predicate Searched<T(!new)>(g: Graph<T>, roots: set<T>, seen: set<T>, pending: set<T>) {
    var searched := roots <= seen + pending
                    && (forall x, y :: x in seen && y in Next(g, x) ==> y in seen + pending)
                    && (forall x :: x in seen + pending ==> ReachedFrom(g, roots, x));
    searched
  }

  lemma SearchStep<T(!new)>(g: Graph<T>, roots: set<T>, seen: set<T>, pending: set<T>, x: T)
    requires Searched(g, roots, seen, pending + {x})
    ensures Searched(g, roots, seen + {x}, pending + Elements(Next(g, x)))
  {
    NextReached(g, roots, x);
    var seen', pending' := seen + {x}, pending + Elements(Next(g, x));
    forall y | y in seen' + pending'
      ensures ReachedFrom(g, roots, y)
    {
      assert y in seen + (pending + {x}) || y in Next(g, x);
    }
    forall y, z | y in seen' && z in Next(g, y)
      ensures z in seen' + pending'
    {
      assert y == x || z in seen + (pending + {x});
    }
  }

  lemma SearchAgain<T(!new)>(g: Graph<T>, roots: set<T>, seen: set<T>, pending: set<T>, x: T)
    requires Searched(g, roots, seen, pending + {x}) && x in seen
    ensures Searched(g, roots, seen, pending)
  {
    assert seen + (pending + {x}) == seen + pending;
  }

  lemma SearchDone<T(!new)>(g: Graph<T>, roots: set<T>, seen: set<T>)
    requires Searched(g, roots, seen, {})
    ensures IsClosure(g, roots, seen)
    ensures forall x :: x in seen <==> ReachedFrom(g, roots, x)
  {
    assert seen + {} == seen;
    ClosureIsLeast(g, roots, seen);
  }

  /** The closure of roots: closed, above the roots, and holding only what they reach. */
  ghost predicate IsClosure<T(!new)>(g: Graph<T>, roots: set<T>, s: set<T>) {
    && roots <= s
    && Closed(g, s)
    && forall x :: x in s ==> ReachedFrom(g, roots, x)
  }

  /** The closure is exactly what the roots reach, and lies in every closed set above them. */
  lemma ClosureIsLeast<T(!new)>(g: Graph<T>, roots: set<T>, s: set<T>)
    requires IsClosure(g, roots, s)
    ensures forall x :: x in s <==> ReachedFrom(g, roots, x)
    ensures forall t: set<T> :: roots <= t && Closed(g, t) ==> s <= t
  {
    ClosedHoldsReached(g, roots, s);
    forall t: set<T> | roots <= t && Closed(g, t)
      ensures s <= t
    {
      ClosedHoldsReached(g, roots, t);
    }
  }

  /** Seeing a node leaves fewer to see, or the node has no successors. */
  lemma SeesMore<T>(g: Graph<T>, seen: set<T>, x: T)
    requires x !in seen
    ensures if x in g then g.Keys - (seen + {x}) < g.Keys - seen
        else g.Keys - (seen + {x}) == g.Keys - seen && Next(g, x) == []
  {
    if x in g {
      assert x in g.Keys - seen;
    }
  }

  method ListOf<T(==)>(s: set<T>) returns (r: seq<T>)
    ensures Elements(r) == s
  {
    r := [];
    var todo := s;
    while todo != {}
      invariant todo <= s && Elements(r) == s - todo
    {
      var x :| x in todo;
      ElementsJoin(r, [x]);
      r, todo := r + [x], todo - {x};
    }
  }

  /** Whether everything the roots reach is allowed, stopping at the first node that is not. */
  method ReachesOnly<T(==, !new)>(g: Graph<T>, roots: set<T>, allowed: set<T>) returns (only: bool)
    ensures only <==> forall x :: ReachedFrom(g, roots, x) ==> x in allowed
  {
    var seen, queue := {}, [];
    queue := ListOf(roots);
    RootsReached(g, roots);
    while queue != []
      invariant seen <= allowed && Searched(g, roots, seen, Elements(queue))
      decreases g.Keys - seen, |queue|
    {
      var key := queue[0];
      ElementsPop(queue);
      queue := queue[1..];
      if key in seen {
        SearchAgain(g, roots, seen, Elements(queue), key);
        continue;
      }
      if key !in allowed {
        assert ReachedFrom(g, roots, key);
        return false;
      }
      SearchStep(g, roots, seen, Elements(queue), key);
      SeesMore(g, seen, key);
      seen := seen + {key};
      ElementsJoin(queue, Next(g, key));
      queue := queue + Next(g, key);
    }
    assert Elements(queue) == {};
    SearchDone(g, roots, seen);
    return true;
  }
}
