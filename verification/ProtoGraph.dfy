/**
 * The protobuf owner closure: which source-bearing targets a native target stands for, and the
 * observations of everything the local ones depend on, over a graph that may be cyclic.
 */
module ProtoGraph {
  import opened Graphs
  import opened Wrappers
  import Sets

  datatype Label = Label(text: string)

  /** One generated target for a native one: its plugin identity, and the native targets it depends on. */
  datatype Observation = Observation(identity: string, native: Label, nativeDeps: seq<Label>)

  /** An import of a local observation: whether it needs no native owner, and the owners that provide it. */
  datatype Import = Import(identity: string, skipped: bool, providers: seq<Label>)

  ghost predicate NoRepeats<T(!new)>(s: seq<T>) {
    forall i, j :: 0 <= i < j < |s| ==> s[i] != s[j]
  }

  /** Closed frames have visited every successor. */
  ghost predicate Walked(g: Graph<Label>, seen: set<Label>, open: set<Label>) {
    var walked := forall x, y :: x in seen && x !in open && y in Next(g, x) ==> y in seen;
    walked
  }

  ghost predicate AllReached(g: Graph<Label>, start: Label, seen: set<Label>) {
    var reached := forall x {:trigger Reaches(g, start, x)} :: x in seen ==> Reaches(g, start, x);
    reached
  }

  class ProtoStore {
    const deps: Graph<Label>
    /** The labels that bear sources. */
    const bearing: set<Label>
    /** The identities and bearing labels whose sources need a wrapper. */
    const wrapped: set<(string, Label)>

    constructor (deps: Graph<Label>, bearing: set<Label>, wrapped: set<(string, Label)>)
      requires bearing <= deps.Keys && Closed(deps, deps.Keys)
      ensures this.deps == deps && this.bearing == bearing && this.wrapped == wrapped && Valid()
    {
      this.deps, this.bearing, this.wrapped := deps, bearing, wrapped;
    }

    /** Every dependency is a node of the graph. */
    ghost predicate Valid() {
      bearing <= deps.Keys && Closed(deps, deps.Keys)
    }

    /** Dependencies followed through targets without sources. */
    ghost function Through(): Graph<Label> {
      deps - bearing
    }

    /** The source-bearing targets a target stands for. */
    ghost function Owners(node: Label): set<Label> {
      set x | x in bearing && Reaches(Through(), node, x)
    }

    /** What a walk has collected: the bearing targets it has seen, each once. */
    ghost predicate Collected(seen: set<Label>, result: seq<Label>) {
      var collected := NoRepeats(result) && forall x :: x in result <==> x in seen && x in bearing;
      collected
    }

    method DirectOwners(node: Label) returns (result: seq<Label>)
      requires Valid() && node in deps
      ensures Elements(result) == Owners(node) && NoRepeats(result)
    {
      var seen;
      ReachesSelf(Through(), node);
      seen, result := VisitOwners(node, node, {}, [], {});
      assert forall x :: x in seen ==> Reaches(Through(), node, x);
      forall x | Reaches(Through(), node, x)
        ensures x in seen
      {
        ClosedHolds(Through(), seen, node, x);
      }
    }

    method VisitOwners(current: Label, ghost start: Label, seen: set<Label>, result: seq<Label>, ghost open: set<Label>)
      returns (seen': set<Label>, result': seq<Label>)
      requires Valid() && current in deps && seen <= deps.Keys
      requires Walked(Through(), seen, open) && AllReached(Through(), start, seen) && Reaches(Through(), start, current)
      requires Collected(seen, result)
      ensures seen + {current} <= seen' <= deps.Keys
      ensures Walked(Through(), seen', open) && AllReached(Through(), start, seen') && Collected(seen', result')
      decreases deps.Keys - seen
    {
      seen', result' := seen, result;
      if current in seen {
        return;
      }
      seen' := seen' + {current};
      if current in bearing {
        result' := result' + [current];
        return;
      }
      var next := deps[current];
      assert next == Next(Through(), current);
      for i := 0 to |next|
        invariant seen + {current} <= seen' <= deps.Keys
        invariant Walked(Through(), seen', open + {current}) && AllReached(Through(), start, seen')
        invariant Collected(seen', result')
        invariant forall j :: 0 <= j < i ==> next[j] in seen'
      {
        ReachesStep(Through(), start, current, next[i]);
        assert next[i] in Next(deps, current);
        seen', result' := VisitOwners(next[i], start, seen', result', open + {current});
      }
    }

    // ---- Observations of what the local ones depend on ----

    /** The wrapped owners an observed owner depends on directly. */
    ghost function Natives(identity: string, owner: Label): set<Label> {
      set d | d in bearing && (identity, d) in wrapped && exists dep :: dep in Next(deps, owner) && d in Owners(dep)
    }

    /** Needed by a local import, or by an owner already needed. */
    least predicate Needed(starts: set<(string, Label)>, identity: string, owner: Label) {
      || (exists node :: (identity, node) in starts && owner in Owners(node))
      || (exists parent ::
            Needed(starts, identity, parent) && (identity, parent) in wrapped && owner in Natives(identity, parent))
    }

    /** Always true: asserting it of a value unfolds what is stated below for that value, and nothing else does. */
    ghost predicate Weighs(owner: Label) {
      true
    }

    /** Needed, for whoever weighs the owner. */
    ghost predicate Due(starts: set<(string, Label)>, identity: string, owner: Label) {
      forall o {:trigger Weighs(o)} :: o == owner ==> Needed(starts, identity, o)
    }

    lemma DueIsNeeded(starts: set<(string, Label)>, identity: string, owner: Label)
      requires Due(starts, identity, owner)
      ensures Needed(starts, identity, owner)
    {
      assert Weighs(owner);
    }

    lemma DueFromStart(starts: set<(string, Label)>, identity: string, node: Label)
      requires (identity, node) in starts
      ensures forall o :: o in Owners(node) ==> Due(starts, identity, o)
    {
      forall o, m | o in Owners(node) && m == o
        ensures Needed(starts, identity, m)
      {
      }
    }

    lemma DueFromParent(starts: set<(string, Label)>, identity: string, parent: Label, owner: Label)
      requires Due(starts, identity, parent) && (identity, parent) in wrapped && owner in Natives(identity, parent)
      ensures Due(starts, identity, owner)
    {
      DueIsNeeded(starts, identity, parent);
      forall m | m == owner
        ensures Needed(starts, identity, m)
      {
      }
    }

    ghost predicate AllNeeded(starts: set<(string, Label)>, seen: set<(string, Label)>) {
      var needed := forall p {:trigger p in seen} :: p in seen ==> p.1 in bearing && Due(starts, p.0, p.1);
      needed
    }

    ghost predicate Observed(added: seq<Observation>, identity: string, owner: Label) {
      exists i :: 0 <= i < |added| && added[i].identity == identity && added[i].native == owner
    }

    /** Each seen pair that needs a wrapper has its observation, once, unless its frame is still open. */
    ghost predicate Records(added: seq<Observation>, seen: set<(string, Label)>, open: set<(string, Label)>) {
      var records := (forall p :: p in seen && p in wrapped && p !in open ==> Observed(added, p.0, p.1))
                     && (forall i :: 0 <= i < |added| ==> Recorded(added[i], seen, open))
                     && (forall i, j :: 0 <= i < j < |added| ==>
                           added[i].identity != added[j].identity || added[i].native != added[j].native);
      records
    }

    /** An observation names exactly its owner's wrapped dependencies, all of them seen. */
    ghost predicate Recorded(obs: Observation, seen: set<(string, Label)>, open: set<(string, Label)>) {
      var pair := (obs.identity, obs.native);
      var recorded := pair in seen && pair in wrapped && pair !in open
                      && Elements(obs.nativeDeps) == Natives(obs.identity, obs.native)
                      && forall d :: d in obs.nativeDeps ==> (obs.identity, d) in seen;
      recorded
    }

    ghost function Left(identity: string, seen: set<(string, Label)>): set<Label> {
      set o | o in bearing && (identity, o) !in seen
    }

    lemma RecordsMore(added: seq<Observation>, seen: set<(string, Label)>, open: set<(string, Label)>,
                      seen': set<(string, Label)>)
      requires Records(added, seen, open) && seen <= seen' && forall p :: p in seen' && p !in seen ==> p !in wrapped
      ensures Records(added, seen', open)
    {
      forall i | 0 <= i < |added|
        ensures Recorded(added[i], seen', open)
      {
        assert Recorded(added[i], seen, open);
      }
    }

    /** Its observation closes it. */
    lemma RecordsClose(added: seq<Observation>, seen: set<(string, Label)>, open: set<(string, Label)>,
                       obs: Observation)
      requires Records(added, seen, open + {(obs.identity, obs.native)}) && (obs.identity, obs.native) !in open
      requires Recorded(obs, seen, open)
      ensures Records(added + [obs], seen, open)
    {
      var pair, added' := (obs.identity, obs.native), added + [obs];
      forall i | 0 <= i < |added'|
        ensures Recorded(added'[i], seen, open)
      {
        if i < |added| {
          assert Recorded(added[i], seen, open + {pair});
        }
      }
      forall i, j | 0 <= i < j < |added'|
        ensures added'[i].identity != added'[j].identity || added'[i].native != added'[j].native
      {
        if j == |added| {
          assert Recorded(added[i], seen, open + {pair});
        }
      }
      forall p | p in seen && p in wrapped && p !in open
        ensures Observed(added', p.0, p.1)
      {
        if p == pair {
          assert added'[|added|] == obs;
        } else {
          assert p !in open + {pair} && Observed(added, p.0, p.1);
          var i :| 0 <= i < |added| && added[i].identity == p.0 && added[i].native == p.1;
          assert added'[i] == added[i];
        }
      }
    }

    lemma LeftShrinks(identity: string, seen: set<(string, Label)>, seen': set<(string, Label)>)
      requires seen <= seen'
      ensures Left(identity, seen') <= Left(identity, seen)
      ensures forall o :: o in bearing && (identity, o) in seen' && (identity, o) !in seen ==>
          Left(identity, seen') < Left(identity, seen)
    {
      forall o | o in bearing && (identity, o) in seen' && (identity, o) !in seen
        ensures Left(identity, seen') < Left(identity, seen)
      {
        assert o in Left(identity, seen) && o !in Left(identity, seen');
      }
    }

    ghost predicate Progress(starts: set<(string, Label)>, added: seq<Observation>, seen: set<(string, Label)>,
                             open: set<(string, Label)>)
    {
      Records(added, seen, open) && AllNeeded(starts, seen) && open <= seen
    }

    /** Observes every owner of node not yet seen under the identity. */
    method Add(node: Label, identity: string, added: seq<Observation>, seen: set<(string, Label)>,
               ghost open: set<(string, Label)>, ghost starts: set<(string, Label)>)
      returns (added': seq<Observation>, seen': set<(string, Label)>)
      requires Valid() && node in deps && Progress(starts, added, seen, open)
      requires forall o :: o in Owners(node) ==> Due(starts, identity, o)
      ensures Progress(starts, added', seen', open) && seen <= seen'
      ensures forall o :: o in Owners(node) ==> (identity, o) in seen'
      decreases Left(identity, seen), 3
    {
      added', seen' := added, seen;
      var owners := DirectOwners(node);
      for i := 0 to |owners|
        invariant Progress(starts, added', seen', open) && seen <= seen'
        invariant forall j :: 0 <= j < i ==> (identity, owners[j]) in seen'
      {
        var owner := owners[i];
        assert owner in Elements(owners);
        if (identity, owner) in seen' {
          continue;
        }
        LeftShrinks(identity, seen, seen');
        if (identity, owner) !in wrapped {
          RecordsMore(added', seen', open, seen' + {(identity, owner)});
          seen' := seen' + {(identity, owner)};
          continue;
        }
        added', seen' := Observe(owner, identity, added', seen', open, starts);
      }
      assert forall o :: o in Owners(node) ==> o in Elements(owners);
    }

    /** Observes one owner, after everything it depends on. */
    method Observe(owner: Label, identity: string, added: seq<Observation>, seen: set<(string, Label)>,
                   ghost open: set<(string, Label)>, ghost starts: set<(string, Label)>)
      returns (added': seq<Observation>, seen': set<(string, Label)>)
      requires Valid() && owner in bearing && (identity, owner) in wrapped && (identity, owner) !in seen
      requires Progress(starts, added, seen, open) && Due(starts, identity, owner) && (identity, owner) !in open
      ensures Progress(starts, added', seen', open) && seen + {(identity, owner)} <= seen'
      decreases Left(identity, seen), 2
    {
      ghost var pair := (identity, owner);
      added', seen' := added, seen + {(identity, owner)};
      LeftShrinks(identity, seen, seen');
      var nativeDeps: seq<Label> := [];
      var next := deps[owner];
      for i := 0 to |next|
        invariant Progress(starts, added', seen', open + {pair}) && seen + {pair} <= seen'
        invariant Named(identity, owner, nativeDeps, seen') && NamesUpTo(identity, next, i, nativeDeps)
      {
        assert next[i] in Next(deps, owner);
        ghost var before := nativeDeps;
        added', seen', nativeDeps := ObserveDep(owner, next[i], identity, added', seen', nativeDeps, open + {pair},
                                                starts, seen);
        NamesMore(identity, next, i, before, nativeDeps);
      }
      RecordsClose(added', seen', open, Observation(identity, owner, nativeDeps));
      added' := added' + [Observation(identity, owner, nativeDeps)];
    }

    /** Everything named so far is a wrapped owner of the observed one, and seen. */
    ghost predicate Named(identity: string, owner: Label, named: seq<Label>, seen: set<(string, Label)>) {
      var all := forall d :: d in named ==> d in Natives(identity, owner) && (identity, d) in seen;
      all
    }

    ghost predicate NamesAll(identity: string, dep: Label, named: seq<Label>) {
      var all := forall d :: d in Owners(dep) && (identity, d) in wrapped ==> d in named;
      all
    }

    ghost predicate NamesUpTo(identity: string, next: seq<Label>, n: nat, named: seq<Label>)
      requires n <= |next|
    {
      var all := forall j :: 0 <= j < n ==> NamesAll(identity, next[j], named);
      all
    }

    lemma NamesMore(identity: string, next: seq<Label>, n: nat, named: seq<Label>, named': seq<Label>)
      requires n < |next| && NamesUpTo(identity, next, n, named) && named <= named'
      requires NamesAll(identity, next[n], named')
      ensures NamesUpTo(identity, next, n + 1, named')
    {
      forall j | 0 <= j < n
        ensures NamesAll(identity, next[j], named')
      {
        assert NamesAll(identity, next[j], named);
        assert forall d :: d in named ==> d in named';
      }
    }

    /** Names and observes the wrapped owners one dependency stands for. */
    method ObserveDep(ghost owner: Label, dep: Label, identity: string, added: seq<Observation>,
                      seen: set<(string, Label)>, named: seq<Label>,
                      ghost open: set<(string, Label)>, ghost starts: set<(string, Label)>,
                      ghost bound: set<(string, Label)>)
      returns (added': seq<Observation>, seen': set<(string, Label)>, named': seq<Label>)
      requires Valid() && dep in Next(deps, owner) && Progress(starts, added, seen, open)
      requires (identity, owner) in wrapped && Due(starts, identity, owner)
      requires Named(identity, owner, named, seen)
      requires bound <= seen && Left(identity, seen) < Left(identity, bound)
      ensures Progress(starts, added', seen', open) && seen <= seen' && named <= named'
      ensures Named(identity, owner, named', seen') && NamesAll(identity, dep, named')
      decreases Left(identity, bound), 1
    {
      added', seen', named' := added, seen, named;
      assert dep in deps;
      var directs := DirectOwners(dep);
      for i := 0 to |directs|
        invariant Progress(starts, added', seen', open) && seen <= seen' && named <= named'
        invariant Named(identity, owner, named', seen')
        invariant forall j :: 0 <= j < i && (identity, directs[j]) in wrapped ==> directs[j] in named'
      {
        var direct := directs[i];
        assert direct in Elements(directs);
        if (identity, direct) !in wrapped {
          continue;
        }
        assert direct in Natives(identity, owner);
        OwnerOfItself(direct);
        DueFromParent(starts, identity, owner, direct);
        LeftShrinks(identity, seen, seen');
        added', seen' := Add(direct, identity, added', seen', open, starts);
        named' := named' + [direct];
      }
      assert forall d :: d in Owners(dep) ==> d in Elements(directs);
    }

    /** A bearing target stands for itself alone. */
    lemma OwnerOfItself(node: Label)
      requires node in bearing
      ensures Owners(node) == {node}
    {
      ReachesSelf(Through(), node);
      forall x | x in Owners(node)
        ensures x == node
      {
        ClosedHolds(Through(), {node}, node, x);
      }
    }

    /** The imports a native owner answers for. */
    ghost predicate Starts(imports: seq<Import>, starts: set<(string, Label)>) {
      forall p :: p in starts <==> exists i :: 0 <= i < |imports| && StartsAt(imports[i], p)
    }

    ghost predicate StartsAt(imp: Import, p: (string, Label)) {
      !imp.skipped && |imp.providers| == 1 && p == (imp.identity, imp.providers[0])
    }

    least lemma NeededIsSeen(starts: set<(string, Label)>, added: seq<Observation>, seen: set<(string, Label)>,
                             identity: string, owner: Label)
      requires Needed(starts, identity, owner)
      requires Records(added, seen, {}) && forall i, n, o :: (i, n) in starts && o in Owners(n) ==> (i, o) in seen
      ensures (identity, owner) in seen
    {
      if node :| (identity, node) in starts && owner in Owners(node) {
      } else {
        var parent :| Needed#[_k - 1](starts, identity, parent) && (identity, parent) in wrapped
                      && owner in Natives(identity, parent);
        NeededIsSeen#[_k - 1](starts, added, seen, identity, parent);
        assert Observed(added, identity, parent);
        var i :| 0 <= i < |added| && added[i].identity == identity && added[i].native == parent;
        assert Recorded(added[i], seen, {});
        assert owner in Elements(added[i].nativeDeps);
      }
    }

    lemma AllObserved(starts: set<(string, Label)>, added: seq<Observation>, seen: set<(string, Label)>)
      requires Progress(starts, added, seen, {}) && forall i, n, o :: (i, n) in starts && o in Owners(n) ==>
        (i, o) in seen
      ensures forall identity, o :: Observed(added, identity, o) <==>
          (identity, o) in wrapped && Needed(starts, identity, o)
      ensures forall i, d :: 0 <= i < |added| && d in added[i].nativeDeps ==> Observed(added, added[i].identity, d)
      ensures forall i :: 0 <= i < |added| ==>
          Elements(added[i].nativeDeps) == Natives(added[i].identity, added[i].native)
    {
      forall identity, o | Observed(added, identity, o)
        ensures (identity, o) in wrapped && Needed(starts, identity, o)
      {
        var i :| 0 <= i < |added| && added[i].identity == identity && added[i].native == o;
        assert Recorded(added[i], seen, {});
        var p := (identity, o);
        assert p in seen;
        DueIsNeeded(starts, p.0, p.1);
      }
      forall identity, o | (identity, o) in wrapped && Needed(starts, identity, o)
        ensures Observed(added, identity, o)
      {
        NeededIsSeen(starts, added, seen, identity, o);
        var p := (identity, o);
        assert p in seen;
      }
      forall i, d | 0 <= i < |added| && d in added[i].nativeDeps
        ensures Observed(added, added[i].identity, d)
      {
        assert Recorded(added[i], seen, {});
        assert d in Elements(added[i].nativeDeps);
        var p := (added[i].identity, d);
        assert p in seen && p in wrapped;
      }
      forall i | 0 <= i < |added|
        ensures Elements(added[i].nativeDeps) == Natives(added[i].identity, added[i].native)
      {
        assert Recorded(added[i], seen, {});
      }
    }

    /**
     * The observations local imports need of other packages: exactly the needed wrapped owners, each
     * once, each naming only natives that are observed under its own identity. None is an import with
     * more than one owner.
     */
    method ExternalObservations(imports: seq<Import>)
      returns (result: Option<seq<Observation>>, ghost starts: set<(string, Label)>)
      requires Valid() && forall i, p :: 0 <= i < |imports| && p in imports[i].providers ==> p in deps
      ensures result.None? <==> exists i :: 0 <= i < |imports| && !imports[i].skipped && |imports[i].providers| > 1
      ensures result.Some? ==> Starts(imports, starts)
      ensures result.Some? ==> forall identity, o :: Observed(result.value, identity, o) <==>
              (identity, o) in wrapped && Needed(starts, identity, o)
      ensures result.Some? ==> forall i, d :: 0 <= i < |result.value| && d in result.value[i].nativeDeps ==>
          Observed(result.value, result.value[i].identity, d)
      ensures result.Some? ==> forall i :: 0 <= i < |result.value| ==>
          Elements(result.value[i].nativeDeps) == Natives(result.value[i].identity, result.value[i].native)
      ensures result.Some? ==> forall i, j :: 0 <= i < j < |result.value| ==>
          result.value[i].identity != result.value[j].identity || result.value[i].native != result.value[j].native
    {
      var added: seq<Observation>, seen: set<(string, Label)> := [], {};
      starts := set i | 0 <= i < |imports| && !imports[i].skipped && |imports[i].providers| == 1 ::
                  (imports[i].identity, imports[i].providers[0]);
      for i := 0 to |imports|
        invariant Progress(starts, added, seen, {})
        invariant forall j :: 0 <= j < i && !imports[j].skipped ==> |imports[j].providers| <= 1
        invariant forall j, o ::
            (0 <= j < i && !imports[j].skipped && |imports[j].providers| == 1
             && o in Owners(imports[j].providers[0])) ==> (imports[j].identity, o) in seen
      {
        var imp := imports[i];
        if imp.skipped || imp.providers == [] {
          continue;
        }
        if |imp.providers| != 1 {
          return None, starts;
        }
        assert StartsAt(imp, (imp.identity, imp.providers[0])) && (imp.identity, imp.providers[0]) in starts;
        DueFromStart(starts, imp.identity, imp.providers[0]);
        added, seen := Add(imp.providers[0], imp.identity, added, seen, {}, starts);
      }
      forall id, n, o | (id, n) in starts && o in Owners(n)
        ensures (id, o) in seen
      {
        var i :| 0 <= i < |imports| && StartsAt(imports[i], (id, n));
      }
      AllObserved(starts, added, seen);
      result := Some(added);
    }
  }
}
