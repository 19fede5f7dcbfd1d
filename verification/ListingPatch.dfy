/** The patch that brings a cached listing up to date with edits that changed only imports. */
module ListingPatch {
  import opened Graphs
  import opened Wrappers
  import opened Listing

  /** One source's rows and every unedited source's rows say what their specs write. */
  ghost predicate RowsOf(c: Compiler, edges: seq<Row<File>>, candidates: seq<Row<Probe>>, f: File, specs: set<Spec>) {
    var rows := RowsFor(edges, EdgeValues(c), f, specs) && RowsFor(candidates, ProbeValues(c), f, specs);
    rows
  }

  /** The sources an added import may copy its resolution from. */
  function Precedents(sources: Tree, edited: set<File>, f: File, s: Spec): set<File> {
    set g | g in sources && g !in edited && g != f && g.dir == f.dir && ExtensionClass(g) == ExtensionClass(f)
    && s in sources[g].specs
  }

  datatype Patch = Patch(edges: seq<Row<File>>, candidates: seq<Row<Probe>>)

  /** The last copied probe's resolution, as the copying loop leaves it. */
  function LastResolved(probes: seq<Row<Probe>>): Option<File> {
    if probes == [] then None else probes[|probes| - 1].value.resolved
  }

  /** No removed import's text is kept in another mode. */
  predicate KeepsModes(was: seq<Spec>, now: seq<Spec>) {
    forall s, t | s in was && t in now :: s !in now ==> t.text != s.text
  }

  /** What the import resolves to here is listed, and so is what any probe for it came to. */
  predicate ResolvesWithin(c: Compiler, files: set<File>, f: File, s: Spec) {
    && Targets(c, f, s) <= files
    && forall probe | probe in Probes(c, f, s) :: probe.resolved.Some? ==>
        Targets(c, f, s) != {} && probe.resolved.value in files
  }

  /** Each added import stands in an unedited source beside this one, and resolves to listed files. */
  predicate AddsListed(c: Compiler, files: set<File>, sources: Tree, edited: set<File>, f: File, was: seq<Spec>,
                       now: seq<Spec>)
  {
    forall s | s in now && s !in was :: Precedents(sources, edited, f, s) != {} && ResolvesWithin(c, files, f, s)
  }

  /** Deletes the rows of every import the edit removed, unless its text was kept in another mode. */
  method RemoveSpecs(p: Patch, f: File, was: seq<Spec>, now: seq<Spec>, ghost c: Compiler) returns (r: Option<Patch>)
    requires RowsOf(c, p.edges, p.candidates, f, Elements(was)) && UniqueTexts(was)
    ensures r.Some? <==> KeepsModes(was, now)
    ensures r.Some? ==> RowsOf(c, r.value.edges, r.value.candidates, f, Elements(was) * Elements(now))
    ensures r.Some? ==> SameBut(p.edges, r.value.edges, f) && SameBut(p.candidates, r.value.candidates, f)
  {
    var edges, candidates := p.edges, p.candidates;
    ghost var specs := Elements(was);
    for i := 0 to |was|
      invariant forall s :: s in specs <==> s in was && (s in now || s !in was[..i])
      invariant RowsOf(c, edges, candidates, f, specs)
      invariant forall s, t :: s in was[..i] && t in now && s !in now ==> t.text != s.text
      invariant SameBut(p.edges, edges, f) && SameBut(p.candidates, candidates, f)
    {
      var spec := was[i];
      assert was[..i + 1] == was[..i] + [spec];
      if spec in now {
        continue;
      }
      if exists t :: t in now && t.text == spec.text {
        return None;
      }
      WithoutText(edges, EdgeValues(c), f, specs, spec);
      WithoutText(candidates, ProbeValues(c), f, specs, spec);
      edges, candidates := Without(edges, f, spec.text), Without(candidates, f, spec.text);
      specs := specs - {spec};
    }
    assert was[..|was|] == was;
    assert specs == Elements(was) * Elements(now);
    return Some(Patch(edges, candidates));
  }

  /** Copies the precedent's probes and its first edge, if the listing backs what the probes resolved to. */
  method CopyImport(p: Patch, f: File, precedent: File, specs: seq<Spec>, spec: Spec, files: set<File>,
                    ghost c: Compiler, ghost written: set<Spec>)
    returns (r: Option<Patch>)
    requires RowsOf(c, p.edges, p.candidates, f, written)
    requires RowsOf(c, p.edges, p.candidates, precedent, Elements(specs)) && UniqueTexts(specs) && spec in specs
    requires precedent.dir == f.dir && ExtensionClass(precedent) == ExtensionClass(f)
    ensures ResolvesWithin(c, files, f, spec) ==> r.Some?
    ensures r.Some? ==> RowsOf(c, r.value.edges, r.value.candidates, f, written + {spec})
    ensures r.Some? ==> SameBut(p.edges, r.value.edges, f) && SameBut(p.candidates, r.value.candidates, f)
  {
    var probes, edges := Copied(p.candidates, precedent, spec.text, f), Copied(p.edges, precedent, spec.text, f);
    CopiesWrite(p.candidates, ProbeValues(c), precedent, specs, spec, f);
    CopiesWrite(p.edges, EdgeValues(c), precedent, specs, spec, f);
    // An import resolves to one file, so its first edge is its only one.
    var first := if edges == [] then [] else [edges[0]];
    forall e
      ensures e in first <==> e in edges
    {
      if e in edges {
        assert edges[0] in edges;
        assert e.value == edges[0].value;
      }
    }
    var resolved := LastResolved(probes);
    if resolved.Some? {
      assert probes[|probes| - 1] in probes;
      assert probes[|probes| - 1].value in Probes(c, f, spec);
      if to :| to in Targets(c, f, spec) {
        assert Row(f, spec.text, to) in edges;
      }
    }
    if resolved.Some? && (first == [] || resolved.value !in files) {
      return None;
    }
    WithCopies(p.candidates, probes, ProbeValues(c), f, written, spec);
    WithCopies(p.edges, first, EdgeValues(c), f, written, spec);
    return Some(Patch(p.edges + first, p.candidates + probes));
  }

  /** Adds the rows of every import the edit added, each copied from an unedited source beside it. */
  method AddSpecs(p: Patch, f: File, was: seq<Spec>, now: seq<Spec>, sources: Tree, edited: set<File>, files: set<File>,
                  ghost c: Compiler)
    returns (r: Option<Patch>)
    requires RowsOf(c, p.edges, p.candidates, f, Elements(was) * Elements(now))
    requires forall g :: g in sources && g !in edited && g != f ==>
      RowsOf(c, p.edges, p.candidates, g, Elements(sources[g].specs)) && UniqueTexts(sources[g].specs)
    ensures AddsListed(c, files, sources, edited, f, was, now) ==> r.Some?
    ensures r.Some? ==> forall s :: s in now && s !in was ==> Precedents(sources, edited, f, s) != {}
    ensures r.Some? ==> RowsOf(c, r.value.edges, r.value.candidates, f, Elements(now))
    ensures r.Some? ==> SameBut(p.edges, r.value.edges, f) && SameBut(p.candidates, r.value.candidates, f)
  {
    var patch := p;
    ghost var specs := Elements(was) * Elements(now);
    for i := 0 to |now|
      invariant forall s :: s in specs <==> s in now && (s in was || s in now[..i])
      invariant RowsOf(c, patch.edges, patch.candidates, f, specs)
      invariant forall s :: s in now[..i] && s !in was ==> Precedents(sources, edited, f, s) != {}
      invariant SameBut(p.edges, patch.edges, f) && SameBut(p.candidates, patch.candidates, f)
    {
      var spec := now[i];
      assert now[..i + 1] == now[..i] + [spec];
      if spec in was {
        continue;
      }
      var precedents := Precedents(sources, edited, f, spec);
      if precedents == {} {
        return None;
      }
      var precedent :| precedent in precedents;
      KeepsOthers(p.edges, patch.edges, EdgeValues(c), f, precedent, Elements(sources[precedent].specs));
      KeepsOthers(p.candidates, patch.candidates, ProbeValues(c), f, precedent, Elements(sources[precedent].specs));
      var copied := CopyImport(patch, f, precedent, sources[precedent].specs, spec, files, c, specs);
      if copied.None? {
        return None;
      }
      patch := copied.value;
      specs := specs + {spec};
    }
    assert now[..|now|] == now;
    assert specs == Elements(now);
    return Some(patch);
  }

  // ---- Reachability over the patched edges ----

  /** Each file's targets, in edge order. */
  method Adjacency(edges: seq<Row<File>>) returns (next: Graph<File>)
    ensures forall f :: Elements(Next(next, f)) == TargetsIn(edges, f)
  {
    next := map[];
    for i := 0 to |edges|
      invariant forall f :: Elements(Next(next, f)) == TargetsIn(edges[..i], f)
    {
      var e := edges[i];
      assert edges[..i + 1] == edges[..i] + [e];
      ElementsJoin(Next(next, e.from), [e.value]);
      ghost var before := next;
      next := next[e.from := Next(next, e.from) + [e.value]];
      forall f
        ensures Elements(Next(next, f)) == TargetsIn(edges[..i + 1], f)
      {
        assert Elements(Next(before, f)) == TargetsIn(edges[..i], f);
        assert TargetsIn(edges[..i + 1], f) == TargetsIn(edges[..i], f) + if e.from == f then {e.value} else {};
      }
    }
    assert edges[..|edges|] == edges;
  }

  function TargetsIn(edges: seq<Row<File>>, f: File): set<File> {
    set e | e in edges && e.from == f :: e.value
  }

  /** The files that stand without an edge to them: roots, type entries, and every outside file listed. */
  function Starts(roots: seq<File>, types: seq<Option<File>>, files: seq<File>): set<File> {
    Elements(roots) + (set t | t in types && t.Some? :: t.value) + (set f | f in files && f.outside)
  }

  /** What the starts reach over the edges, breadth first. */
  method Reachable(starts: set<File>, edges: seq<Row<File>>) returns (seen: set<File>)
    ensures IsProgram(RowSet(edges), starts, seen)
  {
    var next := Adjacency(edges);
    var queue := ListOf(starts);
    seen := starts;
    ghost var all := starts + (set e | e in edges :: e.value);
    while queue != []
      invariant seen <= all && Reaching(edges, starts, seen, Elements(queue))
      decreases all - seen, |queue|
    {
      var f := queue[0];
      ElementsPop(queue);
      assert TargetsIn(edges, f) == Elements(Next(next, f));
      ReachStep(edges, starts, seen, Elements(queue[1..]), f);
      seen, queue := Push(seen, queue[1..], Next(next, f));
    }
    assert Elements(queue) == {};
  }

  /** Seen files lie in every closed set above the starts, and only pending ones may have unseen targets. */
  ghost predicate Reaching(edges: seq<Row<File>>, starts: set<File>, seen: set<File>, pending: set<File>) {
    var reaching := starts <= seen && pending <= seen
                    && (forall e {:trigger e in edges} :: e in edges && e.from in seen - pending ==> e.value in seen)
                    && (forall t: set<File> {:trigger seen <= t} :: starts <= t && ClosedUnder(RowSet(edges), t) ==>
                          seen <= t);
    reaching
  }

  lemma ReachStep(edges: seq<Row<File>>, starts: set<File>, seen: set<File>, pending: set<File>, f: File)
    requires Reaching(edges, starts, seen, pending + {f})
    ensures Reaching(edges, starts, seen + TargetsIn(edges, f), pending + (TargetsIn(edges, f) - seen))
  {
    var found := TargetsIn(edges, f);
    var seen', pending' := seen + found, pending + (found - seen);
    forall e | e in edges && e.from in seen' - pending'
      ensures e.value in seen'
    {
      if e.from != f {
        assert e.from in seen - (pending + {f});
      }
    }
    forall t: set<File> | starts <= t && ClosedUnder(RowSet(edges), t)
      ensures seen' <= t
    {
      assert seen <= t;
      forall x | x in found
        ensures x in t
      {
        var e :| e in edges && e.from == f && e.value == x;
        assert e in RowSet(edges);
      }
    }
  }

  /** Queues what is seen for the first time. */
  method Push(seen: set<File>, queue: seq<File>, found: seq<File>) returns (seen': set<File>, queue': seq<File>)
    ensures seen' == seen + Elements(found)
    ensures Elements(queue') == Elements(queue) + (Elements(found) - seen)
    ensures seen' == seen ==> queue' == queue
  {
    seen', queue' := seen, queue;
    for i := 0 to |found|
      invariant seen' == seen + Elements(found[..i])
      invariant Elements(queue') == Elements(queue) + (Elements(found[..i]) - seen)
      invariant seen' == seen ==> queue' == queue
    {
      var f := found[i];
      assert found[..i + 1] == found[..i] + [f];
      ElementsJoin(found[..i], [f]);
      assert Elements([f]) == {f};
      if f !in seen' {
        ElementsJoin(queue', [f]);
        seen', queue' := seen' + {f}, queue' + [f];
      }
    }
    assert found[..|found|] == found;
  }

  // ---- The cached listing ----

  /** The listing's rows and sources say what the tree holds, for every listed file and cached source. */
  ghost predicate Faithful(c: Compiler, tree: Tree, files: set<File>, p: Patch, sources: Tree) {
    var faithful := (forall f {:trigger f in sources} :: f in sources ==>
                       f in tree && tree[f] == sources[f] && UniqueTexts(sources[f].specs))
                    && (forall f {:trigger f in files} :: f in files && f in tree ==> f in sources)
                    && RowsFaithful(c, p, sources)
                    && (forall e: Row<File> {:trigger e in p.edges} {:trigger e in c.keptEdges} ::
                          e.from in files && e.from !in sources ==> (e in p.edges <==> e in c.keptEdges));
    faithful
  }

  ghost predicate RowsFaithful(c: Compiler, p: Patch, sources: Tree) {
    forall f {:trigger f in sources} :: f in sources ==> RowsOf(c, p.edges, p.candidates, f, Elements(sources[f].specs))
  }

  /** The edited tree: a file no stale read names is as it was, and each text stands in one mode. */
  ghost predicate Edited(tree: Tree, now: Tree, stale: seq<File>, files: set<File>, sources: Tree) {
    var edited := (forall f {:trigger f in now} :: (f in files || f in sources) && f !in stale ==>
                     (f in now <==> f in tree) && (f in tree ==> now[f] == tree[f]))
                  && (forall f {:trigger f in now} :: f in now ==> UniqueTexts(now[f].specs));
    edited
  }

  /** What a patch leaves: faithful rows, and the files its starts still reach, none of them new. */
  ghost predicate Patched(c: Compiler, now: Tree, starts: set<File>, listed: set<File>, files: set<File>, p: Patch,
                          sources: Tree)
  {
    && Faithful(c, now, listed, p, sources)
    && IsProgram(RowSet(p.edges), starts, files)
    && files <= listed
  }

  predicate EditPatchable(c: Compiler, now: Tree, edited: set<File>, files: set<File>, sources: Tree, f: File)
    requires f in sources && f in now
  {
    && KeepsModes(sources[f].specs, now[f].specs)
    && AddsListed(c, files, sources, edited, f, sources[f].specs, now[f].specs)
  }

  /** An edit of imports alone that keeps every mode and adds only imports the listing already backs. */
  ghost predicate Patchable(c: Compiler, now: Tree, stale: seq<File>, files: set<File>, sources: Tree) {
    && stale != []
    && forall f :: f in stale ==>
         && f in sources && f in now && now[f].rest == sources[f].rest
         && EditPatchable(c, now, Elements(stale), files, sources, f)
  }

  /** Such an edit reaches nothing new. */
  lemma PatchableStays(c: Compiler, tree: Tree, now: Tree, stale: seq<File>, files: set<File>, p: Patch, sources: Tree,
                       p': Patch, sources': Tree)
    requires Faithful(c, tree, files, p, sources) && ClosedUnder(RowSet(p.edges), files)
    requires Patchable(c, now, stale, files, sources)
    requires sources'.Keys == sources.Keys && RowsFaithful(c, p', sources')
    requires forall f :: f in sources ==> sources'[f] == if f in Elements(stale) then now[f] else sources[f]
    requires forall e: Row<File> :: e.from !in sources ==> (e in p'.edges <==> e in p.edges)
    ensures ClosedUnder(RowSet(p'.edges), files)
  {
    forall e: Row<File> | e in RowSet(p'.edges) && e.from in files
      ensures e.value in files
    {
      if e.from in sources {
        EdgeStays(c, now, stale, files, p, sources, p', sources', e);
      } else {
        assert e in RowSet(p.edges);
      }
    }
  }

  lemma EdgeStays(c: Compiler, now: Tree, stale: seq<File>, files: set<File>, p: Patch, sources: Tree, p': Patch,
                  sources': Tree, e: Row<File>)
    requires RowsFaithful(c, p, sources) && ClosedUnder(RowSet(p.edges), files)
    requires Patchable(c, now, stale, files, sources)
    requires sources'.Keys == sources.Keys && RowsFaithful(c, p', sources')
    requires forall f :: f in sources ==> sources'[f] == if f in Elements(stale) then now[f] else sources[f]
    requires e in p'.edges && e.from in files && e.from in sources
    ensures e.value in files
  {
    var f := e.from;
    assert RowsOf(c, p'.edges, p'.candidates, f, Elements(sources'[f].specs));
    assert Written(EdgeValues(c), Elements(sources'[f].specs), e);
    var s :| s in Elements(sources'[f].specs) && s.text == e.specifier && e.value in Targets(c, f, s);
    if s in sources[f].specs {
      assert RowsOf(c, p.edges, p.candidates, f, Elements(sources[f].specs));
      assert s in Elements(sources[f].specs);
      assert Written(EdgeValues(c), Elements(sources[f].specs), e);
      assert e in RowSet(p.edges);
    } else {
      assert ResolvesWithin(c, files, f, s);
    }
  }

  class CachedListing {
    const roots: seq<File>
    const types: seq<Option<File>>
    var files: seq<File>
    var edges: seq<Row<File>>
    var candidates: seq<Row<Probe>>
    var sources: Tree

    constructor (roots: seq<File>, types: seq<Option<File>>, files: seq<File>, edges: seq<Row<File>>,
                 candidates: seq<Row<Probe>>, sources: Tree)
      ensures this.roots == roots && this.types == types && this.files == files
      ensures this.edges == edges && this.candidates == candidates && this.sources == sources
    {
      this.roots, this.types, this.files := roots, types, files;
      this.edges, this.candidates, this.sources := edges, candidates, sources;
    }

    /**
     * The listing is what the compiler lists for the tree; an entry that is no root or type entry is an outside lib.
     */
    ghost predicate Current(c: Compiler, tree: Tree)
      reads this
    {
      && Faithful(c, tree, Elements(files), Patch(edges, candidates), sources)
      && IsProgram(TreeEdges(c, tree), c.entries, Elements(files))
      && Starts(roots, types, []) <= c.entries
      && forall f :: f in c.entries ==> f in Starts(roots, types, []) || f.outside
    }

    /** Every outside file of the listing is there by a root or an option, never by an import alone. */
    ghost predicate OutsideByOption(c: Compiler)
      reads this
    {
      forall f :: f in files && f.outside ==> f in c.entries
    }

    /** A current listing is what its starts reach over its own edges. */
    lemma CurrentIsModelled(c: Compiler, tree: Tree, modelled: set<File>)
      requires Current(c, tree) && IsProgram(RowSet(edges), Starts(roots, types, files), modelled)
      ensures modelled == Elements(files)
    {
      var listed := Elements(files);
      forall e: Row<File> | e.from in listed
        ensures e in RowSet(edges) <==> e in TreeEdges(c, tree)
      {
      }
      assert ClosedUnder(RowSet(edges), listed) && c.entries <= Starts(roots, types, files) <= listed;
      assert modelled <= listed;
      assert ClosedUnder(TreeEdges(c, tree), modelled);
      assert listed <= modelled;
    }

    /** The stale reads' sources as they are now, unless an edit reached past their imports. */
    method Changed(stale: seq<File>, now: Tree) returns (changed: Option<set<File>>)
      ensures changed.Some? ==> changed.value == Elements(stale) && changed.value != {}
      ensures changed.Some?
              <==> stale != [] && forall f :: f in stale ==> f in sources && f in now && now[f].rest == sources[f].rest
    {
      for i := 0 to |stale|
        invariant forall f :: f in stale[..i] ==> f in sources && f in now && now[f].rest == sources[f].rest
      {
        var f := stale[i];
        assert stale[..i + 1] == stale[..i] + [f];
        if f !in sources || f !in now || now[f].rest != sources[f].rest {
          return None;
        }
      }
      assert stale[..|stale|] == stale;
      if stale == [] {
        return None;
      }
      assert stale[0] in Elements(stale);
      return Some(Elements(stale));
    }

    /** Rewrites every changed source's rows; a refusal may leave some sources rescanned. */
    method PatchRows(changed: set<File>, now: Tree, ghost c: Compiler) returns (patch: Option<Patch>)
      requires forall f :: f in changed ==> f in sources && f in now && UniqueTexts(now[f].specs)
      requires forall f :: f in sources ==> UniqueTexts(sources[f].specs)
      requires RowsFaithful(c, Patch(edges, candidates), sources)
      modifies this`sources
      ensures (forall f :: f in changed ==> EditPatchable(c, now, changed, Elements(files), old(sources), f)) ==>
        patch.Some?
      ensures sources.Keys == old(sources).Keys
      ensures patch.Some? ==> RowsFaithful(c, patch.value, sources)
      ensures patch.Some? ==> forall f :: f in sources ==>
          sources[f] == if f in changed then now[f] else old(sources)[f]
      ensures patch.Some? ==> forall e: Row<File> :: e.from !in old(sources) ==>
          (e in patch.value.edges <==> e in edges)
    {
      var todo, p := changed, Patch(edges, candidates);
      while todo != {}
        invariant todo <= changed && sources.Keys == old(sources).Keys && RowsFaithful(c, p, sources)
        invariant forall f :: f in sources ==> sources[f] == if f in changed - todo then now[f] else old(sources)[f]
        invariant forall e: Row<File> :: e.from !in old(sources) ==> (e in p.edges <==> e in edges)
      {
        var f :| f in todo;
        assert RowsOf(c, p.edges, p.candidates, f, Elements(sources[f].specs));
        var removed := RemoveSpecs(p, f, sources[f].specs, now[f].specs, c);
        if removed.None? {
          return None;
        }
        forall g | g in sources && g !in changed && g != f
          ensures RowsOf(c, removed.value.edges, removed.value.candidates, g, Elements(sources[g].specs))
        {
          assert RowsOf(c, p.edges, p.candidates, g, Elements(sources[g].specs));
          KeepsOthers(p.edges, removed.value.edges, EdgeValues(c), f, g, Elements(sources[g].specs));
          KeepsOthers(p.candidates, removed.value.candidates, ProbeValues(c), f, g, Elements(sources[g].specs));
        }
        assert forall s :: Precedents(sources, changed, f, s) == Precedents(old(sources), changed, f, s);
        var added := AddSpecs(removed.value, f, sources[f].specs, now[f].specs, sources, changed, Elements(files), c);
        if added.None? {
          return None;
        }
        sources := sources[f := now[f]];
        p, todo := added.value, todo - {f};
      }
      return Some(p);
    }

    /**
     * Patches the listing for edits that changed only imports, given the reads whose stat line
     * moved and the tree as scanned now. A refusal leaves the listing as it was.
     */
    method PatchListing(dirsSame: bool, stale: seq<File>, now: Tree, ghost c: Compiler, ghost tree: Tree)
      returns (patched: bool)
      requires Faithful(c, tree, Elements(files), Patch(edges, candidates), sources)
      requires Edited(tree, now, stale, Elements(files), sources)
      modifies this
      ensures patched ==>
        Patched(c, now, Starts(roots, types, old(files)), Elements(old(files)), Elements(files),
                Patch(edges, candidates), sources)
      ensures !patched ==> files == old(files) && edges == old(edges) && candidates == old(candidates)
      ensures patched ==> dirsSame && stale != [] && forall f :: f in stale ==>
          f in old(sources) && f in now && now[f].rest == old(sources)[f].rest
      ensures dirsSame && old(Current(c, tree)) && Patchable(c, now, stale, Elements(old(files)), old(sources)) ==>
        patched
      ensures patched && old(Current(c, tree) && OutsideByOption(c)) ==> Current(c, now) && OutsideByOption(c)
    {
      if !dirsSame {
        return false;
      }
      var changed := Changed(stale, now);
      if changed.None? {
        return false;
      }
      var listed, starts := Elements(files), Starts(roots, types, files);
      var modelled := Reachable(starts, edges);
      if modelled != listed {
        assert !old(Current(c, tree)) by {
          if Current(c, tree) {
            CurrentIsModelled(c, tree, modelled);
          }
        }
        return false;
      }
      ghost var p := Patch(edges, candidates);
      var patch := PatchRows(changed.value, now, c);
      if patch.None? {
        return false;
      }
      var reached := Reachable(starts, patch.value.edges);
      if !(reached <= listed) {
        assert !Patchable(c, now, stale, listed, old(sources)) by {
          if Patchable(c, now, stale, listed, old(sources)) {
            PatchableStays(c, tree, now, stale, listed, p, old(sources), patch.value, sources);
          }
        }
        return false;
      }
      files := Kept(files, reached);
      edges, candidates := patch.value.edges, patch.value.candidates;
      assert Elements(files) == reached;
      if old(Current(c, tree) && OutsideByOption(c)) {
        PatchedIsCurrent(c, now, roots, types, old(files), reached, Patch(edges, candidates), sources);
      }
      return true;
    }
  }

  function Kept(files: seq<File>, reached: set<File>): (kept: seq<File>)
    ensures forall f :: f in kept <==> f in files && f in reached
  {
    if files == [] then [] else (if files[0] in reached then [files[0]] else []) + Kept(files[1..], reached)
  }

  // ---- What a successful patch promises ----

  /**
   * The patched files are those of a fresh listing just when the entries reach every outside file of
   * the old listing over the patched rows; the edges leaving them are the fresh ones regardless.
   */
  lemma PatchedIsFresh(c: Compiler, now: Tree, roots: seq<File>, types: seq<Option<File>>, was: seq<File>,
                       files: set<File>, p: Patch, sources: Tree, fromEntries: set<File>, relisted: set<File>)
    requires Patched(c, now, Starts(roots, types, was), Elements(was), files, p, sources)
    requires IsProgram(TreeEdges(c, now), c.entries, relisted) && IsProgram(RowSet(p.edges), c.entries, fromEntries)
    requires Starts(roots, types, []) <= c.entries <= Elements(was)
    requires forall f :: f in c.entries ==> f in Starts(roots, types, []) || f.outside
    ensures files == relisted <==> forall f :: f in was && f.outside ==> f in fromEntries
    ensures forall e: Row<File> :: e.from in files ==> (e in p.edges <==> TreeEdge(c, now, e))
  {
    var starts := Starts(roots, types, was);
    assert c.entries <= starts;
    assert fromEntries <= files;
    forall e: Row<File> | e.from in files
      ensures e in RowSet(p.edges) <==> e in TreeEdges(c, now)
    {
    }
    assert ClosedUnder(TreeEdges(c, now), files) && relisted <= files;
    assert ClosedUnder(TreeEdges(c, now), fromEntries) && ClosedUnder(RowSet(p.edges), relisted);
    assert relisted <= fromEntries && fromEntries <= relisted;
    if forall f :: f in was && f.outside ==> f in fromEntries {
      assert starts <= relisted;
      assert files <= relisted;
    }
  }

  /** When outside files are listed only by option, a patched listing is a fresh listing of the edited tree. */
  lemma PatchedIsCurrent(c: Compiler, now: Tree, roots: seq<File>, types: seq<Option<File>>, was: seq<File>,
                         files: set<File>, p: Patch, sources: Tree)
    requires Patched(c, now, Starts(roots, types, was), Elements(was), files, p, sources)
    requires Starts(roots, types, []) <= c.entries <= Elements(was)
    requires forall f :: f in c.entries ==> f in Starts(roots, types, []) || f.outside
    requires forall f :: f in was && f.outside ==> f in c.entries
    ensures IsProgram(TreeEdges(c, now), c.entries, files) && Faithful(c, now, files, p, sources)
  {
    var starts := Starts(roots, types, was);
    assert starts == c.entries;
    assert forall e: Row<File> :: e.from in files ==> (e in RowSet(p.edges) <==> e in TreeEdges(c, now));
    forall t: set<File> | c.entries <= t && ClosedUnder(TreeEdges(c, now), t)
      ensures files <= t
    {
      assert ClosedUnder(RowSet(p.edges), t * files);
      assert files <= t * files;
    }
  }

  const ENTRY := File("src", "a", Other, false)
  const OUTSIDE := File("../lib", "x", Other, true)
  const DROPPED := Spec(Import, "../../lib/x")

  /** An outside file only an import listed stays after the import is gone: the patch takes it for a lib. */
  lemma StaleOutsideFile(c: Compiler, now: Tree)
    requires c == Compiler({ENTRY}, map[Site("src", PlainClass, DROPPED) := Resolution(Some(OUTSIDE), [])], {}, {})
    requires now == map[ENTRY := CachedSource([], "")]
    ensures Patched(c, now, Starts([ENTRY], [], [ENTRY, OUTSIDE]), {ENTRY, OUTSIDE}, {ENTRY, OUTSIDE}, Patch([], []),
                    now)
    ensures IsProgram(TreeEdges(c, now), c.entries, {ENTRY})
    ensures var tree: Tree := map[ENTRY := CachedSource([DROPPED], "")];
            IsProgram(TreeEdges(c, tree), c.entries, {ENTRY, OUTSIDE})
  {
    var tree: Tree := map[ENTRY := CachedSource([DROPPED], "")];
    assert Starts([ENTRY], [], [ENTRY, OUTSIDE]) == {ENTRY, OUTSIDE};
    assert forall e :: e !in TreeEdges(c, now);
    var e := Row(ENTRY, DROPPED.text, OUTSIDE);
    assert DROPPED in Elements([DROPPED]) && Targets(c, ENTRY, DROPPED) == {OUTSIDE};
    assert Written(EdgeValues(c), Elements([DROPPED]), e);
    assert e in TreeEdges(c, tree);
    assert forall e: Row<File> :: e in TreeEdges(c, tree) ==> e.value == OUTSIDE;
  }
}
