/**
 * What a consumer's dependencies supply, as the exact pass over the retained dependencies
 * computes it, and when that supply covers a dependency that was dropped.
 */
module Supply {
  import opened Graphs
  import opened Wrappers

  datatype Dep = Dep(name: string)
  datatype Target = Target(key: string)

  datatype Form = Declaration | Json | Source
  datatype File = File(path: string, form: Form, npm: bool)

  /** sourceRole, scopeRole and compilerRole; a lower role serves every higher demand. */
  type Role = nat
  const SOURCE_ROLE: Role := 0

  datatype EmissionMode = UnknownEmission | OpaqueEmission | SourceEmission | EmittedEmission

  /** What every owner's rule currently says; only a first call to the source owner changes it. */
  type Modes = map<Target, EmissionMode>

  datatype Edge = Edge(from: File, to: File)

  /**
   * What the consumer needs of one dependency: the target its label leads to, the ts_compile
   * owner behind it if any, and the edges it must supply.
   */
  datatype Requirement = Requirement(target: Target, program: Option<Target>, member: bool, edges: seq<Edge>,
    unconditional: bool)

  /** A compiler owner as its settled rule reads: inputs by role, deps, and the sources its own package exports. */
  datatype Owner = Owner(inputs: map<File, Role>, deps: seq<Target>, samePackage: bool, exported: set<File>)

  datatype Consumer = Consumer(
    requirements: map<Dep, Requirement>,
    roots: set<File>,
    demands: map<File, Role>,
    self: Target,
    owners: map<Target, Owner>,
    // Where the walk for scopes goes on from an owner.
    children: Graph<Target>,
    // The ts_codegen rule that outputs a file.
    producers: map<File, Target>)

  /** A consumer, and what a first question about an owner does to the modes. */
  datatype World = World(c: Consumer, promote: (Modes, Target) -> Modes)

  /** The modes, and the keys the consumer's source owner was already asked about. */
  datatype Run = Run(called: set<Target>, modes: Modes)

  /** Only the first question about a key has any effect. */
  function SourceOwner(w: World, run: Run, key: Target): Run {
    if key in run.called then run else Run(run.called + {key}, w.promote(run.modes, key))
  }

  function ModeOf(m: Modes, key: Target): EmissionMode {
    if key in m then m[key] else OpaqueEmission
  }

  function Program(c: Consumer, d: Dep): Option<Target> {
    if d in c.requirements then c.requirements[d].program else None
  }

  function OwnerOf(c: Consumer, key: Target): Owner {
    if key in c.owners then c.owners[key] else Owner(map[], [], false, {})
  }

  /** What one direct compiler dependency offers its consumer. */
  datatype DirectSupply = DirectSupply(inputs: map<File, Role>, files: set<File>, targets: seq<Target>)

  predicate Joins(owner: Owner, mode: EmissionMode, f: File) {
    f in owner.inputs && owner.inputs[f] == SOURCE_ROLE && (mode == SourceEmission || f.form == Declaration)
  }

  /** A compiler beside the consumer that emits also serves the sources it takes from other packages. */
  predicate Borrows(owner: Owner, mode: EmissionMode, f: File) {
    && f in owner.inputs && owner.inputs[f] == SOURCE_ROLE
    && owner.samePackage && mode == EmittedEmission && f !in owner.exported
  }

  function Direct(c: Consumer, m: Modes, d: Dep): (r: DirectSupply)
    ensures forall f :: f in r.files ==> f in r.inputs && r.inputs[f] == SOURCE_ROLE
  {
    match Program(c, d)
    case None => DirectSupply(map[], {}, [])
    case Some(key) =>
      var owner := OwnerOf(c, key);
      var mode := ModeOf(m, key);
      var files := set f | f in owner.inputs && (Joins(owner, mode, f) || Borrows(owner, mode, f));
      var joins := exists f :: f in owner.inputs && Joins(owner, mode, f);
      var linked := if c.requirements[d].target == key then [] else [key];
      DirectSupply(owner.inputs, files, if joins then linked + owner.deps else [])
  }

  // ---- One exact pass over the dependencies ----

  /** The pass's variables: what is supplied, the targets supplied, and the scopes still demanded. */
  datatype Pass = Pass(run: Run, supplied: map<File, Role>, targets: set<Target>, required: map<File, Role>)

  predicate Claims(inputs: map<File, Role>, required: map<File, Role>, f: File) {
    f in inputs && f in required && inputs[f] <= required[f]
  }

  function Claimed(inputs: map<File, Role>, required: map<File, Role>): (s: set<File>)
    ensures forall f :: f in s <==> Claims(inputs, required, f)
  {
    set f | f in inputs && Claims(inputs, required, f)
  }

  function Only(inputs: map<File, Role>, keep: set<File>): (r: map<File, Role>)
    ensures forall f :: f in r <==> f in inputs && f in keep
    ensures forall f :: f in r ==> r[f] == inputs[f]
  {
    inputs - (inputs.Keys - keep)
  }

  /** Supplies every demanded scope the inputs can claim, and stops demanding it. */
  function Claim(p: Pass, inputs: map<File, Role>): Pass {
    var claimed := Claimed(inputs, p.required);
    p.(supplied := p.supplied + Only(inputs, claimed), required := p.required - claimed)
  }

  function DirectStep(w: World, p: Pass, d: Dep): Pass {
    match Program(w.c, d)
    case None => p
    case Some(key) =>
      var run := SourceOwner(w, p.run, key);
      var supply := Direct(w.c, run.modes, d);
      Claim(p.(run := run, supplied := p.supplied + Only(supply.inputs, supply.files),
               targets := p.targets + (set t | t in supply.targets)), supply.inputs)
  }

  function DirectPass(w: World, p: Pass, ds: seq<Dep>): Pass
    decreases |ds|
  {
    if ds == [] then p else DirectPass(w, DirectStep(w, p, ds[0]), ds[1..])
  }

  /** The walk for scopes no direct dependency claimed, over the owners' compiler dependencies. */
  datatype Walk = Walk(pass: Pass, visited: set<Target>)

  /** Asks about the owner and claims from its inputs. */
  function Visit(w: World, p: Pass, key: Target): Pass {
    Claim(p.(run := SourceOwner(w, p.run, key)), OwnerOf(w.c, key).inputs)
  }

  function WalkOwner(w: World, a: Walk, key: Target): (b: Walk)
    ensures a.visited <= b.visited
    decreases w.c.children.Keys - a.visited, 0
  {
    if key in a.visited && key != w.c.self then a
    else
      var pass := Visit(w, a.pass, key);
      if key in a.visited then a.(pass := pass)
      else if key !in w.c.children then Walk(pass, a.visited + {key})
      else WalkChildren(w, Walk(pass, a.visited + {key}), w.c.children[key])
  }

  function WalkChildren(w: World, a: Walk, keys: seq<Target>): (b: Walk)
    ensures a.visited <= b.visited
    decreases w.c.children.Keys - a.visited, 1 + |keys|
  {
    if keys == [] || a.pass.required == map[] then a
    else WalkChildren(w, WalkOwner(w, a, keys[0]), keys[1..])
  }

  function WalkDep(w: World, a: Walk, d: Dep): Walk {
    if a.pass.required == map[] || Program(w.c, d).None? then a else WalkOwner(w, a, Program(w.c, d).value)
  }

  function WalkDeps(w: World, a: Walk, ds: seq<Dep>): Walk
    decreases |ds|
  {
    if ds == [] then a else WalkDeps(w, WalkDep(w, a, ds[0]), ds[1..])
  }

  /** The whole pass: the direct dependencies, then the walk while some scope stays unclaimed. */
  function SuppliedProgramInputs(w: World, run: Run, ds: seq<Dep>): Pass {
    var p := DirectPass(w, Pass(run, map[], {}, w.c.demands), ds);
    if p.required == map[] then p else WalkDeps(w, Walk(p, {w.c.self}), ds).pass
  }

  function SuppliedFiles(c: Consumer, p: Pass): set<File> {
    set f | f in p.supplied && p.supplied[f] == SOURCE_ROLE && f !in c.roots
  }

  // ---- When a dropped dependency is unsupplied ----

  predicate StaticSupply(r: Requirement, e: Edge) {
    r.program.Some? || r.member || e.to.npm
  }

  predicate CodegenUnsupplied(c: Consumer, key: Target, f: File) {
    !(f in c.producers && c.producers[f] == key)
  }

  predicate EdgeUnsupplied(c: Consumer, r: Requirement, e: Edge, files: set<File>) {
    || e.from !in files
    || (&& !StaticSupply(r, e)
        && ((e.to.form == Source && e.to !in files) || CodegenUnsupplied(c, r.target, e.to)))
  }

  predicate RequirementUnsupplied(c: Consumer, r: Requirement, files: set<File>, targets: set<Target>) {
    || r.unconditional
    || r.target !in targets
    || exists e :: e in r.edges && EdgeUnsupplied(c, r, e, files)
  }

  predicate Unsupplied(c: Consumer, d: Dep, files: set<File>, targets: set<Target>)
    requires d in c.requirements
  {
    RequirementUnsupplied(c, c.requirements[d], files, targets)
  }

  /** Losing a file or a target never supplies anything. */
  lemma UnsuppliedMonotone(c: Consumer, d: Dep, files: set<File>, targets: set<Target>, files': set<File>,
                           targets': set<Target>)
    requires d in c.requirements && Unsupplied(c, d, files, targets)
    requires files' <= files && targets' <= targets
    ensures Unsupplied(c, d, files', targets')
  {
    var r := c.requirements[d];
    if e :| e in r.edges && EdgeUnsupplied(c, r, e, files) {
      assert EdgeUnsupplied(c, r, e, files');
    }
  }

  /** Every dependency of the consumer outside the retained ones is supplied by the pass. */
  predicate AllSupplied(c: Consumer, retained: set<Dep>, p: Pass) {
    var files := SuppliedFiles(c, p);
    forall d :: d in c.requirements && d !in retained ==> !Unsupplied(c, d, files, p.targets)
  }

  // ---- The order-free supply ----

  ghost function FilesOf(c: Consumer, m: Modes, retained: set<Dep>): set<File> {
    set d, f | d in retained && f in Direct(c, m, d).files && f !in c.roots :: f
  }

  ghost function TargetsOf(c: Consumer, m: Modes, retained: set<Dep>): set<Target> {
    set d, t | d in retained && t in Direct(c, m, d).targets :: t
  }

  /** A dropped dependency the retained ones do not supply, whatever order they are read in. */
  ghost predicate Uncovered(c: Consumer, m: Modes, retained: set<Dep>, d: Dep)
    requires d in c.requirements
  {
    Unsupplied(c, d, FilesOf(c, m, retained), TargetsOf(c, m, retained))
  }

  /** Every dropped dependency is supplied by retained ones alone. */
  ghost predicate Covers(c: Consumer, m: Modes, retained: set<Dep>) {
    Stranded(c, m, retained) == {}
  }

  ghost function Stranded(c: Consumer, m: Modes, retained: set<Dep>): set<Dep> {
    set d | d in c.requirements && d !in retained && Uncovered(c, m, retained, d)
  }

  lemma UncoveredMonotone(c: Consumer, m: Modes, retained: set<Dep>, fewer: set<Dep>, d: Dep)
    requires d in c.requirements && fewer <= retained && Uncovered(c, m, retained, d)
    ensures Uncovered(c, m, fewer, d)
  {
    UnsuppliedMonotone(c, d, FilesOf(c, m, retained), TargetsOf(c, m, retained),
                       FilesOf(c, m, fewer), TargetsOf(c, m, fewer));
  }

  /** No dependency's edge reads a scope a dependency could claim. */
  predicate OrderFree(c: Consumer) {
    forall d, e | d in c.requirements && e in c.requirements[d].edges ::
      (e.from in c.demands ==> e.from in c.roots) && (e.to in c.demands ==> e.to in c.roots)
  }

  /** Every owner a retained dependency leads to has run the source owner. */
  predicate Settled(c: Consumer, run: Run, retained: set<Dep>) {
    forall d :: d in retained && Program(c, d).Some? ==> Program(c, d).value in run.called
  }

  function Programs(c: Consumer, retained: set<Dep>): set<Target> {
    set d | d in retained && Program(c, d).Some? :: Program(c, d).value
  }

  /** Every owner the walk can reach has run the source owner. */
  ghost predicate WalkSettled(c: Consumer, run: Run, retained: set<Dep>) {
    forall k :: ReachedFrom(c.children, Programs(c, retained), k) ==> k in run.called
  }

  // ---- What the pass computes ----

  /** Some dependency of the pass claims the scope f at the demanded role. */
  ghost predicate ClaimedBy(c: Consumer, m: Modes, ds: set<Dep>, f: File) {
    exists d :: d in ds && Claims(Direct(c, m, d).inputs, c.demands, f)
  }

  /** Some dependency of the pass supplies the file f as a source. */
  ghost predicate OfferedBy(c: Consumer, m: Modes, ds: set<Dep>, f: File) {
    exists d :: d in ds && f in Direct(c, m, d).files
  }

  ghost predicate PassOf(c: Consumer, m: Modes, done: set<Dep>, p: Pass) {
    && p.targets == TargetsOf(c, m, done)
    && (forall f :: f in p.required <==> f in c.demands && !ClaimedBy(c, m, done, f))
    && (forall f :: f in p.required ==> p.required[f] == c.demands[f])
    && (forall f :: f !in c.demands ==> (f in p.supplied && p.supplied[f] == SOURCE_ROLE <==> OfferedBy(c, m, done, f)))
  }

  /** The run after asking about one dependency. */
  function Asked(w: World, run: Run, d: Dep): Run {
    match Program(w.c, d)
    case None => run
    case Some(key) => SourceOwner(w, run, key)
  }

  /** The direct pass, asking as it goes, reads every owner in the mode it has in m. */
  predicate Reads(w: World, run: Run, ds: seq<Dep>, m: Modes)
    decreases |ds|
  {
    ds == [] || (
      var asked := Asked(w, run, ds[0]);
      Direct(w.c, asked.modes, ds[0]) == Direct(w.c, m, ds[0]) && Reads(w, asked, ds[1..], m))
  }

  /** What one direct dependency adds to the pass. */
  lemma StepSupplies(w: World, p: Pass, d: Dep, m: Modes)
    requires Direct(w.c, Asked(w, p.run, d).modes, d) == Direct(w.c, m, d)
    ensures var supply, p' := Direct(w.c, m, d), DirectStep(w, p, d);
            && p'.run == Asked(w, p.run, d) && p'.targets == p.targets + Elements(supply.targets)
            && (forall f :: f in p'.required <==> f in p.required && !Claims(supply.inputs, p.required, f))
            && (forall f :: f in p'.required ==> p'.required[f] == p.required[f])
            && (forall f :: f !in p.required ==>
                 (f in p'.supplied && p'.supplied[f] == SOURCE_ROLE
                  <==> f in supply.files || (f in p.supplied && p.supplied[f] == SOURCE_ROLE)))
  {
    assert Elements(Direct(w.c, m, d).targets) == set t | t in Direct(w.c, m, d).targets;
  }

  lemma DirectStepOf(w: World, m: Modes, done: set<Dep>, p: Pass, d: Dep)
    requires PassOf(w.c, m, done, p) && Direct(w.c, Asked(w, p.run, d).modes, d) == Direct(w.c, m, d)
    ensures PassOf(w.c, m, done + {d}, DirectStep(w, p, d))
  {
    var c, p' := w.c, DirectStep(w, p, d);
    var supply := Direct(c, m, d);
    StepSupplies(w, p, d, m);
    assert forall x :: x in done + {d} <==> x in done || x == d;
    forall t
      ensures t in p'.targets <==> t in TargetsOf(c, m, done + {d})
    {
      if t in supply.targets {
        assert d in done + {d} && t in Direct(c, m, d).targets;
      }
    }
    forall f
      ensures ClaimedBy(c, m, done + {d}, f) <==> ClaimedBy(c, m, done, f) || Claims(supply.inputs, c.demands, f)
      ensures OfferedBy(c, m, done + {d}, f) <==> OfferedBy(c, m, done, f) || f in supply.files
    {
      assert d in done + {d};
      if x :| x in done && Claims(Direct(c, m, x).inputs, c.demands, f) {
        assert x in done + {d};
      }
      if x :| x in done && f in Direct(c, m, x).files {
        assert x in done + {d};
      }
    }
  }

  lemma {:induction false} DirectPassOf(w: World, m: Modes, done: set<Dep>, p: Pass, ds: seq<Dep>)
    requires PassOf(w.c, m, done, p) && Reads(w, p.run, ds, m)
    ensures PassOf(w.c, m, done + Elements(ds), DirectPass(w, p, ds))
    decreases |ds|
  {
    if ds == [] {
      assert done + Elements(ds) == done;
    } else {
      DirectStepOf(w, m, done, p, ds[0]);
      StepSupplies(w, p, ds[0], m);
      DirectPassOf(w, m, done + {ds[0]}, DirectStep(w, p, ds[0]), ds[1..]);
      assert ds == [ds[0]] + ds[1..];
      assert done + {ds[0]} + Elements(ds[1..]) == done + Elements(ds);
    }
  }

  /** What a walk leaves alone: targets, and everything supplied that is no demanded scope. */
  ghost predicate WalkFrame(c: Consumer, p: Pass, p': Pass) {
    && p'.targets == p.targets
    && p'.required.Keys <= p.required.Keys
    && (forall f :: f !in c.demands ==>
          (f in p'.supplied <==> f in p.supplied) && (f in p.supplied ==> p'.supplied[f] == p.supplied[f]))
  }

  lemma {:induction false} WalkOwnerFrame(w: World, a: Walk, key: Target)
    requires a.pass.required.Keys <= w.c.demands.Keys
    ensures WalkFrame(w.c, a.pass, WalkOwner(w, a, key).pass)
    decreases w.c.children.Keys - a.visited, 0
  {
    if !(key in a.visited && key != w.c.self) {
      var pass := Visit(w, a.pass, key);
      assert WalkFrame(w.c, a.pass, pass);
      if key !in a.visited && key in w.c.children {
        WalkChildrenFrame(w, Walk(pass, a.visited + {key}), w.c.children[key]);
      }
    }
  }

  lemma {:induction false} WalkChildrenFrame(w: World, a: Walk, keys: seq<Target>)
    requires a.pass.required.Keys <= w.c.demands.Keys
    ensures WalkFrame(w.c, a.pass, WalkChildren(w, a, keys).pass)
    decreases w.c.children.Keys - a.visited, 1 + |keys|
  {
    if keys != [] && a.pass.required != map[] {
      WalkOwnerFrame(w, a, keys[0]);
      WalkChildrenFrame(w, WalkOwner(w, a, keys[0]), keys[1..]);
    }
  }

  lemma {:induction false} WalkDepsFrame(w: World, a: Walk, ds: seq<Dep>)
    requires a.pass.required.Keys <= w.c.demands.Keys
    ensures WalkFrame(w.c, a.pass, WalkDeps(w, a, ds).pass)
    decreases |ds|
  {
    if ds != [] {
      if a.pass.required != map[] && Program(w.c, ds[0]).Some? {
        WalkOwnerFrame(w, a, Program(w.c, ds[0]).value);
      }
      WalkDepsFrame(w, WalkDep(w, a, ds[0]), ds[1..]);
    }
  }

  /** A walk inside a closed region of called owners promotes and completes nothing. */
  lemma {:induction false} WalkOwnerSettled(w: World, a: Walk, key: Target, region: set<Target>)
    requires Closed(w.c.children, region) && region <= a.pass.run.called && key in region
    ensures WalkOwner(w, a, key).pass.run == a.pass.run
    decreases w.c.children.Keys - a.visited, 0
  {
    if key !in a.visited && key in w.c.children {
      assert forall k :: k in w.c.children[key] ==> k in Next(w.c.children, key);
      WalkChildrenSettled(w, Walk(Visit(w, a.pass, key), a.visited + {key}), w.c.children[key], region);
    }
  }

  lemma {:induction false} WalkChildrenSettled(w: World, a: Walk, keys: seq<Target>, region: set<Target>)
    requires Closed(w.c.children, region) && region <= a.pass.run.called && forall k :: k in keys ==> k in region
    ensures WalkChildren(w, a, keys).pass.run == a.pass.run
    decreases w.c.children.Keys - a.visited, 1 + |keys|
  {
    if keys != [] && a.pass.required != map[] {
      WalkOwnerSettled(w, a, keys[0], region);
      WalkChildrenSettled(w, WalkOwner(w, a, keys[0]), keys[1..], region);
    }
  }

  lemma {:induction false} WalkDepsSettled(w: World, a: Walk, ds: seq<Dep>, region: set<Target>)
    requires Closed(w.c.children, region) && region <= a.pass.run.called
    requires Programs(w.c, Elements(ds)) <= region
    ensures WalkDeps(w, a, ds).pass.run == a.pass.run
    decreases |ds|
  {
    if ds != [] {
      assert ds[0] in Elements(ds);
      assert forall d :: d in Elements(ds[1..]) ==> d in Elements(ds);
      if a.pass.required != map[] && Program(w.c, ds[0]).Some? {
        assert Program(w.c, ds[0]).value in Programs(w.c, Elements(ds));
        WalkOwnerSettled(w, a, Program(w.c, ds[0]).value, region);
      }
      WalkDepsSettled(w, WalkDep(w, a, ds[0]), ds[1..], region);
    }
  }

  /** The reachable owners, as a closed region of called ones. */
  lemma SettledRegion(c: Consumer, run: Run, retained: set<Dep>) returns (region: set<Target>)
    requires WalkSettled(c, run, retained)
    ensures Closed(c.children, region) && region <= run.called && Programs(c, retained) <= region
  {
    var roots := Programs(c, retained);
    region := set k | k in run.called && ReachedFrom(c.children, roots, k);
    RootsReached(c.children, roots);
    forall x | x in region
      ensures forall y :: y in Next(c.children, x) ==> y in region
    {
      NextReached(c.children, roots, x);
    }
  }

  /** Some demanded scope is claimed by no direct dependency, so the pass walks past them. */
  ghost predicate Walks(c: Consumer, m: Modes, retained: set<Dep>) {
    exists f :: f in c.demands && !ClaimedBy(c, m, retained, f)
  }

  /** Whatever modes a pass reads, its targets and its files outside the scopes are theirs, in any order. */
  lemma PassSupplies(w: World, run: Run, ds: seq<Dep>, m: Modes)
    requires Reads(w, run, ds, m)
    ensures var p := SuppliedProgramInputs(w, run, ds);
            && p.targets == TargetsOf(w.c, m, Elements(ds))
            && forall f :: f !in w.c.demands ==> (f in SuppliedFiles(w.c, p) <==> f in FilesOf(w.c, m, Elements(ds)))
  {
    var start := Pass(run, map[], {}, w.c.demands);
    assert PassOf(w.c, m, {}, start);
    DirectPassOf(w, m, {}, start, ds);
    assert {} + Elements(ds) == Elements(ds);
    var p := DirectPass(w, start, ds);
    if p.required != map[] {
      WalkDepsFrame(w, Walk(p, {w.c.self}), ds);
    }
  }

  /** Under the guard, the pass's verdict on a dropped dependency is the order-free one. */
  lemma ReadVerdict(w: World, run: Run, ds: seq<Dep>, m: Modes, d: Dep)
    requires OrderFree(w.c) && d in w.c.requirements && Reads(w, run, ds, m)
    ensures var p := SuppliedProgramInputs(w, run, ds);
            Unsupplied(w.c, d, SuppliedFiles(w.c, p), p.targets) <==> Uncovered(w.c, m, Elements(ds), d)
  {
    PassSupplies(w, run, ds, m);
    var p, r := SuppliedProgramInputs(w, run, ds), w.c.requirements[d];
    var exact, free := SuppliedFiles(w.c, p), FilesOf(w.c, m, Elements(ds));
    forall e | e in r.edges
      ensures EdgeUnsupplied(w.c, r, e, exact) <==> EdgeUnsupplied(w.c, r, e, free)
    {
      assert e.from in exact <==> e.from in free;
      assert e.to in exact <==> e.to in free;
    }
  }

  // ---- Passes that ask nothing new ----

  /** Nothing the pass over these dependencies asks about is asked for the first time. */
  ghost predicate Quiet(c: Consumer, run: Run, retained: set<Dep>) {
    Settled(c, run, retained) && (Walks(c, run.modes, retained) ==> WalkSettled(c, run, retained))
  }

  /** A direct pass over asked owners leaves the run and reads its modes. */
  lemma {:induction false} SettledReads(w: World, p: Pass, ds: seq<Dep>)
    requires Settled(w.c, p.run, Elements(ds))
    ensures DirectPass(w, p, ds).run == p.run && Reads(w, p.run, ds, p.run.modes)
    decreases |ds|
  {
    if ds != [] {
      assert ds[0] in Elements(ds);
      assert forall d :: d in Elements(ds[1..]) ==> d in Elements(ds);
      SettledReads(w, DirectStep(w, p, ds[0]), ds[1..]);
    }
  }

  /** A quiet pass changes no mode. */
  lemma QuietPass(w: World, run: Run, ds: seq<Dep>)
    requires Quiet(w.c, run, Elements(ds))
    ensures SuppliedProgramInputs(w, run, ds).run == run && Reads(w, run, ds, run.modes)
  {
    var start := Pass(run, map[], {}, w.c.demands);
    SettledReads(w, start, ds);
    assert PassOf(w.c, run.modes, {}, start);
    DirectPassOf(w, run.modes, {}, start, ds);
    assert {} + Elements(ds) == Elements(ds);
    var p := DirectPass(w, start, ds);
    if p.required != map[] {
      assert exists f :: f in p.required by {
        assert p.required.Keys != {};
      }
      var region := SettledRegion(w.c, run, Elements(ds));
      WalkDepsSettled(w, Walk(p, {w.c.self}), ds, region);
    }
  }

  // ---- Passes from any start ----

  /** Whatever was asked stays asked, in the mode it then had. */
  predicate Keeps(run: Run, later: Run) {
    run.called <= later.called && forall k :: k in run.called ==> ModeOf(later.modes, k) == ModeOf(run.modes, k)
  }

  function AskAll(w: World, run: Run, keys: seq<Target>): Run
    decreases |keys|
  {
    if keys == [] then run else AskAll(w, SourceOwner(w, run, keys[0]), keys[1..])
  }

  /** Once asked, an owner never changes its mode again, whatever is asked after it. */
  ghost predicate Settling(w: World, run: Run) {
    forall keys, key :: Keeps(AskAll(w, run, keys), SourceOwner(w, AskAll(w, run, keys), key))
  }

  /** The later run comes of asking the source owner about some keys in turn. */
  ghost predicate Asks(w: World, run: Run, later: Run) {
    exists keys :: AskAll(w, run, keys) == later
  }

  lemma {:induction false} AskAllAppends(w: World, run: Run, keys: seq<Target>, more: seq<Target>)
    ensures AskAll(w, run, keys + more) == AskAll(w, AskAll(w, run, keys), more)
    decreases |keys|
  {
    if keys == [] {
      assert keys + more == more;
    } else {
      assert (keys + more)[1..] == keys[1..] + more;
      AskAllAppends(w, SourceOwner(w, run, keys[0]), keys[1..], more);
    }
  }

  lemma AsksOne(w: World, run: Run, key: Target)
    ensures Asks(w, run, run) && Asks(w, run, SourceOwner(w, run, key))
  {
    assert AskAll(w, run, []) == run;
    assert [key][1..] == [] && AskAll(w, run, [key]) == AskAll(w, SourceOwner(w, run, key), []);
  }

  lemma AsksOn(w: World, run: Run, later: Run, last: Run)
    requires Asks(w, run, later) && Asks(w, later, last)
    ensures Asks(w, run, last)
  {
    var keys, more :| AskAll(w, run, keys) == later && AskAll(w, later, more) == last;
    AskAllAppends(w, run, keys, more);
  }

  lemma {:induction false} AskAllKeeps(w: World, run: Run, keys: seq<Target>)
    requires Settling(w, run)
    ensures Keeps(run, AskAll(w, run, keys))
    decreases |keys|
  {
    if keys == [] {
    } else {
      var last := |keys| - 1;
      AskAllKeeps(w, run, keys[..last]);
      assert keys == keys[..last] + [keys[last]];
      AskAllAppends(w, run, keys[..last], [keys[last]]);
      var reached := AskAll(w, run, keys[..last]);
      assert AskAll(w, reached, [keys[last]]) == SourceOwner(w, reached, keys[last]);
      assert Keeps(reached, SourceOwner(w, reached, keys[last]));
    }
  }

  /** However many questions later, what was asked is as it was, and what is asked next will stay. */
  lemma AskingKeeps(w: World, run: Run, later: Run)
    requires Settling(w, run) && Asks(w, run, later)
    ensures Keeps(run, later) && Settling(w, later)
  {
    var keys :| AskAll(w, run, keys) == later;
    AskAllKeeps(w, run, keys);
    forall more, key
      ensures var reached := AskAll(w, later, more); Keeps(reached, SourceOwner(w, reached, key))
    {
      AskAllAppends(w, run, keys, more);
      assert Keeps(AskAll(w, run, keys + more), SourceOwner(w, AskAll(w, run, keys + more), key));
    }
  }

  lemma {:induction false} DirectPassAsks(w: World, p: Pass, ds: seq<Dep>)
    ensures var q := DirectPass(w, p, ds);
            Asks(w, p.run, q.run) && Settled(w.c, q.run, Elements(ds)) && p.run.called <= q.run.called
    decreases |ds|
  {
    if ds == [] {
      assert AskAll(w, p.run, []) == p.run;
    } else {
      var next := DirectStep(w, p, ds[0]);
      DirectPassAsks(w, next, ds[1..]);
      if Program(w.c, ds[0]).Some? {
        AsksOne(w, p.run, Program(w.c, ds[0]).value);
        AsksOn(w, p.run, next.run, DirectPass(w, p, ds).run);
      }
      assert forall d :: d in Elements(ds) <==> d == ds[0] || d in Elements(ds[1..]);
    }
  }

  lemma {:induction false} WalkOwnerAsks(w: World, a: Walk, key: Target)
    ensures Asks(w, a.pass.run, WalkOwner(w, a, key).pass.run)
    decreases w.c.children.Keys - a.visited, 0
  {
    AsksOne(w, a.pass.run, key);
    if key !in a.visited && key in w.c.children {
      var pass := Visit(w, a.pass, key);
      WalkChildrenAsks(w, Walk(pass, a.visited + {key}), w.c.children[key]);
      AsksOn(w, a.pass.run, pass.run, WalkOwner(w, a, key).pass.run);
    }
  }

  lemma {:induction false} WalkChildrenAsks(w: World, a: Walk, keys: seq<Target>)
    ensures Asks(w, a.pass.run, WalkChildren(w, a, keys).pass.run)
    decreases w.c.children.Keys - a.visited, 1 + |keys|
  {
    if keys == [] || a.pass.required == map[] {
      assert AskAll(w, a.pass.run, []) == a.pass.run;
    } else {
      var next := WalkOwner(w, a, keys[0]);
      WalkOwnerAsks(w, a, keys[0]);
      WalkChildrenAsks(w, next, keys[1..]);
      AsksOn(w, a.pass.run, next.pass.run, WalkChildren(w, a, keys).pass.run);
    }
  }

  lemma {:induction false} WalkDepsAsks(w: World, a: Walk, ds: seq<Dep>)
    ensures Asks(w, a.pass.run, WalkDeps(w, a, ds).pass.run)
    decreases |ds|
  {
    assert AskAll(w, a.pass.run, []) == a.pass.run;
    if ds != [] {
      var next := WalkDep(w, a, ds[0]);
      if a.pass.required != map[] && Program(w.c, ds[0]).Some? {
        WalkOwnerAsks(w, a, Program(w.c, ds[0]).value);
      }
      WalkDepsAsks(w, next, ds[1..]);
      AsksOn(w, a.pass.run, next.pass.run, WalkDeps(w, a, ds).pass.run);
    }
  }

  /** A pass only asks: about every direct owner first, and then about what it walks. */
  lemma PassAsks(w: World, run: Run, ds: seq<Dep>)
    ensures var p, direct := SuppliedProgramInputs(w, run, ds), DirectPass(w, Pass(run, map[], {}, w.c.demands), ds);
            && Asks(w, run, direct.run) && Asks(w, direct.run, p.run) && Asks(w, run, p.run)
            && Settled(w.c, direct.run, Elements(ds))
  {
    var start := Pass(run, map[], {}, w.c.demands);
    var direct := DirectPass(w, start, ds);
    DirectPassAsks(w, start, ds);
    WalkDepsAsks(w, Walk(direct, {w.c.self}), ds);
    assert AskAll(w, direct.run, []) == direct.run;
    AsksOn(w, run, direct.run, SuppliedProgramInputs(w, run, ds).run);
  }

  /** A pass asks about every owner it reads, and changes no mode already asked for. */
  lemma PassSettles(w: World, run: Run, ds: seq<Dep>)
    requires Settling(w, run)
    ensures var p := SuppliedProgramInputs(w, run, ds);
            Keeps(run, p.run) && Settling(w, p.run) && Settled(w.c, p.run, Elements(ds))
  {
    PassAsks(w, run, ds);
    var direct := DirectPass(w, Pass(run, map[], {}, w.c.demands), ds);
    AskingKeeps(w, run, direct.run);
    AskingKeeps(w, direct.run, SuppliedProgramInputs(w, run, ds).run);
  }

  /** The direct pass reads the modes of every later run that kept what it asked. */
  lemma {:induction false} LaterReads(w: World, p: Pass, ds: seq<Dep>, later: Run)
    requires Settling(w, p.run) && Keeps(DirectPass(w, p, ds).run, later)
    ensures Reads(w, p.run, ds, later.modes)
    decreases |ds|
  {
    if ds != [] {
      var next := DirectStep(w, p, ds[0]);
      if Program(w.c, ds[0]).Some? {
        AsksOne(w, p.run, Program(w.c, ds[0]).value);
        AskingKeeps(w, p.run, next.run);
      }
      DirectPassAsks(w, next, ds[1..]);
      AskingKeeps(w, next.run, DirectPass(w, next, ds[1..]).run);
      LaterReads(w, next, ds[1..], later);
    }
  }

  lemma PassReads(w: World, run: Run, ds: seq<Dep>, later: Run)
    requires Settling(w, run) && Keeps(SuppliedProgramInputs(w, run, ds).run, later)
    ensures Reads(w, run, ds, later.modes)
  {
    PassAsks(w, run, ds);
    var start := Pass(run, map[], {}, w.c.demands);
    AskingKeeps(w, run, DirectPass(w, start, ds).run);
    AskingKeeps(w, DirectPass(w, start, ds).run, SuppliedProgramInputs(w, run, ds).run);
    LaterReads(w, start, ds, later);
  }

  /** The pass but for what it asked. */
  predicate SameSupply(p: Pass, q: Pass) {
    p.supplied == q.supplied && p.targets == q.targets && p.required == q.required
  }

  lemma {:induction false} DirectPassSame(w: World, p: Pass, q: Pass, ds: seq<Dep>, m: Modes)
    requires SameSupply(p, q) && Reads(w, p.run, ds, m) && Reads(w, q.run, ds, m)
    ensures SameSupply(DirectPass(w, p, ds), DirectPass(w, q, ds))
    decreases |ds|
  {
    if ds != [] {
      DirectPassSame(w, DirectStep(w, p, ds[0]), DirectStep(w, q, ds[0]), ds[1..], m);
    }
  }

  lemma {:induction false} WalkOwnerSame(w: World, a: Walk, b: Walk, key: Target)
    requires SameSupply(a.pass, b.pass) && a.visited == b.visited
    ensures var a', b' := WalkOwner(w, a, key), WalkOwner(w, b, key);
            SameSupply(a'.pass, b'.pass) && a'.visited == b'.visited
    decreases w.c.children.Keys - a.visited, 0
  {
    if key !in a.visited && key in w.c.children {
      WalkChildrenSame(w, Walk(Visit(w, a.pass, key), a.visited + {key}),
                       Walk(Visit(w, b.pass, key), b.visited + {key}), w.c.children[key]);
    }
  }

  lemma {:induction false} WalkChildrenSame(w: World, a: Walk, b: Walk, keys: seq<Target>)
    requires SameSupply(a.pass, b.pass) && a.visited == b.visited
    ensures var a', b' := WalkChildren(w, a, keys), WalkChildren(w, b, keys);
            SameSupply(a'.pass, b'.pass) && a'.visited == b'.visited
    decreases w.c.children.Keys - a.visited, 1 + |keys|
  {
    if keys != [] && a.pass.required != map[] {
      WalkOwnerSame(w, a, b, keys[0]);
      WalkChildrenSame(w, WalkOwner(w, a, keys[0]), WalkOwner(w, b, keys[0]), keys[1..]);
    }
  }

  lemma {:induction false} WalkDepsSame(w: World, a: Walk, b: Walk, ds: seq<Dep>)
    requires SameSupply(a.pass, b.pass) && a.visited == b.visited
    ensures SameSupply(WalkDeps(w, a, ds).pass, WalkDeps(w, b, ds).pass)
    decreases |ds|
  {
    if ds != [] {
      if a.pass.required != map[] && Program(w.c, ds[0]).Some? {
        WalkOwnerSame(w, a, b, Program(w.c, ds[0]).value);
      }
      WalkDepsSame(w, WalkDep(w, a, ds[0]), WalkDep(w, b, ds[0]), ds[1..]);
    }
  }

  /** Two passes that read the same modes supply the same, whatever each has yet to ask. */
  lemma SamePass(w: World, run: Run, run': Run, ds: seq<Dep>, m: Modes)
    requires Reads(w, run, ds, m) && Reads(w, run', ds, m)
    ensures SameSupply(SuppliedProgramInputs(w, run, ds), SuppliedProgramInputs(w, run', ds))
  {
    var p, q := Pass(run, map[], {}, w.c.demands), Pass(run', map[], {}, w.c.demands);
    DirectPassSame(w, p, q, ds, m);
    WalkDepsSame(w, Walk(DirectPass(w, p, ds), {w.c.self}), Walk(DirectPass(w, q, ds), {w.c.self}), ds);
  }

  /** From any start, the verdict is the order-free one under the modes of every later run. */
  lemma PassVerdict(w: World, run: Run, ds: seq<Dep>, later: Run, d: Dep)
    requires OrderFree(w.c) && d in w.c.requirements && Settling(w, run)
    requires Keeps(SuppliedProgramInputs(w, run, ds).run, later)
    ensures var p := SuppliedProgramInputs(w, run, ds);
            Unsupplied(w.c, d, SuppliedFiles(w.c, p), p.targets) <==> Uncovered(w.c, later.modes, Elements(ds), d)
  {
    PassReads(w, run, ds, later);
    ReadVerdict(w, run, ds, later.modes, d);
  }

  // ---- What a question promotes ----

  /**
   * A question marks what its key reaches: only an owner that may take emit changes its mode, to
   * emitted, and the key itself does so at once. An unrooted program promotes nothing.
   */
  ghost predicate Promotes(w: World, managed: set<Target>) {
    && (forall m, key, k :: var m' := w.promote(m, key);
                            ModeOf(m', k) == ModeOf(m, k) || (k in managed && ModeOf(m', k) == EmittedEmission))
    && (forall m, key :: key in managed ==> ModeOf(w.promote(m, key), key) == EmittedEmission)
  }

  /** Every managed owner asked so far emits. */
  predicate Promoted(run: Run, managed: set<Target>) {
    forall k :: k in run.called && k in managed ==> ModeOf(run.modes, k) == EmittedEmission
  }

  /** An asked owner's mode is settled by whether it may take emit and by the mode it started in. */
  ghost predicate Determined(m: Modes, run: Run, managed: set<Target>) {
    && Promoted(run, managed)
    && forall k :: k !in managed ==> ModeOf(run.modes, k) == ModeOf(m, k)
  }

  lemma {:induction false} AskAllDetermined(w: World, managed: set<Target>, m: Modes, run: Run, keys: seq<Target>)
    requires Promotes(w, managed) && Determined(m, run, managed)
    ensures Determined(m, AskAll(w, run, keys), managed)
    decreases |keys|
  {
    if keys != [] {
      AskAllDetermined(w, managed, m, SourceOwner(w, run, keys[0]), keys[1..]);
    }
  }

  /** Promotion settles what it is asked about. */
  lemma PromotionSettles(w: World, managed: set<Target>, run: Run)
    requires Promotes(w, managed) && Promoted(run, managed)
    ensures Settling(w, run)
  {
    forall keys, key
      ensures var reached := AskAll(w, run, keys); Keeps(reached, SourceOwner(w, reached, key))
    {
      AskAllDetermined(w, managed, run.modes, run, keys);
    }
  }

  /** So from any start no order of the same dependencies changes a verdict, whatever either order promotes. */
  lemma OrderChangesNoVerdict(w: World, managed: set<Target>, run: Run, ds: seq<Dep>, ds': seq<Dep>, d: Dep)
    requires OrderFree(w.c) && d in w.c.requirements && Elements(ds) == Elements(ds')
    requires Promotes(w, managed) && Promoted(run, managed)
    ensures var p, p' := SuppliedProgramInputs(w, run, ds), SuppliedProgramInputs(w, run, ds');
            Unsupplied(w.c, d, SuppliedFiles(w.c, p), p.targets)
            <==> Unsupplied(w.c, d, SuppliedFiles(w.c, p'), p'.targets)
  {
    PromotionSettles(w, managed, run);
    var last, last' := SuppliedProgramInputs(w, run, ds).run, SuppliedProgramInputs(w, run, ds').run;
    PassVerdict(w, run, ds, last, d);
    PassVerdict(w, run, ds', last', d);
    PassSettles(w, run, ds);
    PassSettles(w, run, ds');
    PassDetermined(w, managed, run, ds);
    PassDetermined(w, managed, run, ds');
    forall x | x in Elements(ds)
      ensures Direct(w.c, last.modes, x) == Direct(w.c, last'.modes, x)
    {
    }
    assert FilesOf(w.c, last.modes, Elements(ds)) == FilesOf(w.c, last'.modes, Elements(ds));
    assert TargetsOf(w.c, last.modes, Elements(ds)) == TargetsOf(w.c, last'.modes, Elements(ds));
  }

  lemma PassDetermined(w: World, managed: set<Target>, run: Run, ds: seq<Dep>)
    requires Promotes(w, managed) && Promoted(run, managed)
    ensures Determined(run.modes, SuppliedProgramInputs(w, run, ds).run, managed)
  {
    PassAsks(w, run, ds);
    var keys :| AskAll(w, run, keys) == SuppliedProgramInputs(w, run, ds).run;
    AskAllDetermined(w, managed, run.modes, run, keys);
  }

  // ---- Why the guard is there ----

  const SCOPE_FILE := File("p/package.json", Json, false)
  const MODULE := File("a/index.ts", Source, false)

  /** a claims the scope for scopes only, b lists it as a source of its own, and x reads it. */
  function OrderedConsumer(): Consumer {
    var edge := Edge(SCOPE_FILE, MODULE);
    Consumer(
      map[Dep("a") := Requirement(Target("a"), Some(Target("a")), false, [], false),
          Dep("b") := Requirement(Target("b"), Some(Target("b")), false, [], false),
          Dep("x") := Requirement(Target("x"), None, true, [edge], false)],
      {}, map[SCOPE_FILE := 1], Target("self"),
      map[Target("a") := Owner(map[MODULE := 0, SCOPE_FILE := 1], [Target("x")], false, {}),
          Target("b") := Owner(map[SCOPE_FILE := 0], [], false, {})],
      map[], map[])
  }

  function OrderedRun(): Run {
    Run({Target("a"), Target("b")}, map[Target("a") := SourceEmission, Target("b") := EmittedEmission])
  }

  lemma OrderedSupplies(c: Consumer)
    requires c == OrderedConsumer()
    ensures Direct(c, OrderedRun().modes, Dep("a"))
            == DirectSupply(map[MODULE := 0, SCOPE_FILE := 1], {MODULE}, [Target("x")])
    ensures Direct(c, OrderedRun().modes, Dep("b")) == DirectSupply(map[SCOPE_FILE := 0], {}, [])
  {
    assert Joins(OwnerOf(c, Target("a")), SourceEmission, MODULE);
  }

  /** One step over a known supply. */
  lemma StepOf(w: World, p: Pass, d: Dep, supply: DirectSupply)
    requires Program(w.c, d).Some? && Program(w.c, d).value in p.run.called && supply == Direct(w.c, p.run.modes, d)
    ensures DirectStep(w, p, d)
            == Claim(p.(supplied := p.supplied + Only(supply.inputs, supply.files),
                        targets := p.targets + Elements(supply.targets)), supply.inputs)
  {
    assert Elements(supply.targets) == set t | t in supply.targets;
  }

  lemma TwoSteps(w: World, p: Pass, d: Dep, e: Dep)
    ensures DirectPass(w, p, [d, e]) == DirectStep(w, DirectStep(w, p, d), e)
  {
    assert [d, e][1..] == [e] && [e][1..] == [];
    assert DirectPass(w, DirectStep(w, DirectStep(w, p, d), e), []) == DirectStep(w, DirectStep(w, p, d), e);
  }

  lemma ClaimsTheOne(p: Pass, inputs: map<File, Role>, f: File)
    requires p.required.Keys == {f} && Claims(inputs, p.required, f)
    ensures var q := Claim(p, inputs); q.run == p.run && q.targets == p.targets && q.required == map[]
    ensures f in Claim(p, inputs).supplied && Claim(p, inputs).supplied[f] == inputs[f]
  {
    assert Claim(p, inputs).required.Keys == {};
  }

  lemma ClaimsNone(p: Pass, inputs: map<File, Role>)
    requires p.required == map[]
    ensures Claim(p, inputs).supplied == p.supplied && Claim(p, inputs).required == map[]
    ensures Claim(p, inputs).targets == p.targets
  {
    assert Claimed(inputs, p.required) == {};
    assert p.supplied + Only(inputs, {}) == p.supplied;
  }

  /** A lone scope stays claimed at the role of the first dependency that claims it. */
  lemma FirstClaims(w: World, run: Run, d: Dep, e: Dep, f: File)
    requires w.c.demands.Keys == {f} && Settled(w.c, run, {d, e}) && Program(w.c, d).Some? && Program(w.c, e).Some?
    requires Claims(Direct(w.c, run.modes, d).inputs, w.c.demands, f) && f !in Direct(w.c, run.modes, e).files
    ensures var p, sd, se := SuppliedProgramInputs(w, run, [d, e]), Direct(w.c, run.modes, d),
                             Direct(w.c, run.modes, e);
            p.run == run && p.targets == Elements(sd.targets) + Elements(se.targets) && f in p.supplied
            && p.supplied[f] == sd.inputs[f]
  {
    var start := Pass(run, map[], {}, w.c.demands);
    TwoSteps(w, start, d, e);
    var sd, se := Direct(w.c, run.modes, d), Direct(w.c, run.modes, e);
    StepOf(w, start, d, sd);
    var p := start.(supplied := start.supplied + Only(sd.inputs, sd.files),
                    targets := start.targets + Elements(sd.targets));
    ClaimsTheOne(p, sd.inputs, f);
    var q := Claim(p, sd.inputs);
    StepOf(w, q, e, se);
    ClaimsNone(q.(supplied := q.supplied + Only(se.inputs, se.files), targets := q.targets + Elements(se.targets)),
               se.inputs);
  }

  lemma OrderedVerdict(c: Consumer, files: set<File>, targets: set<Target>)
    requires c == OrderedConsumer() && Target("x") in targets
    ensures Unsupplied(c, Dep("x"), files, targets) <==> SCOPE_FILE !in files
    ensures !OrderFree(c)
  {
    var x, edge := c.requirements[Dep("x")], Edge(SCOPE_FILE, MODULE);
    assert forall e :: e in x.edges <==> e == edge;
    assert edge.from in c.demands;
    assert EdgeUnsupplied(c, x, edge, files) <==> SCOPE_FILE !in files;
  }

  lemma OrderedSettled(c: Consumer)
    requires c == OrderedConsumer()
    ensures c.demands.Keys == {SCOPE_FILE} && c.demands[SCOPE_FILE] == 1 && c.roots == {}
    ensures forall d :: d in {Dep("a"), Dep("b")} ==> Program(c, d).Some? && Program(c, d).value in OrderedRun().called
  {
  }

  /** Without the guard, the same two dependencies supply x in one order and not in the other. */
  lemma GuardNeeded(w: World)
    requires w.c == OrderedConsumer()
    ensures !OrderFree(w.c)
    ensures var p := SuppliedProgramInputs(w, OrderedRun(), [Dep("a"), Dep("b")]);
            Unsupplied(w.c, Dep("x"), SuppliedFiles(w.c, p), p.targets)
    ensures var p := SuppliedProgramInputs(w, OrderedRun(), [Dep("b"), Dep("a")]);
            !Unsupplied(w.c, Dep("x"), SuppliedFiles(w.c, p), p.targets)
  {
    assert !OrderFree(w.c) by {
      OrderedVerdict(w.c, {}, {Target("x")});
    }
    OrderedOutcome(w, Dep("a"), Dep("b"));
    OrderedOutcome(w, Dep("b"), Dep("a"));
  }

  /** With a first, the scope stays claimed at its role. */
  lemma FirstA(w: World)
    requires w.c == OrderedConsumer()
    ensures var p := SuppliedProgramInputs(w, OrderedRun(), [Dep("a"), Dep("b")]);
            Target("x") in p.targets && SCOPE_FILE in p.supplied && p.supplied[SCOPE_FILE] == 1
  {
    OrderedSupplies(w.c);
    OrderedSettled(w.c);
    FirstClaims(w, OrderedRun(), Dep("a"), Dep("b"), SCOPE_FILE);
    assert Target("x") in Elements([Target("x")]);
  }

  /** With b first, it is supplied as a source. */
  lemma FirstB(w: World)
    requires w.c == OrderedConsumer()
    ensures var p := SuppliedProgramInputs(w, OrderedRun(), [Dep("b"), Dep("a")]);
            Target("x") in p.targets && SCOPE_FILE in p.supplied && p.supplied[SCOPE_FILE] == 0
  {
    OrderedSupplies(w.c);
    OrderedSettled(w.c);
    FirstClaims(w, OrderedRun(), Dep("b"), Dep("a"), SCOPE_FILE);
    assert Target("x") in Elements([Target("x")]);
  }

  /** So only a claim as a source supplies what x reads. */
  lemma OrderedOutcome(w: World, d: Dep, e: Dep)
    requires w.c == OrderedConsumer() && ((d == Dep("a") && e == Dep("b")) || (d == Dep("b") && e == Dep("a")))
    ensures var p := SuppliedProgramInputs(w, OrderedRun(), [d, e]);
            Unsupplied(w.c, Dep("x"), SuppliedFiles(w.c, p), p.targets) <==> d == Dep("a")
  {
    if d == Dep("a") {
      FirstA(w);
    } else {
      FirstB(w);
    }
    var p := SuppliedProgramInputs(w, OrderedRun(), [d, e]);
    OrderedVerdict(w.c, SuppliedFiles(w.c, p), p.targets);
  }
}
