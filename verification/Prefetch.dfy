/**
 * The listing prefetch: a bounded pool of workers that run compiler listings ahead of the main
 * thread, which takes over any job it reaches first. A transition system: every section guarded by
 * the pool's mutex is one step, and so is every blocking operation outside it.
 */
module Prefetch {
  import opened Wrappers

  datatype Request = Request(cfg: string, root: string, tool: string)

  /** A listing is what the compiler says of a request and of the projection configs beside its sources. */
  datatype Outcome = Listed(request: Request, projections: set<string>) | Killed

  datatype Thread = Main | Worker(id: nat)

  /** A job's run-once guard; a reading thread holds the projection lock shared. */
  datatype Once = Unrun | Claimed(thread: Thread) | Reading(thread: Thread, observed: set<string>)
    | Done(outcome: Outcome)

  datatype WorkerAt = Ready | Waiting | Signalled | Holding(job: nat) | Exited

  /** Where the main thread is: Locking and Projecting are the exclusive side of the projection lock. */
  datatype MainAt = Idle | Taking(request: Request, job: nat) | Listing(listed: Request, observed: set<string>)
    | Locking(config: string) | Projecting

  /**
   * The pool. A job is its index in log, which holds every job ever made; popped, begun and
   * returned are histories of what left the queue, of what ran, and of what listings returned.
   */
  datatype Pool = Pool(
    created: bool, stopped: bool,
    jobs: map<string, nat>, requested: set<string>, queue: seq<nat>, log: seq<Request>, onces: seq<Once>,
    workers: seq<WorkerAt>, main: MainAt, projections: set<string>,
    popped: seq<nat>, begun: seq<nat>, returned: seq<(Request, Outcome)>)

  const EMPTY := Pool(false, false, map[], {}, [], [], [], [], Idle, {}, [], [], [])

  // ---- Steps ----

  /** The first six are a thread's own progress; the others are calls the main thread makes. */
  datatype Step =
    | Loop(worker: nat)
    | Claim(thread: Thread, job: nat)
    | Read(thread: Thread, job: nat)
    | Finish(thread: Thread, job: nat, killed: bool)
    | Leave(thread: Thread, job: nat)
    | EndListing
    | Project
    | Unproject
    | Call(request: Request, wake: Option<nat>)
    | Take(request: Request)
    | Lock(config: string)
    | Stop

  predicate At(s: Pool, t: Thread, job: nat) {
    match t
    case Main => s.main.Taking? && s.main.job == job
    case Worker(w) => w < |s.workers| && s.workers[w] == Holding(job)
  }

  predicate Enabled(s: Pool, step: Step) {
    match step
    case Loop(w) => w < |s.workers| && (s.workers[w].Ready? || s.workers[w].Signalled?)
    case Claim(t, j) => At(s, t, j) && j < |s.onces| && s.onces[j].Unrun?
    case Read(t, j) => j < |s.onces| && s.onces[j] == Claimed(t) && !s.main.Locking? && !s.main.Projecting?
    case Finish(t, j, killed) => j < |s.onces| && s.onces[j].Reading? && s.onces[j].thread == t
                                 && (killed ==> s.stopped)
    case Leave(t, j) => At(s, t, j) && j < |s.onces| && s.onces[j].Done?
    case EndListing => s.main.Listing?
    case Project => s.main.Locking? && forall j :: 0 <= j < |s.onces| ==> !s.onces[j].Reading?
    case Unproject => s.main.Projecting?
    case Call(_, wake) => s.main.Idle? && Wakes(s, wake)
    case Take(_) => s.main.Idle?
    case Lock(_) => s.main.Idle?
    case Stop => s.main.Idle?
  }

  /** A signal wakes one waiting worker, if any waits. */
  predicate Wakes(s: Pool, wake: Option<nat>) {
    match wake
    case Some(w) => w < |s.workers| && s.workers[w].Waiting?
    case None => forall w :: 0 <= w < |s.workers| ==> !s.workers[w].Waiting?
  }

  function Moved(s: Pool, t: Thread, outcome: Outcome): Pool {
    match t
    case Main => if s.main.Taking? then s.(main := Idle, returned := s.returned + [(s.main.request, outcome)]) else s
    case Worker(w) => if w < |s.workers| then s.(workers := s.workers[w := Ready]) else s
  }

  /** A worker with the mutex: it exits, waits, or pops a job and keeps it if nobody took it. */
  function Looped(s: Pool, w: nat): Pool
    requires w < |s.workers|
  {
    if s.stopped then s.(workers := s.workers[w := Exited])
    else if s.queue == [] then s.(workers := s.workers[w := Waiting])
    else
      var j := s.queue[0];
      var s' := s.(queue := s.queue[1..], popped := s.popped + [j]);
      if j < |s.log| && s.log[j].cfg in s.jobs && s.jobs[s.log[j].cfg] == j
        then s'.(workers := s.workers[w := Holding(j)])
      else s'.(workers := s.workers[w := Ready])
  }

  /** Queues a listing once per config, starting a worker while fewer than the bound run. */
  function Called(bound: nat, s: Pool, request: Request, wake: Option<nat>): Pool
    requires Wakes(s, wake)
  {
    if s.stopped || request.cfg in s.requested then s.(created := true)
    else
      var j := |s.log|;
      var workers := if wake.Some? then s.workers[wake.value := Signalled] else s.workers;
      s.(created := true, requested := s.requested + {request.cfg}, log := s.log + [request],
         onces := s.onces + [Unrun],
         jobs := s.jobs[request.cfg := j], queue := s.queue + [j],
         workers := if |s.workers| < bound then workers + [Ready] else workers)
  }

  /** Takes the config's job away from the pool; one made for another root or tool is not run. */
  function Taken(s: Pool, request: Request): Pool {
    var s' := s.(jobs := s.jobs - {request.cfg});
    if request.cfg in s.jobs && s.jobs[request.cfg] < |s.log| && s.log[s.jobs[request.cfg]] == request
      then s'.(main := Taking(request, s.jobs[request.cfg]))
    else s'.(main := Listing(request, s.projections))
  }

  function Stopped(s: Pool): Pool {
    if !s.created then s
    else s.(stopped := true, jobs := map[], queue := [],
            workers := seq(|s.workers|,
                           w requires 0 <= w < |s.workers| =>
                             if s.workers[w].Waiting? then Signalled else s.workers[w]))
  }

  /** Everything that reads while a projection config appears may read it. */
  function Observing(o: Once, config: string): Once {
    if o.Reading? then o.(observed := o.observed + {config}) else o
  }

  function Apply(bound: nat, s: Pool, step: Step): Pool
    requires Enabled(s, step)
  {
    match step
    case Loop(w) => Looped(s, w)
    case Claim(t, j) => s.(onces := s.onces[j := Claimed(t)])
    case Read(t, j) => s.(onces := s.onces[j := Reading(t, s.projections)], begun := s.begun + [j])
    case Finish(t, j, killed) => s.(onces := s.onces[j := Done(if killed || j >= |s.log| then Killed
                                                               else Listed(s.log[j], s.onces[j].observed))])
    case Leave(t, j) => Moved(s, t, s.onces[j].outcome)
    case EndListing => s.(main := Idle,
                          returned := s.returned + [(s.main.listed, Listed(s.main.listed, s.main.observed))])
    case Project => s.(main := Projecting, projections := s.projections + {s.main.config},
                       onces := seq(|s.onces|, j requires 0 <= j < |s.onces| => Observing(s.onces[j], s.main.config)))
    case Unproject => s.(main := Idle, projections := {})
    case Call(request, wake) => Called(bound, s, request, wake)
    case Take(request) => Taken(s, request)
    case Lock(config) => s.(main := Locking(config))
    case Stop => Stopped(s)
  }

  /** Always true: asserting it of a value unfolds what is stated below for that value, and nothing else does. */
  ghost predicate Inspects(s: Pool) {
    true
  }

  /** Starts out empty, for whoever inspects it. */
  ghost predicate Begins(s: Pool) {
    forall x {:trigger Inspects(x)} :: x == s ==> x == EMPTY
  }

  /** A run of the pool: any interleaving of any calls. */
  ghost predicate Run(bound: nat, run: seq<Pool>) {
    && run != []
    && Begins(run[0])
    && forall i {:trigger Steps(bound, run[i], run[i + 1])} :: 0 <= i < |run| - 1 ==> Steps(bound, run[i], run[i + 1])
  }

  ghost predicate Steps(bound: nat, s: Pool, s': Pool) {
    exists step :: Enabled(s, step) && s' == Apply(bound, s, step)
  }

  // ---- What every state keeps ----

  ghost predicate NoneTwice(s: seq<nat>) {
    forall i, j :: 0 <= i < j < |s| ==> s[i] != s[j]
  }

  /** Jobs are indices of log, one per requested config. */
  ghost predicate Indexed(s: Pool) {
    var indexed := |s.onces| == |s.log|
      && (forall j :: 0 <= j < |s.log| ==> s.log[j].cfg in s.requested)
      && (forall i, j :: 0 <= i < j < |s.log| ==> s.log[i].cfg != s.log[j].cfg)
      && (forall c :: c in s.jobs ==> s.jobs[c] < |s.log| && s.log[s.jobs[c]].cfg == c)
      && (forall j :: j in s.queue || j in s.popped || j in s.begun ==> j < |s.log|)
      && NoneTwice(s.popped + s.queue);
    indexed
  }

  /** A claim is held by a thread at the job, and a job that began is being read or done. */
  ghost predicate Guarded(s: Pool) {
    var guarded := NoneTwice(s.begun)
      && (forall j :: 0 <= j < |s.onces| ==> (j in s.begun <==> s.onces[j].Reading? || s.onces[j].Done?))
      && (forall j :: 0 <= j < |s.onces| && (s.onces[j].Claimed? || s.onces[j].Reading?) ==>
            At(s, s.onces[j].thread, j))
      && (forall w :: 0 <= w < |s.workers| && s.workers[w].Holding? ==> s.workers[w].job < |s.onces|)
      && (s.main.Taking? ==>
          s.main.job < |s.onces| && s.main.job < |s.log| && s.log[s.main.job] == s.main.request && !s.stopped);
    guarded
  }

  /** No listing saw a projection, and only a stop kills one. */
  ghost predicate Clean(s: Pool) {
    var clean := (s.projections == {} || s.main.Projecting?)
      && (s.main.Projecting? ==> forall j :: 0 <= j < |s.onces| ==> !s.onces[j].Reading?)
      && (forall j :: 0 <= j < |s.onces| && s.onces[j].Reading? ==> s.onces[j].observed == {})
      && (forall j :: 0 <= j < |s.onces| && s.onces[j].Done? ==>
            j < |s.log| && ((s.stopped && s.onces[j].outcome == Killed) || s.onces[j].outcome == Listed(s.log[j], {})))
      && (s.main.Listing? ==> s.main.observed == {})
      && (forall r :: r in s.returned ==> r.1 == Listed(r.0, {}));
    clean
  }

  ghost predicate Active(at: WorkerAt) {
    at.Ready? || at.Signalled? || at.Holding?
  }

  /** Work never waits without a worker to take it, and a stopped pool holds no work. */
  ghost predicate Staffed(bound: nat, s: Pool) {
    var staffed := |s.workers| <= bound
      && (s.queue != [] && !s.stopped ==> exists w :: 0 <= w < |s.workers| && Active(s.workers[w]))
      && (s.stopped ==> s.queue == [] && s.jobs == map[] && forall w :: 0 <= w < |s.workers| ==> !s.workers[w].Waiting?)
      && (!s.stopped ==> forall w :: 0 <= w < |s.workers| ==> !s.workers[w].Exited?);
    staffed
  }

  ghost predicate Held(s: Pool, j: nat) {
    exists w :: 0 <= w < |s.workers| && s.workers[w] == Holding(j)
  }

  /** A job the pool still offers is queued, at a worker, or done. */
  ghost predicate Tracked(s: Pool) {
    var tracked := forall c :: c in s.jobs ==>
      s.jobs[c] in s.queue || Held(s, s.jobs[c]) || (s.jobs[c] < |s.onces| && s.onces[s.jobs[c]].Done?);
    tracked
  }

  ghost predicate Holds(bound: nat, s: Pool) {
    var sound := Indexed(s) && Guarded(s) && Clean(s) && Staffed(bound, s) && Tracked(s);
    sound
  }

  /** The pool's invariant, for whoever inspects the state. */
  ghost predicate Sound(bound: nat, s: Pool) {
    forall x {:trigger Inspects(x)} :: x == s ==> Holds(bound, x)
  }

  lemma Inspect(bound: nat, s: Pool)
    requires Sound(bound, s)
    ensures Holds(bound, s)
  {
    assert Inspects(s);
  }

  lemma MakesSound(bound: nat, s: Pool)
    requires Holds(bound, s)
    ensures Sound(bound, s)
  {
    forall x | x == s
      ensures Holds(bound, x)
    {
    }
  }

  lemma PopKeepsOnce(popped: seq<nat>, queue: seq<nat>)
    requires queue != [] && NoneTwice(popped + queue)
    ensures NoneTwice(popped + [queue[0]] + queue[1..])
    ensures forall j :: j in popped + [queue[0]] || j in queue[1..] ==> j in queue || j in popped
  {
    assert popped + [queue[0]] + queue[1..] == popped + queue;
  }

  lemma PushKeepsOnce(popped: seq<nat>, queue: seq<nat>, j: nat)
    requires NoneTwice(popped + queue) && forall k :: k in popped || k in queue ==> k < j
    ensures NoneTwice(popped + (queue + [j]))
  {
    var all := popped + queue;
    assert popped + (queue + [j]) == all + [j];
    forall i | 0 <= i < |all|
      ensures all[i] < j
    {
      assert all[i] in popped || all[i] in queue;
    }
  }

  lemma DropKeepsOnce(popped: seq<nat>, queue: seq<nat>)
    requires NoneTwice(popped + queue)
    ensures NoneTwice(popped + [])
  {
    assert forall i :: 0 <= i < |popped| ==> (popped + queue)[i] == popped[i];
  }

  lemma KeepsIndexed(bound: nat, s: Pool, step: Step)
    requires Enabled(s, step) && Holds(bound, s)
    ensures Indexed(Apply(bound, s, step))
  {
    match step
    case Loop(w) => IndexedLoop(bound, s, w);
    case Call(request, wake) => IndexedCall(bound, s, request, wake);
    case Stop => DropKeepsOnce(s.popped, s.queue);
    case _ =>
  }

  lemma IndexedLoop(bound: nat, s: Pool, w: nat)
    requires Enabled(s, Loop(w)) && Holds(bound, s)
    ensures Indexed(Apply(bound, s, Loop(w)))
  {
    if !s.stopped && s.queue != [] {
      PopKeepsOnce(s.popped, s.queue);
    }
  }

  lemma IndexedCall(bound: nat, s: Pool, request: Request, wake: Option<nat>)
    requires Enabled(s, Call(request, wake)) && Holds(bound, s)
    ensures Indexed(Apply(bound, s, Call(request, wake)))
  {
    PushKeepsOnce(s.popped, s.queue, |s.log|);
  }

  lemma KeepsGuarded(bound: nat, s: Pool, step: Step)
    requires Enabled(s, step) && Holds(bound, s)
    ensures Guarded(Apply(bound, s, step))
  {
    match step
    case Loop(w) => GuardedLoop(bound, s, w);
    case Read(t, j) => GuardedRead(bound, s, t, j);
    case Leave(t, j) => GuardedLeave(bound, s, t, j);
    case Call(request, wake) => GuardedCall(bound, s, request, wake);
    case _ => GuardedOther(bound, s, step);
  }

  lemma GuardedLoop(bound: nat, s: Pool, w: nat)
    requires Enabled(s, Loop(w)) && Holds(bound, s)
    ensures Guarded(Apply(bound, s, Loop(w)))
  {
    var s' := Apply(bound, s, Loop(w));
    forall t, j | At(s, t, j)
      ensures At(s', t, j)
    {
    }
  }

  lemma GuardedRead(bound: nat, s: Pool, t: Thread, j: nat)
    requires Enabled(s, Read(t, j)) && Holds(bound, s)
    ensures Guarded(Apply(bound, s, Read(t, j)))
  {
    assert j !in s.begun;
  }

  lemma GuardedLeave(bound: nat, s: Pool, t: Thread, j: nat)
    requires Enabled(s, Leave(t, j)) && Holds(bound, s)
    ensures Guarded(Apply(bound, s, Leave(t, j)))
  {
    var s' := Apply(bound, s, Leave(t, j));
    forall u, k | At(s, u, k) && k != j
      ensures At(s', u, k)
    {
    }
  }

  lemma GuardedCall(bound: nat, s: Pool, request: Request, wake: Option<nat>)
    requires Enabled(s, Call(request, wake)) && Holds(bound, s)
    ensures Guarded(Apply(bound, s, Call(request, wake)))
  {
    var s' := Apply(bound, s, Call(request, wake));
    forall t, j | At(s, t, j)
      ensures At(s', t, j)
    {
    }
  }

  lemma GuardedOther(bound: nat, s: Pool, step: Step)
    requires Enabled(s, step) && Holds(bound, s)
    requires !step.Loop? && !step.Read? && !step.Leave? && !step.Call?
    ensures Guarded(Apply(bound, s, step))
  {
    var s' := Apply(bound, s, step);
    forall t, j | At(s, t, j)
      ensures At(s', t, j)
    {
    }
  }

  lemma KeepsStaffed(bound: nat, s: Pool, step: Step)
    requires Enabled(s, step) && Holds(bound, s) && bound > 0
    ensures Staffed(bound, Apply(bound, s, step))
  {
    match step
    case Loop(w) => StaffedMove(bound, s, step, w);
    case Leave(t, j) =>
      if t.Worker? {
        StaffedMove(bound, s, step, t.id);
      }
    case Call(request, wake) => StaffedCall(bound, s, request, wake);
    case _ =>
  }

  /** A worker moves to Waiting only from an empty queue. */
  lemma StaffedMove(bound: nat, s: Pool, step: Step, w: nat)
    requires Enabled(s, step) && Holds(bound, s)
    requires step == Loop(w) || (step.Leave? && step.thread == Worker(w))
    ensures Staffed(bound, Apply(bound, s, step))
  {
    var s' := Apply(bound, s, step);
    if s'.queue != [] && !s'.stopped {
      assert Active(s'.workers[w]);
    }
  }

  /** A call starts a worker, or the bound is reached: then one is active already, or the signal wakes one. */
  lemma StaffedCall(bound: nat, s: Pool, request: Request, wake: Option<nat>)
    requires Enabled(s, Call(request, wake)) && Holds(bound, s) && bound > 0
    ensures Staffed(bound, Apply(bound, s, Call(request, wake)))
  {
    var s' := Apply(bound, s, Call(request, wake));
    if s.stopped || request.cfg in s.requested {
      assert s'.workers == s.workers;
    } else if |s.workers| < bound {
      assert Active(s'.workers[|s.workers|]);
    } else if wake.Some? {
      assert Active(s'.workers[wake.value]);
    } else {
      assert Active(s'.workers[0]);
    }
  }

  lemma KeepsTracked(bound: nat, s: Pool, step: Step)
    requires Enabled(s, step) && Holds(bound, s)
    ensures Tracked(Apply(bound, s, step))
  {
    var s' := Apply(bound, s, step);
    forall c | c in s'.jobs
      ensures s'.jobs[c] in s'.queue || Held(s', s'.jobs[c]) || (s'.jobs[c] < |s'.onces| && s'.onces[s'.jobs[c]].Done?)
    {
      if c in s.jobs && s.jobs[c] == s'.jobs[c] {
        StaysTracked(bound, s, step, s.jobs[c]);
      }
    }
  }

  lemma StaysTracked(bound: nat, s: Pool, step: Step, j: nat)
    requires Enabled(s, step) && Holds(bound, s) && (step.Stop? ==> !s.created)
    requires j < |s.log| && s.log[j].cfg in s.jobs && s.jobs[s.log[j].cfg] == j
    ensures var s' := Apply(bound, s, step); j in s'.queue || Held(s', j) || (j < |s'.onces| && s'.onces[j].Done?)
  {
    if j in s.queue {
      StaysQueued(bound, s, step, j);
    } else if Held(s, j) && !s.onces[j].Done? {
      var w :| 0 <= w < |s.workers| && s.workers[w] == Holding(j);
      StaysHeld(bound, s, step, w, j);
    }
  }

  /** A queued job stays queued, or the worker that pops it holds it. */
  lemma StaysQueued(bound: nat, s: Pool, step: Step, j: nat)
    requires Enabled(s, step) && Holds(bound, s) && (step.Stop? ==> !s.created) && j in s.queue
    requires j < |s.log| && s.log[j].cfg in s.jobs && s.jobs[s.log[j].cfg] == j
    ensures var s' := Apply(bound, s, step); j in s'.queue || Held(s', j)
  {
    var s' := Apply(bound, s, step);
    if step.Loop? && !s.stopped {
      assert s'.workers[step.worker] == Holding(j) || j in s.queue[1..];
    }
  }

  lemma StaysHeld(bound: nat, s: Pool, step: Step, w: nat, j: nat)
    requires Enabled(s, step) && j < |s.onces| && !s.onces[j].Done? && w < |s.workers| && s.workers[w] == Holding(j)
    ensures Held(Apply(bound, s, step), j)
  {
    assert Apply(bound, s, step).workers[w] == Holding(j);
  }

  lemma KeepsSound(bound: nat, s: Pool, step: Step)
    requires Enabled(s, step) && Sound(bound, s) && bound > 0
    ensures Sound(bound, Apply(bound, s, step))
  {
    Inspect(bound, s);
    KeepsIndexed(bound, s, step);
    KeepsGuarded(bound, s, step);
    KeepsStaffed(bound, s, step);
    KeepsTracked(bound, s, step);
    MakesSound(bound, Apply(bound, s, step));
  }

  lemma StepTo(bound: nat, run: seq<Pool>, i: nat) returns (step: Step)
    requires Run(bound, run) && 0 < i < |run|
    ensures Enabled(run[i - 1], step) && run[i] == Apply(bound, run[i - 1], step)
  {
    var k := i - 1;
    var s, s' := run[k], run[k + 1];
    assert Steps(bound, run[k], run[k + 1]);
    step :| Enabled(s, step) && s' == Apply(bound, s, step);
  }

  lemma {:induction false} RunSound(bound: nat, run: seq<Pool>, i: nat)
    requires Run(bound, run) && bound > 0 && i < |run|
    ensures Sound(bound, run[i])
  {
    if i > 0 {
      RunSound(bound, run, i - 1);
      var step := StepTo(bound, run, i);
      KeepsSound(bound, run[i - 1], step);
    } else {
      assert Inspects(run[0]);
      MakesSound(bound, run[0]);
    }
  }

  // ---- What every run promises ----

  /** Each config is queued at most once, each job popped at most once, and each listing run at most once. */
  lemma EachOnce(bound: nat, run: seq<Pool>, i: nat)
    requires Run(bound, run) && bound > 0 && i < |run|
    ensures forall j, k :: 0 <= j < k < |run[i].log| ==> run[i].log[j].cfg != run[i].log[k].cfg
    ensures NoneTwice(run[i].popped + run[i].queue) && NoneTwice(run[i].begun)
  {
    RunSound(bound, run, i);
    Inspect(bound, run[i]);
  }

  /** Whichever thread ran it, a listing returns what listing directly returns, beside no projection. */
  lemma ReturnsDirectListing(bound: nat, run: seq<Pool>, i: nat)
    requires Run(bound, run) && bound > 0 && i < |run|
    ensures forall r :: r in run[i].returned ==> r.1 == Listed(r.0, {})
  {
    RunSound(bound, run, i);
    Inspect(bound, run[i]);
  }

  lemma NoListingBesideProjection(bound: nat, run: seq<Pool>, i: nat)
    requires Run(bound, run) && bound > 0 && i < |run|
    ensures run[i].projections != {} ==> forall j :: 0 <= j < |run[i].onces| ==> !run[i].onces[j].Reading?
  {
    RunSound(bound, run, i);
    Inspect(bound, run[i]);
  }

  /** Queued work before the stop has a worker that will take it, and workers stay within the bound. */
  lemma NoLostWakeup(bound: nat, run: seq<Pool>, i: nat)
    requires Run(bound, run) && bound > 0 && i < |run|
    ensures |run[i].workers| <= bound
    ensures run[i].queue != [] && !run[i].stopped ==> exists w :: 0 <= w < |run[i].workers| && Active(run[i].workers[w])
  {
    RunSound(bound, run, i);
    Inspect(bound, run[i]);
  }

  /** After the stop nothing is popped, queued or handed out again. */
  lemma {:induction false} NothingAfterStop(bound: nat, run: seq<Pool>, i: nat, k: nat)
    requires Run(bound, run) && bound > 0 && i <= k < |run| && run[i].stopped
    ensures run[k].stopped && run[k].queue == [] && run[k].jobs == map[]
    ensures run[k].log == run[i].log && run[k].popped == run[i].popped
  {
    if i < k {
      NothingAfterStop(bound, run, i, k - 1);
      RunSound(bound, run, k - 1);
      Inspect(bound, run[k - 1]);
      var step := StepTo(bound, run, k);
    }
    RunSound(bound, run, k);
    Inspect(bound, run[k]);
  }

  // ---- Progress ----

  /** A step no call of the main thread starts. */
  predicate Internal(step: Step) {
    !step.Call? && !step.Take? && !step.Lock? && !step.Stop?
  }

  ghost predicate CanProgress(s: Pool) {
    exists step :: Internal(step) && Enabled(s, step)
  }

  ghost predicate Quiet(s: Pool) {
    && s.main.Idle?
    && forall w :: 0 <= w < |s.workers| ==> s.workers[w].Waiting? || s.workers[w].Exited?
  }

  lemma JobProgresses(bound: nat, s: Pool, t: Thread, j: nat)
    requires Holds(bound, s) && At(s, t, j) && !s.main.Locking? && !s.main.Projecting?
    ensures CanProgress(s)
  {
    match s.onces[j]
    case Unrun => assert Enabled(s, Claim(t, j));
    case Claimed(u) => assert Enabled(s, Read(u, j));
    case Reading(u, _) => assert Enabled(s, Finish(u, j, false));
    case Done(_) => assert Enabled(s, Leave(t, j));
  }

  /** No deadlock: as long as any thread has something left to do, some thread can do it. */
  lemma NeverStuck(bound: nat, run: seq<Pool>, i: nat)
    requires Run(bound, run) && bound > 0 && i < |run|
    ensures CanProgress(run[i]) <==> !Quiet(run[i])
  {
    RunSound(bound, run, i);
    Inspect(bound, run[i]);
    StuckOnlyQuiet(bound, run[i]);
  }

  lemma StuckOnlyQuiet(bound: nat, s: Pool)
    requires Holds(bound, s)
    ensures CanProgress(s) <==> !Quiet(s)
  {
    if !Quiet(s) {
      match s.main
      case Taking(_, j) => JobProgresses(bound, s, Main, j);
      case Listing(_, _) => assert Enabled(s, EndListing);
      case Projecting => assert Enabled(s, Unproject);
      case Locking(_) =>
        if j :| 0 <= j < |s.onces| && s.onces[j].Reading? {
          assert Enabled(s, Finish(s.onces[j].thread, j, false));
        } else {
          assert Enabled(s, Project);
        }
      case Idle =>
        var w: nat :| w < |s.workers| && !s.workers[w].Waiting? && !s.workers[w].Exited?;
        if s.workers[w].Holding? {
          JobProgresses(bound, s, Worker(w), s.workers[w].job);
        } else {
          assert Enabled(s, Loop(w));
        }
    } else {
      forall step | Internal(step)
        ensures !Enabled(s, step)
      {
      }
    }
  }

  function Weight(o: Once): nat {
    match o
    case Unrun => 3
    case Claimed(_) => 2
    case Reading(_, _) => 1
    case Done(_) => 0
  }

  function Load(at: WorkerAt): nat {
    match at
    case Ready => 1
    case Signalled => 1
    case Holding(_) => 2
    case Waiting => 0
    case Exited => 0
  }

  function Weights(onces: seq<Once>): nat {
    if onces == [] then 0 else Weight(onces[0]) + Weights(onces[1..])
  }

  function Loads(workers: seq<WorkerAt>): nat {
    if workers == [] then 0 else Load(workers[0]) + Loads(workers[1..])
  }

  function Busy(at: MainAt): nat {
    match at
    case Idle => 0
    case Taking(_, _) => 1
    case Listing(_, _) => 1
    case Locking(_) => 2
    case Projecting => 1
  }

  /** How much every thread has left to do before all are quiet. */
  function Remaining(s: Pool): nat {
    2 * |s.queue| + Weights(s.onces) + Loads(s.workers) + Busy(s.main)
  }

  lemma {:induction false} WeightsUpdate(onces: seq<Once>, j: nat, o: Once)
    requires j < |onces|
    ensures Weights(onces[j := o]) + Weight(onces[j]) == Weights(onces) + Weight(o)
  {
    var onces' := onces[j := o];
    if j == 0 {
      assert onces'[1..] == onces[1..];
    } else {
      assert onces'[1..] == onces[1..][j - 1 := o];
      WeightsUpdate(onces[1..], j - 1, o);
    }
  }

  lemma {:induction false} LoadsUpdate(workers: seq<WorkerAt>, w: nat, at: WorkerAt)
    requires w < |workers|
    ensures Loads(workers[w := at]) + Load(workers[w]) == Loads(workers) + Load(at)
  {
    var workers' := workers[w := at];
    if w == 0 {
      assert workers'[1..] == workers[1..];
    } else {
      assert workers'[1..] == workers[1..][w - 1 := at];
      LoadsUpdate(workers[1..], w - 1, at);
    }
  }

  lemma {:induction false} WeightsSame(onces: seq<Once>, onces': seq<Once>)
    requires |onces| == |onces'| && forall j :: 0 <= j < |onces| ==> Weight(onces[j]) == Weight(onces'[j])
    ensures Weights(onces) == Weights(onces')
  {
    if onces != [] {
      WeightsSame(onces[1..], onces'[1..]);
    }
  }

  lemma LoopRunsOut(bound: nat, s: Pool, w: nat)
    requires Holds(bound, s) && Enabled(s, Loop(w))
    ensures Remaining(Apply(bound, s, Loop(w))) < Remaining(s)
  {
    LoadsUpdate(s.workers, w, Looped(s, w).workers[w]);
  }

  /** Left alone, the pool goes quiet: every step of the threads' own brings it nearer. */
  lemma StepsRunOut(bound: nat, run: seq<Pool>, i: nat, step: Step)
    requires Run(bound, run) && bound > 0 && i < |run| && Internal(step) && Enabled(run[i], step)
    ensures Remaining(Apply(bound, run[i], step)) < Remaining(run[i])
  {
    RunSound(bound, run, i);
    Inspect(bound, run[i]);
    StepRunsOut(bound, run[i], step);
  }

  lemma StepRunsOut(bound: nat, s: Pool, step: Step)
    requires Holds(bound, s) && Internal(step) && Enabled(s, step)
    ensures Remaining(Apply(bound, s, step)) < Remaining(s)
  {
    var s' := Apply(bound, s, step);
    match step
    case Loop(w) => LoopRunsOut(bound, s, w);
    case Claim(t, j) => WeightsUpdate(s.onces, j, s'.onces[j]);
    case Read(t, j) => WeightsUpdate(s.onces, j, s'.onces[j]);
    case Finish(t, j, _) => WeightsUpdate(s.onces, j, s'.onces[j]);
    case Leave(t, j) =>
      if t.Worker? {
        LoadsUpdate(s.workers, t.id, Ready);
      }
    case Project => WeightsSame(s.onces, s'.onces);
    case _ =>
  }

  /** A quiet pool has run every listing it still offers, and reads nothing. */
  lemma QuietHasRun(bound: nat, run: seq<Pool>, i: nat)
    requires Run(bound, run) && bound > 0 && i < |run| && Quiet(run[i])
    ensures run[i].queue == []
    ensures forall c :: c in run[i].jobs ==> HasRun(run[i], run[i].jobs[c])
    ensures forall j :: 0 <= j < |run[i].onces| ==> run[i].onces[j].Unrun? || run[i].onces[j].Done?
  {
    RunSound(bound, run, i);
    Inspect(bound, run[i]);
    var s := run[i];
    assert forall w :: 0 <= w < |s.workers| ==> !Active(s.workers[w]);
    forall t, j
      ensures !At(s, t, j)
    {
    }
  }

  /** The job's listing ran to the end, beside no projection. */
  predicate HasRun(s: Pool, j: nat) {
    j < |s.onces| && j < |s.log| && s.onces[j] == Done(Listed(s.log[j], {}))
  }
}
