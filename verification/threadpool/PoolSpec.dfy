/** The worker pool as a state machine whose steps are the sections that hold
    the mutex (core/src/threadpool.cpp).  Wait sets and program counters are
    explicit; an Action names the step and resolves every choice the scheduler,
    the condition variables and the jobs themselves may make. */
module PoolSpec {
  import opened Options

  /** Where a worker is in loop(). */
  datatype Worker =
    | Idle                    // about to take the mutex and test the queue
    | Asleep                  // in the wait set of job_cv_
    | Running(job: nat)       // executing the job, no lock held
    | Recording(job: nat)     // the job threw, first_error_ not yet looked at
    | Finishing(job: nat)     // about to decrement outstanding_
    | Exited

  /** Where the one thread that starts and stops the pool is. */
  datatype Control =
    | Stopped
    | Spawning(left: nat)     // terminate_ cleared, threads still to create
    | Started
    | Stopping                // terminate_ set, job_cv_ not yet notified
    | Joining                 // notified, waiting for the workers to exit
    | Joined                  // threads_ cleared, state not yet reset

  datatype Waiting = Checking | Blocked | Returned(error: Option<nat>)

  /** A call of wait(); `since` is how many jobs had been enqueued when it began. */
  datatype Waiter = Waiter(since: nat, at: Waiting)

  /** What became of a job: who runs it, whether it threw and whether its
      exception was looked at, or that it was thrown away by stop(). */
  datatype Fate =
    | Queued
    | Held(holder: nat)
    | Threw(holder: nat)
    | Ending(holder: nat, failed: bool)
    | Done(failed: bool)
    | Dropped

  /** Jobs are numbered in the order they were enqueued; `fate` has one entry
      for each.  The last four fields are history, read by no step. */
  datatype Pool = Pool(
    jobs: seq<nat>,
    outstanding: int,
    terminate: bool,
    poll: bool,
    firstError: Option<nat>,
    workers: seq<Worker>,
    waiters: seq<Waiter>,
    notifies: nat,            // enqueues that have not reached notify_one
    control: Control,
    fate: seq<Fate>,
    taken: seq<nat>,          // jobs in the order workers took them
    thrown: seq<nat>,         // jobs whose exception was looked at, in order
    reported: nat)            // |thrown| when an error was last rethrown

  datatype Action =
    | Start(threads: nat, spin: bool) | Spawn
    | Stop | NotifyAll | Join | Reset
    | Enqueue(caller: Option<nat>) | NotifyOne(wake: nat)
    | Wait | CheckWait(waiter: nat)
    | Test(worker: nat) | EndJob(worker: nat, throws: bool) | Record(worker: nat) | Finish(worker: nat)
    | WakeWorker(worker: nat) | WakeWaiter(waiter: nat)

  const FRESH := Pool([], 0, false, false, None, [], [], 0, Stopped, [], [], [], 0)

  predicate At(s: Pool, w: nat) { w < |s.workers| }

  /** When the step can be taken.  A job may itself enqueue while it runs. */
  predicate Enabled(s: Pool, a: Action) {
    match a
    case Start(_, _) => s.control.Stopped? || s.control.Started?
    case Spawn => s.control.Spawning? && s.control.left > 0
    case Stop => s.control.Stopped? || s.control.Started?
    case NotifyAll => s.control.Stopping?
    case Join => s.control.Joining? && AllExited(s)
    case Reset => s.control.Joined?
    case Enqueue(caller) => caller.Some? ==> At(s, caller.value) && s.workers[caller.value].Running?
    case NotifyOne(w) => s.notifies > 0 && ((At(s, w) && s.workers[w].Asleep?) || NoneAsleep(s))
    case Wait => true
    case CheckWait(i) => i < |s.waiters| && s.waiters[i].at.Checking?
    case Test(w) => At(s, w) && s.workers[w].Idle?
    case EndJob(w, _) => At(s, w) && s.workers[w].Running?
    case Record(w) => At(s, w) && s.workers[w].Recording?
    case Finish(w) => At(s, w) && s.workers[w].Finishing?
    case WakeWorker(w) => At(s, w) && s.workers[w].Asleep?
    case WakeWaiter(i) => i < |s.waiters| && s.waiters[i].at.Blocked?
  }

  predicate AllExited(s: Pool) { forall w :: 0 <= w < |s.workers| ==> s.workers[w].Exited? }

  predicate NoneAsleep(s: Pool) { forall w :: 0 <= w < |s.workers| ==> !s.workers[w].Asleep? }

  function WakeAll(workers: seq<Worker>): (r: seq<Worker>)
    ensures |r| == |workers|
    ensures forall w :: 0 <= w < |r| ==> r[w] == if workers[w].Asleep? then Idle else workers[w]
  {
    seq(|workers|, w requires 0 <= w < |workers| => if workers[w].Asleep? then Idle else workers[w])
  }

  function Unblock(waiters: seq<Waiter>): (r: seq<Waiter>)
    ensures |r| == |waiters|
    ensures forall i :: 0 <= i < |r| ==>
      r[i] == if waiters[i].at.Blocked? then waiters[i].(at := Checking) else waiters[i]
  {
    seq(|waiters|, i requires 0 <= i < |waiters| =>
      if waiters[i].at.Blocked? then waiters[i].(at := Checking) else waiters[i])
  }

  function DropQueued(fate: seq<Fate>): (r: seq<Fate>)
    ensures |r| == |fate|
    ensures forall j :: 0 <= j < |r| ==> r[j] == if fate[j].Queued? then Dropped else fate[j]
  {
    seq(|fate|, j requires 0 <= j < |fate| => if fate[j].Queued? then Dropped else fate[j])
  }

  function Mark(fate: seq<Fate>, j: nat, f: Fate): seq<Fate> { if j < |fate| then fate[j := f] else fate }

  function Ended(fate: seq<Fate>, j: nat): seq<Fate> {
    if j < |fate| && fate[j].Ending? then fate[j := Done(fate[j].failed)] else fate
  }

  function Update(s: Pool, w: nat, p: Worker): Pool
    requires At(s, w)
  {
    s.(workers := s.workers[w := p])
  }

  /** What a step does. */
  function Apply(s: Pool, a: Action): Pool
    requires Enabled(s, a)
  {
    match a
    case Start(n, spin) =>
      if s.workers != [] || n == 0 then s
      else s.(terminate := false, poll := spin, control := Spawning(n))
    case Spawn =>
      s.(workers := s.workers + [Idle],
         control := if s.control.left == 1 then Started else Spawning(s.control.left - 1))
    case Stop =>
      if s.workers == [] then s else s.(terminate := true, control := Stopping)
    case NotifyAll => s.(workers := WakeAll(s.workers), control := Joining)
    case Join => s.(workers := [], control := Joined)
    case Reset =>
      s.(jobs := [], outstanding := 0, terminate := false, control := Stopped, fate := DropQueued(s.fate))
    case Enqueue(_) =>
      s.(jobs := s.jobs + [|s.fate|], outstanding := s.outstanding + 1, notifies := s.notifies + 1,
         fate := s.fate + [Queued])
    case NotifyOne(w) =>
      var rest := s.(notifies := s.notifies - 1);
      if At(s, w) && s.workers[w].Asleep? then Update(rest, w, Idle) else rest
    case Wait => s.(waiters := s.waiters + [Waiter(|s.fate|, Checking)])
    case CheckWait(i) =>
      if s.outstanding != 0 then s.(waiters := s.waiters[i := s.waiters[i].(at := Blocked)])
      else s.(waiters := s.waiters[i := s.waiters[i].(at := Returned(s.firstError))],
              firstError := None, reported := |s.thrown|)
    case Test(w) =>
      if s.jobs != [] then
        Update(s, w, Running(s.jobs[0])).(
          jobs := s.jobs[1..], taken := s.taken + [s.jobs[0]], fate := Mark(s.fate, s.jobs[0], Held(w)))
      else if s.terminate then Update(s, w, Exited)
      else if s.poll then s
      else Update(s, w, Asleep)
    case EndJob(w, throws) =>
      var job := s.workers[w].job;
      Update(s, w, if throws then Recording(job) else Finishing(job)).(
        fate := Mark(s.fate, job, if throws then Threw(w) else Ending(w, false)))
    case Record(w) =>
      var job := s.workers[w].job;
      Update(s, w, Finishing(job)).(
        firstError := if s.firstError.None? then Some(job) else s.firstError,
        fate := Mark(s.fate, job, Ending(w, true)), thrown := s.thrown + [job])
    case Finish(w) =>
      Update(s, w, Idle).(
        outstanding := s.outstanding - 1, fate := Ended(s.fate, s.workers[w].job),
        waiters := if s.outstanding == 1 then Unblock(s.waiters) else s.waiters)
    case WakeWorker(w) => Update(s, w, Idle)
    case WakeWaiter(i) => s.(waiters := s.waiters[i := s.waiters[i].(at := Checking)])
  }

  // ---- sums over the workers ------------------------------------------------

  function Total(workers: seq<Worker>, f: Worker -> nat): nat {
    if workers == [] then 0 else Total(workers[..|workers| - 1], f) + f(workers[|workers| - 1])
  }

  function Busy(p: Worker): nat { if p.Running? || p.Recording? || p.Finishing? then 1 else 0 }
  function Tests(p: Worker): nat { if p.Idle? then 1 else 0 }
  function Sleeps(p: Worker): nat { if p.Asleep? then 1 else 0 }

  lemma {:induction false} TotalSet(workers: seq<Worker>, f: Worker -> nat, w: nat, p: Worker)
    requires w < |workers|
    ensures Total(workers[w := p], f) + f(workers[w]) == Total(workers, f) + f(p)
  {
    var n := |workers| - 1;
    var after := workers[w := p];
    if w == n {
      assert after[..n] == workers[..n];
    } else {
      assert after[..n] == workers[..n][w := p];
      TotalSet(workers[..n], f, w, p);
    }
  }

  lemma {:induction false} TotalAdd(workers: seq<Worker>, f: Worker -> nat, p: Worker)
    ensures Total(workers + [p], f) == Total(workers, f) + f(p)
  {
    assert (workers + [p])[..|workers|] == workers;
  }

  lemma {:induction false} TotalAtLeast(workers: seq<Worker>, f: Worker -> nat, w: nat)
    requires w < |workers|
    ensures Total(workers, f) >= f(workers[w])
  {
    if w < |workers| - 1 { TotalAtLeast(workers[..|workers| - 1], f, w); }
  }

  lemma {:induction false} TotalZero(workers: seq<Worker>, f: Worker -> nat)
    requires forall w :: 0 <= w < |workers| ==> f(workers[w]) == 0
    ensures Total(workers, f) == 0
  {
    if workers != [] { TotalZero(workers[..|workers| - 1], f); }
  }

  lemma {:induction false} TotalSame(a: seq<Worker>, b: seq<Worker>, f: Worker -> nat)
    requires |a| == |b| && forall w :: 0 <= w < |a| ==> f(a[w]) == f(b[w])
    ensures Total(a, f) == Total(b, f)
  {
    if a != [] { TotalSame(a[..|a| - 1], b[..|b| - 1], f); }
  }

  // ---- the invariant ---------------------------------------------------------

  /** outstanding_ counts exactly the queued and the in-flight jobs. */
  predicate Counted(s: Pool) { s.outstanding == |s.jobs| + Total(s.workers, Busy) }

  /** The fate of a job agrees with the worker that has it. */
  predicate Matches(f: Fate, w: nat, p: Worker) {
    match p
    case Running(_) => f == Held(w)
    case Recording(_) => f == Threw(w)
    case Finishing(_) => f.Ending? && f.holder == w
    case _ => false
  }

  predicate InFlight(f: Fate) { f.Held? || f.Threw? || f.Ending? }

  /** Queued jobs are the latest, in order; each job in flight is at exactly the
      worker its fate names. */
  predicate Placed(s: Pool) {
    && |s.jobs| <= |s.fate|
    && (forall k :: 0 <= k < |s.jobs| ==> s.jobs[k] == |s.fate| - |s.jobs| + k)
    && (forall j :: 0 <= j < |s.fate| ==> (s.fate[j].Queued? <==> j >= |s.fate| - |s.jobs|))
    && (forall j :: 0 <= j < |s.fate| && InFlight(s.fate[j]) ==>
          At(s, s.fate[j].holder) && Busy(s.workers[s.fate[j].holder]) == 1 && s.workers[s.fate[j].holder].job == j)
    && (forall w :: 0 <= w < |s.workers| && Busy(s.workers[w]) == 1 ==>
          s.workers[w].job < |s.fate| && Matches(s.fate[s.workers[w].job], w, s.workers[w]))
  }

  /** The jobs that were not dropped, oldest first. */
  function Kept(fate: seq<Fate>): seq<nat> {
    if fate == [] then []
    else
      var n := |fate| - 1;
      Kept(fate[..n]) + if fate[n].Dropped? then [] else [n]
  }

  /** Workers took the jobs in the order they were enqueued, each once. */
  predicate InOrder(s: Pool) { s.taken + s.jobs == Kept(s.fate) }

  /** With somebody asleep, every queued job has its own wake-up on the way. */
  predicate Signalled(s: Pool) {
    Total(s.workers, Sleeps) > 0 ==> |s.jobs| <= s.notifies + Total(s.workers, Tests)
  }

  predicate Controlled(s: Pool) {
    && (s.control.Stopped? || s.control.Joined? ==> s.workers == [])
    && (s.control.Started? || s.control.Stopping? || s.control.Joining? ==> s.workers != [])
    && (s.control.Spawning? ==> s.control.left > 0)
    && (s.terminate <==> s.control.Stopping? || s.control.Joining? || s.control.Joined?)
    && (forall w :: 0 <= w < |s.workers| && s.workers[w].Exited? ==> s.terminate)
    && (s.control.Joining? ==> NoneAsleep(s))
  }

  predicate Settled(f: Fate) { f.Done? || f.Dropped? }

  predicate Barrier(s: Pool) {
    && (forall i :: 0 <= i < |s.waiters| ==> s.waiters[i].since <= |s.fate|)
    && (forall i, j :: 0 <= i < |s.waiters| && s.waiters[i].at.Returned? && 0 <= j < s.waiters[i].since ==>
          Settled(s.fate[j]))
    && (s.outstanding == 0 && (exists i :: 0 <= i < |s.waiters| && s.waiters[i].at.Blocked?) ==>
          exists j :: 0 <= j < |s.fate| && s.fate[j].Dropped?)
  }

  predicate Distinct(q: seq<nat>) { forall i, j :: 0 <= i < j < |q| ==> q[i] != q[j] }

  /** The exception of the job was looked at by its worker. */
  predicate Recorded(f: Fate) { (f.Ending? || f.Done?) && f.failed }

  /** first_error_ is the first exception looked at since the last report. */
  predicate Errors(s: Pool) {
    && s.reported <= |s.thrown|
    && s.firstError == (if s.reported == |s.thrown| then None else Some(s.thrown[s.reported]))
    && Distinct(s.thrown)
    && (forall k :: 0 <= k < |s.thrown| ==> s.thrown[k] < |s.fate| && Recorded(s.fate[s.thrown[k]]))
    && (forall j :: 0 <= j < |s.fate| && Recorded(s.fate[j]) ==> j in s.thrown)
  }

  predicate Failed(w: Waiter) { w.at.Returned? && w.at.error.Some? }

  /** No exception is rethrown by two calls of wait(). */
  predicate Rethrown(s: Pool) {
    && s.reported <= |s.thrown|
    && (forall i :: 0 <= i < |s.waiters| && Failed(s.waiters[i]) ==>
          s.waiters[i].at.error.value in s.thrown[..s.reported])
    && (forall i, j :: 0 <= i < j < |s.waiters| && Failed(s.waiters[i]) && Failed(s.waiters[j]) ==>
          s.waiters[i].at.error != s.waiters[j].at.error)
  }

  predicate Inv(s: Pool) {
    Counted(s) && Placed(s) && InOrder(s) && Signalled(s) && Controlled(s) && Barrier(s) && Errors(s) && Rethrown(s)
  }

  /** The decrement in loop() never wraps. */
  lemma {:induction false} BusyIsOutstanding(s: Pool, w: nat)
    requires Inv(s) && At(s, w) && Busy(s.workers[w]) == 1
    ensures s.outstanding > 0 && s.workers[w].job < |s.fate|
  {
    TotalAtLeast(s.workers, Busy, w);
  }

  // ---- every step keeps it ----------------------------------------------------

  lemma {:induction false} CountedKept(s: Pool, a: Action)
    requires Counted(s) && Controlled(s) && Enabled(s, a)
    ensures Counted(Apply(s, a))
  {
    match a
    case Spawn => TotalAdd(s.workers, Busy, Idle);
    case NotifyAll => TotalSame(s.workers, WakeAll(s.workers), Busy);
    case Join => TotalZero(s.workers, Busy);
    case NotifyOne(w) => if At(s, w) { TotalSet(s.workers, Busy, w, Idle); }
    case Test(w) =>
      TotalSet(s.workers, Busy, w, Exited);
      TotalSet(s.workers, Busy, w, Asleep);
      if s.jobs != [] { TotalSet(s.workers, Busy, w, Running(s.jobs[0])); }
    case EndJob(w, throws) =>
      TotalSet(s.workers, Busy, w, Recording(s.workers[w].job));
      TotalSet(s.workers, Busy, w, Finishing(s.workers[w].job));
    case Record(w) => TotalSet(s.workers, Busy, w, Finishing(s.workers[w].job));
    case Finish(w) => TotalSet(s.workers, Busy, w, Idle);
    case WakeWorker(w) => TotalSet(s.workers, Busy, w, Idle);
    case _ =>
  }

  predicate WorkerStep(a: Action) { a.Test? || a.EndJob? || a.Record? || a.Finish? }

  predicate QueueStep(a: Action) { a.Enqueue? || a.Reset? }

  lemma {:induction false} PlacedByQueue(s: Pool, a: Action)
    requires Placed(s) && Controlled(s) && Enabled(s, a) && QueueStep(a)
    ensures Placed(Apply(s, a))
  {
  }

  /** Who is busy with what stays the same. */
  predicate SameWork(s: Pool, t: Pool) {
    && t.jobs == s.jobs && t.fate == s.fate
    && (forall w :: 0 <= w < |s.workers| && Busy(s.workers[w]) == 1 ==> At(t, w) && t.workers[w] == s.workers[w])
    && (forall w :: 0 <= w < |t.workers| && Busy(t.workers[w]) == 1 ==> At(s, w) && t.workers[w] == s.workers[w])
  }

  lemma {:induction false} PlacedBySameWork(s: Pool, t: Pool)
    requires Placed(s) && SameWork(s, t)
    ensures Placed(t)
  {
  }

  lemma {:induction false} OthersKeepWork(s: Pool, a: Action)
    requires Enabled(s, a) && !WorkerStep(a) && !QueueStep(a)
    ensures SameWork(s, Apply(s, a))
  {
  }

  lemma {:induction false} PlacedByTest(s: Pool, a: Action)
    requires Placed(s) && Enabled(s, a) && a.Test?
    ensures Placed(Apply(s, a))
  {
  }

  lemma {:induction false} PlacedByEnd(s: Pool, a: Action)
    requires Placed(s) && Enabled(s, a) && a.EndJob?
    ensures Placed(Apply(s, a))
  {
  }

  lemma {:induction false} PlacedByRecord(s: Pool, a: Action)
    requires Placed(s) && Enabled(s, a) && a.Record?
    ensures Placed(Apply(s, a))
  {
  }

  lemma {:induction false} PlacedByFinish(s: Pool, a: Action)
    requires Placed(s) && Enabled(s, a) && a.Finish?
    ensures Placed(Apply(s, a))
  {
  }

  lemma {:induction false} PlacedKept(s: Pool, a: Action)
    requires Placed(s) && Controlled(s) && Enabled(s, a)
    ensures Placed(Apply(s, a))
  {
    if a.Test? {
      PlacedByTest(s, a);
    } else if a.Finish? {
      PlacedByFinish(s, a);
    } else if a.EndJob? {
      PlacedByEnd(s, a);
    } else if a.Record? {
      PlacedByRecord(s, a);
    } else if QueueStep(a) {
      PlacedByQueue(s, a);
    } else {
      OthersKeepWork(s, a);
      PlacedBySameWork(s, Apply(s, a));
    }
  }

  lemma {:induction false} KeptSet(fate: seq<Fate>, j: nat, f: Fate)
    requires j < |fate| && !fate[j].Dropped? && !f.Dropped?
    ensures Kept(fate[j := f]) == Kept(fate)
  {
    var n := |fate| - 1;
    var after := fate[j := f];
    if j == n {
      assert after[..n] == fate[..n];
    } else {
      assert after[..n] == fate[..n][j := f];
      KeptSet(fate[..n], j, f);
    }
  }

  /** Dropping the queue leaves exactly the jobs that were taken. */
  lemma {:induction false} KeptDropped(fate: seq<Fate>, jobs: seq<nat>, taken: seq<nat>)
    requires |jobs| <= |fate| && taken + jobs == Kept(fate)
    requires forall j :: 0 <= j < |fate| ==> (fate[j].Queued? <==> j >= |fate| - |jobs|)
    ensures Kept(DropQueued(fate)) == taken
  {
    var n := |fate| - 1;
    var after := DropQueued(fate);
    if jobs == [] {
      assert after == fate;
      assert taken + jobs == taken;
    } else {
      assert after[..n] == DropQueued(fate[..n]);
      var m := |jobs| - 1;
      assert taken + jobs == (taken + jobs[..m]) + [jobs[m]];
      assert Kept(fate) == Kept(fate[..n]) + [n];
      assert (taken + jobs)[..|taken| + m] == Kept(fate[..n]);
      assert taken + jobs[..m] == Kept(fate[..n]);
      KeptDropped(fate[..n], jobs[..m], taken);
    }
  }

  lemma {:induction false} InOrderByReset(s: Pool, a: Action)
    requires Placed(s) && InOrder(s) && Enabled(s, a) && a.Reset?
    ensures InOrder(Apply(s, a))
  {
    KeptDropped(s.fate, s.jobs, s.taken);
    assert s.taken + [] == s.taken;
  }

  lemma {:induction false} InOrderByEnqueue(s: Pool, a: Action)
    requires InOrder(s) && Enabled(s, a) && a.Enqueue?
    ensures InOrder(Apply(s, a))
  {
    assert (s.fate + [Queued])[..|s.fate|] == s.fate;
    assert s.taken + (s.jobs + [|s.fate|]) == (s.taken + s.jobs) + [|s.fate|];
  }

  lemma {:induction false} InOrderByTest(s: Pool, a: Action)
    requires Placed(s) && InOrder(s) && Enabled(s, a) && a.Test?
    ensures InOrder(Apply(s, a))
  {
    if s.jobs != [] {
      KeptSet(s.fate, s.jobs[0], Held(a.worker));
      assert s.jobs == [s.jobs[0]] + s.jobs[1..];
      assert (s.taken + [s.jobs[0]]) + s.jobs[1..] == s.taken + s.jobs;
    }
  }

  lemma {:induction false} InOrderKept(s: Pool, a: Action)
    requires Placed(s) && InOrder(s) && Enabled(s, a)
    ensures InOrder(Apply(s, a))
  {
    if a.Reset? {
      InOrderByReset(s, a);
    } else if a.Enqueue? {
      InOrderByEnqueue(s, a);
    } else if a.Test? {
      InOrderByTest(s, a);
    } else if WorkerStep(a) {
      var job := s.workers[a.worker].job;
      KeptSet(s.fate, job, Apply(s, a).fate[job]);
    }
  }

  lemma {:induction false} SignalledKept(s: Pool, a: Action)
    requires Signalled(s) && Enabled(s, a)
    ensures Signalled(Apply(s, a))
  {
    match a
    case Spawn =>
      TotalAdd(s.workers, Tests, Idle);
      TotalAdd(s.workers, Sleeps, Idle);
    case NotifyAll => TotalZero(WakeAll(s.workers), Sleeps);
    case NotifyOne(w) =>
      if At(s, w) && s.workers[w].Asleep? {
        TotalSet(s.workers, Tests, w, Idle);
        TotalSet(s.workers, Sleeps, w, Idle);
      } else {
        TotalZero(s.workers, Sleeps);
      }
    case Test(w) =>
      if s.jobs != [] {
        TotalSet(s.workers, Tests, w, Running(s.jobs[0]));
        TotalSet(s.workers, Sleeps, w, Running(s.jobs[0]));
      }
    case EndJob(w, throws) =>
      var job := s.workers[w].job;
      TotalSet(s.workers, Tests, w, Recording(job));
      TotalSet(s.workers, Sleeps, w, Recording(job));
      TotalSet(s.workers, Tests, w, Finishing(job));
      TotalSet(s.workers, Sleeps, w, Finishing(job));
    case Record(w) =>
      TotalSet(s.workers, Tests, w, Finishing(s.workers[w].job));
      TotalSet(s.workers, Sleeps, w, Finishing(s.workers[w].job));
    case Finish(w) =>
      TotalSet(s.workers, Tests, w, Idle);
      TotalSet(s.workers, Sleeps, w, Idle);
    case WakeWorker(w) =>
      TotalSet(s.workers, Tests, w, Idle);
      TotalSet(s.workers, Sleeps, w, Idle);
    case _ =>
  }

  lemma {:induction false} ControlledByWorker(s: Pool, a: Action)
    requires Controlled(s) && Enabled(s, a) && WorkerStep(a)
    ensures Controlled(Apply(s, a))
  {
  }

  lemma {:induction false} ControlledKept(s: Pool, a: Action)
    requires Controlled(s) && Enabled(s, a)
    ensures Controlled(Apply(s, a))
  {
    if WorkerStep(a) { ControlledByWorker(s, a); }
  }

  /** outstanding_ == 0 means that nothing is queued and nothing is running. */
  lemma {:induction false} ZeroIsSettled(s: Pool)
    requires Counted(s) && Placed(s) && s.outstanding == 0
    ensures forall j :: 0 <= j < |s.fate| ==> Settled(s.fate[j])
  {
    forall j | 0 <= j < |s.fate| ensures Settled(s.fate[j]) {
      if InFlight(s.fate[j]) { TotalAtLeast(s.workers, Busy, s.fate[j].holder); }
    }
  }

  /** A job only moves forward: it is taken at most once, ends at most once, and
      one that was dropped never runs. */
  predicate Follows(after: Fate, before: Fate) {
    match before
    case Queued => true
    case Held(w) => (InFlight(after) && after.holder == w) || after.Done?
    case Threw(w) => after == Threw(w) || after == Ending(w, true) || after == Done(true)
    case Ending(w, failed) => after == Ending(w, failed) || after == Done(failed)
    case Done(failed) => after == Done(failed)
    case Dropped => after == Dropped
  }

  predicate Advanced(before: seq<Fate>, after: seq<Fate>) {
    |before| <= |after| && forall j :: 0 <= j < |before| ==> Follows(after[j], before[j])
  }

  lemma {:induction false} WorkerAdvances(s: Pool, a: Action)
    requires Placed(s) && Enabled(s, a) && WorkerStep(a)
    ensures Advanced(s.fate, Apply(s, a).fate)
  {
  }

  lemma {:induction false} StepAdvances(s: Pool, a: Action)
    requires Placed(s) && Enabled(s, a)
    ensures Advanced(s.fate, Apply(s, a).fate)
  {
    if WorkerStep(a) { WorkerAdvances(s, a); }
  }

  lemma {:induction false} ReturnedStaySettled(s: Pool, a: Action)
    requires Counted(s) && Placed(s) && Barrier(s) && Enabled(s, a)
    ensures var t := Apply(s, a);
            forall i, j :: 0 <= i < |t.waiters| && t.waiters[i].at.Returned? && 0 <= j < t.waiters[i].since
              ==> j < |t.fate| && Settled(t.fate[j])
  {
    StepAdvances(s, a);
    if s.outstanding == 0 { ZeroIsSettled(s); }
  }

  /** A blocked waiter is woken by the step that brings outstanding_ to zero,
      unless that step is the reset in stop(). */
  lemma {:induction false} BlockedIsWoken(s: Pool, a: Action)
    requires Counted(s) && Placed(s) && Controlled(s) && Barrier(s) && Enabled(s, a)
    ensures var t := Apply(s, a);
            t.outstanding == 0 && (exists i :: 0 <= i < |t.waiters| && t.waiters[i].at.Blocked?) ==>
              exists j :: 0 <= j < |t.fate| && t.fate[j].Dropped?
  {
    StepAdvances(s, a);
    var t := Apply(s, a);
    if a.Reset? {
      assert Total(s.workers, Busy) == 0;
      if s.jobs != [] { assert t.fate[s.jobs[0]].Dropped?; }
    }
  }

  lemma {:induction false} BarrierKept(s: Pool, a: Action)
    requires Counted(s) && Placed(s) && Controlled(s) && Barrier(s) && Enabled(s, a)
    ensures Barrier(Apply(s, a))
  {
    StepAdvances(s, a);
    ReturnedStaySettled(s, a);
    BlockedIsWoken(s, a);
  }

  lemma {:induction false} ErrorsByRecord(s: Pool, a: Action)
    requires Placed(s) && Errors(s) && Enabled(s, a) && a.Record?
    ensures Errors(Apply(s, a))
  {
  }

  lemma {:induction false} ErrorsByWorker(s: Pool, a: Action)
    requires Placed(s) && Errors(s) && Enabled(s, a) && WorkerStep(a) && !a.Record?
    ensures Errors(Apply(s, a))
  {
    if a.Finish? { ErrorsByFinish(s, a); }
  }

  lemma {:induction false} ErrorsByFinish(s: Pool, a: Action)
    requires Placed(s) && Errors(s) && Enabled(s, a) && a.Finish?
    ensures Errors(Apply(s, a))
  {
    var t, job := Apply(s, a), s.workers[a.worker].job;
    assert Matches(s.fate[job], a.worker, s.workers[a.worker]);
    forall j | 0 <= j < |s.fate| ensures Recorded(t.fate[j]) <==> Recorded(s.fate[j]) {
    }
  }

  lemma {:induction false} ErrorsKept(s: Pool, a: Action)
    requires Placed(s) && Errors(s) && Enabled(s, a)
    ensures Errors(Apply(s, a))
  {
    if a.Record? {
      ErrorsByRecord(s, a);
    } else if WorkerStep(a) {
      ErrorsByWorker(s, a);
    }
  }

  lemma {:induction false} RethrownByCheck(s: Pool, a: Action)
    requires Errors(s) && Rethrown(s) && Enabled(s, a) && a.CheckWait?
    ensures Rethrown(Apply(s, a))
  {
    assert s.thrown[..|s.thrown|] == s.thrown;
    var t := Apply(s, a);
    var i := a.waiter;
    assert forall j :: 0 <= j < |t.waiters| && j != i ==> t.waiters[j] == s.waiters[j];
    if Failed(t.waiters[i]) { FreshError(s); }
  }

  /** The error about to be rethrown was not rethrown before. */
  lemma {:induction false} FreshError(s: Pool)
    requires Errors(s) && s.firstError.Some?
    ensures s.firstError.value in s.thrown && s.firstError.value !in s.thrown[..s.reported]
  {
  }

  lemma {:induction false} RethrownKept(s: Pool, a: Action)
    requires Errors(s) && Rethrown(s) && Enabled(s, a)
    ensures Rethrown(Apply(s, a))
  {
    if a.CheckWait? {
      RethrownByCheck(s, a);
    } else {
      var t := Apply(s, a);
      assert t.thrown[..s.reported] == s.thrown[..s.reported];
      assert forall i :: 0 <= i < |t.waiters| && Failed(t.waiters[i]) ==>
               i < |s.waiters| && t.waiters[i] == s.waiters[i];
    }
  }

  lemma {:induction false} StepKeepsInv(s: Pool, a: Action)
    requires Inv(s) && Enabled(s, a)
    ensures Inv(Apply(s, a))
  {
    CountedKept(s, a);
    PlacedKept(s, a);
    InOrderKept(s, a);
    SignalledKept(s, a);
    ControlledKept(s, a);
    BarrierKept(s, a);
    ErrorsKept(s, a);
    RethrownKept(s, a);
  }
}
