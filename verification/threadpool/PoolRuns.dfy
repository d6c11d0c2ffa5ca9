/** What holds over every run of the pool, however its steps interleave. */
module PoolRuns {
  import opened PoolSpec

  predicate Allowed(s: Pool, acts: seq<Action>)
    decreases |acts|
  {
    acts == [] || (Enabled(s, acts[0]) && Allowed(Apply(s, acts[0]), acts[1..]))
  }

  function Run(s: Pool, acts: seq<Action>): Pool
    requires Allowed(s, acts)
    decreases |acts|
  {
    if acts == [] then s else Run(Apply(s, acts[0]), acts[1..])
  }

  lemma {:induction false} FreshHolds()
    ensures Inv(FRESH)
  {
  }

  lemma {:induction false} RunKeepsInv(s: Pool, acts: seq<Action>)
    requires Inv(s) && Allowed(s, acts)
    ensures Inv(Run(s, acts))
    decreases |acts|
  {
    if acts != [] {
      StepKeepsInv(s, acts[0]);
      RunKeepsInv(Apply(s, acts[0]), acts[1..]);
    }
  }

  lemma {:induction false} AdvancedOnward(a: seq<Fate>, b: seq<Fate>, c: seq<Fate>)
    requires Advanced(a, b) && Advanced(b, c)
    ensures Advanced(a, c)
  {
    forall j | 0 <= j < |a| ensures Follows(c[j], a[j]) {
      assert Follows(b[j], a[j]) && Follows(c[j], b[j]);
    }
  }

  lemma {:induction false} RunAdvances(s: Pool, acts: seq<Action>)
    requires Inv(s) && Allowed(s, acts)
    ensures Advanced(s.fate, Run(s, acts).fate)
    decreases |acts|
  {
    if acts != [] {
      StepKeepsInv(s, acts[0]);
      var t := Apply(s, acts[0]);
      StepAdvances(s, acts[0]);
      RunAdvances(t, acts[1..]);
      AdvancedOnward(s.fate, t.fate, Run(t, acts[1..]).fate);
    }
  }

  // ---- the queue --------------------------------------------------------------

  /** Nothing that was enqueued is lost or taken twice: in every reachable state
      the jobs taken so far, then the queue, are the jobs that were not dropped,
      oldest first, so without drops the k-th job taken is job k; and outstanding_
      counts those that have not ended. */
  lemma {:induction false} FirstInFirstOut(acts: seq<Action>)
    requires Allowed(FRESH, acts)
    ensures var s := Run(FRESH, acts);
            && s.taken + s.jobs == Kept(s.fate) && s.outstanding == Unsettled(s.fate)
            && ((forall j :: 0 <= j < |s.fate| ==> !s.fate[j].Dropped?) ==>
                  forall k :: 0 <= k < |s.taken| ==> s.taken[k] == k)
  {
    FreshHolds();
    RunKeepsInv(FRESH, acts);
    var s := Run(FRESH, acts);
    OutstandingIsUnsettled(s);
    if forall j :: 0 <= j < |s.fate| ==> !s.fate[j].Dropped? {
      KeptIsAll(s.fate);
      assert forall k :: 0 <= k < |s.taken| ==> s.taken[k] == (s.taken + s.jobs)[k];
    }
  }

  function Unsettled(fate: seq<Fate>): nat {
    if fate == [] then 0
    else Unsettled(fate[..|fate| - 1]) + if Settled(fate[|fate| - 1]) then 0 else 1
  }

  function Flights(fate: seq<Fate>): set<nat> {
    set j: nat | j < |fate| && InFlight(fate[j])
  }

  /** The workers that hold a job. */
  function Holders(workers: seq<Worker>): set<nat> {
    set w: nat | w < |workers| && Busy(workers[w]) == 1
  }

  lemma {:induction false} BusyIsHolders(workers: seq<Worker>)
    ensures Total(workers, Busy) == |Holders(workers)|
  {
    if workers != [] {
      var n := |workers| - 1;
      BusyIsHolders(workers[..n]);
      if Busy(workers[n]) == 1 {
        assert Holders(workers) == Holders(workers[..n]) + {n};
      } else {
        assert Holders(workers) == Holders(workers[..n]);
      }
    }
  }

  lemma {:induction false} UnsettledIsQueuedAndFlights(fate: seq<Fate>, queued: nat)
    requires queued <= |fate|
    requires forall j :: 0 <= j < |fate| ==> (fate[j].Queued? <==> j >= |fate| - queued)
    ensures Unsettled(fate) == queued + |Flights(fate)|
  {
    if fate == [] {
      assert Flights(fate) == {};
    } else {
      var n := |fate| - 1;
      UnsettledIsQueuedAndFlights(fate[..n], if queued == 0 then 0 else queued - 1);
      if InFlight(fate[n]) {
        assert Flights(fate) == Flights(fate[..n]) + {n};
      } else {
        assert Flights(fate) == Flights(fate[..n]);
      }
    }
  }

  /** Sets in one-to-one correspondence have the same size. */
  lemma {:induction false} SameSize(jobs: set<nat>, workers: set<nat>, holder: map<nat, nat>)
    requires holder.Keys == jobs
    requires forall j :: j in jobs ==> holder[j] in workers
    requires forall i, j :: i in jobs && j in jobs && holder[i] == holder[j] ==> i == j
    requires forall w :: w in workers ==> exists j :: j in jobs && holder[j] == w
    ensures |jobs| == |workers|
  {
    if jobs == {} {
      assert workers == {};
    } else {
      var j :| j in jobs;
      var others, rest := jobs - {j}, workers - {holder[j]};
      var less := map i | i in others :: holder[i];
      forall w | w in rest ensures exists i :: i in others && less[i] == w {
        var i :| i in jobs && holder[i] == w;
        assert i in others && less[i] == w;
      }
      SameSize(others, rest, less);
    }
  }

  lemma {:induction false} OutstandingIsUnsettled(s: Pool)
    requires Counted(s) && Placed(s)
    ensures s.outstanding == Unsettled(s.fate)
  {
    UnsettledIsQueuedAndFlights(s.fate, |s.jobs|);
    BusyIsHolders(s.workers);
    var flights, holders := Flights(s.fate), Holders(s.workers);
    var holder := map j | j in flights :: s.fate[j].holder;
    forall w | w in holders ensures exists j :: j in flights && holder[j] == w {
      assert s.workers[w].job in flights && holder[s.workers[w].job] == w;
    }
    SameSize(flights, holders, holder);
  }

  lemma {:induction false} KeptIsAll(fate: seq<Fate>)
    requires forall j :: 0 <= j < |fate| ==> !fate[j].Dropped?
    ensures |Kept(fate)| == |fate| && forall j :: 0 <= j < |fate| ==> Kept(fate)[j] == j
  {
    if fate != [] { KeptIsAll(fate[..|fate| - 1]); }
  }

  // ---- wait() as a barrier ------------------------------------------------------

  /** When wait() returns, every job enqueued before it was called has ended or
      was dropped; no exception is rethrown by two calls. */
  lemma {:induction false} WaitIsBarrier(acts: seq<Action>, i: nat, j: nat)
    requires Allowed(FRESH, acts)
    requires var s := Run(FRESH, acts); i < |s.waiters| && s.waiters[i].at.Returned? && j < s.waiters[i].since
    ensures var s := Run(FRESH, acts); j < |s.fate| && Settled(s.fate[j])
  {
    FreshHolds();
    RunKeepsInv(FRESH, acts);
  }

  lemma {:induction false} RethrownOnce(acts: seq<Action>, i: nat, j: nat)
    requires Allowed(FRESH, acts)
    requires var s := Run(FRESH, acts); i < j < |s.waiters| && Failed(s.waiters[i]) && Failed(s.waiters[j])
    ensures var s := Run(FRESH, acts);
            s.waiters[i].at.error != s.waiters[j].at.error && s.waiters[i].at.error.value < |s.fate|
            && Recorded(s.fate[s.waiters[i].at.error.value])
  {
    FreshHolds();
    RunKeepsInv(FRESH, acts);
    var s := Run(FRESH, acts);
    assert s.waiters[i].at.error.value in s.thrown[..s.reported];
  }

  /** The check in wait() that lets the caller through: no job is queued or
      running; it rethrows exactly when a job failed whose exception was not
      looked at before the last report, and then the first such exception; after
      it, no failure is pending. */
  lemma {:induction false} WaitReports(s: Pool, i: nat)
    requires Inv(s) && Enabled(s, CheckWait(i)) && s.outstanding == 0
    ensures forall j :: 0 <= j < |s.fate| ==> Settled(s.fate[j])
    ensures var t := Apply(s, CheckWait(i)); var error := t.waiters[i].at.error;
            && (error.None? <==>
                  forall j :: 0 <= j < |s.fate| && s.fate[j] == Done(true) ==> j in s.thrown[..s.reported])
            && (error.Some? ==> s.thrown[s.reported..] != [] && error.value == s.thrown[s.reported]
                                && s.fate[error.value] == Done(true))
            && t.firstError.None?
            && (forall j :: 0 <= j < |t.fate| && t.fate[j] == Done(true) ==> j in t.thrown[..t.reported])
  {
    ZeroIsSettled(s);
    assert s.thrown[..|s.thrown|] == s.thrown;
    if s.reported < |s.thrown| {
      var j := s.thrown[s.reported];
      assert Recorded(s.fate[j]) && Settled(s.fate[j]);
      assert s.fate[j] == Done(true);
      assert j !in s.thrown[..s.reported];
    } else {
      forall j | 0 <= j < |s.fate| && s.fate[j] == Done(true) ensures j in s.thrown[..s.reported] {
        assert Recorded(s.fate[j]);
      }
    }
  }

  // ---- progress -------------------------------------------------------------------

  function Weight(p: Worker): nat {
    match p
    case Running(_) => 4
    case Recording(_) => 3
    case Finishing(_) => 2
    case Idle => 1
    case Asleep => 0
    case Exited => 0
  }

  function Left(s: Pool): nat { 4 * |s.jobs| + 2 * s.notifies + Total(s.workers, Weight) }

  /** Busy-waiting: the queue was tested and the worker tests it again. */
  predicate Spins(s: Pool, a: Action) { a.Test? && s.jobs == [] && !s.terminate && s.poll }

  /** A step of a worker, or of an enqueue on its way to notify_one. */
  predicate Works(s: Pool, a: Action) { (WorkerStep(a) && !Spins(s, a)) || a.NotifyOne? }

  /** Work that arrives: jobs, threads and wake-ups nobody asked for. */
  function Credit(s: Pool, a: Action): nat {
    match a
    case Enqueue(_) => 6
    case Spawn => 1
    case WakeWorker(_) => 1
    case NotifyAll => Total(s.workers, Sleeps)
    case _ => 0
  }

  lemma {:induction false} WakeAllWeight(workers: seq<Worker>)
    ensures Total(WakeAll(workers), Weight) == Total(workers, Weight) + Total(workers, Sleeps)
  {
    if workers != [] {
      var n := |workers| - 1;
      assert WakeAll(workers)[..n] == WakeAll(workers[..n]);
      WakeAllWeight(workers[..n]);
    }
  }

  lemma {:induction false} WorkerSpends(s: Pool, a: Action)
    requires Enabled(s, a) && WorkerStep(a)
    ensures Left(Apply(s, a)) + (if Works(s, a) then 1 else 0) <= Left(s) + Credit(s, a)
  {
    match a
    case Test(w) =>
      var p := if s.jobs != [] then Running(s.jobs[0]) else if s.terminate then Exited else Asleep;
      TotalSet(s.workers, Weight, w, p);
    case EndJob(w, throws) =>
      var job := s.workers[w].job;
      TotalSet(s.workers, Weight, w, if throws then Recording(job) else Finishing(job));
    case Record(w) => TotalSet(s.workers, Weight, w, Finishing(s.workers[w].job));
    case Finish(w) => TotalSet(s.workers, Weight, w, Idle);
  }

  lemma {:induction false} StepSpends(s: Pool, a: Action)
    requires Enabled(s, a)
    ensures Left(Apply(s, a)) + (if Works(s, a) then 1 else 0) <= Left(s) + Credit(s, a)
  {
    match a
    case Spawn => TotalAdd(s.workers, Weight, Idle);
    case NotifyAll => WakeAllWeight(s.workers);
    case Join => TotalZero(s.workers, Weight);
    case NotifyOne(w) => if At(s, w) { TotalSet(s.workers, Weight, w, Idle); }
    case WakeWorker(w) => TotalSet(s.workers, Weight, w, Idle);
    case _ => if WorkerStep(a) { WorkerSpends(s, a); }
  }

  function Work(s: Pool, acts: seq<Action>): nat
    requires Allowed(s, acts)
    decreases |acts|
  {
    if acts == [] then 0
    else (if Works(s, acts[0]) then 1 else 0) + Work(Apply(s, acts[0]), acts[1..])
  }

  function Credits(s: Pool, acts: seq<Action>): nat
    requires Allowed(s, acts)
    decreases |acts|
  {
    if acts == [] then 0 else Credit(s, acts[0]) + Credits(Apply(s, acts[0]), acts[1..])
  }

  /** In every run the steps that are not busy-waiting are paid for by what was
      there at the start and what arrived since: without new work they run out. */
  lemma {:induction false} WorkIsBounded(s: Pool, acts: seq<Action>)
    requires Inv(s) && Allowed(s, acts)
    ensures Work(s, acts) + Left(Run(s, acts)) <= Left(s) + Credits(s, acts)
    decreases |acts|
  {
    if acts != [] {
      StepSpends(s, acts[0]);
      StepKeepsInv(s, acts[0]);
      WorkIsBounded(Apply(s, acts[0]), acts[1..]);
    }
  }

  lemma {:induction false} SomeoneIs(workers: seq<Worker>, f: Worker -> nat) returns (w: nat)
    requires Total(workers, f) > 0
    ensures w < |workers| && f(workers[w]) > 0
  {
    var n := |workers| - 1;
    if f(workers[n]) > 0 { w := n; } else { w := SomeoneIs(workers[..n], f); }
  }

  /** No deadlock and no lost wake-up: while a job is outstanding and some worker
      has not exited, some worker or some pending notify can move. */
  lemma {:induction false} SomeWorkIsEnabled(s: Pool, live: nat) returns (a: Action)
    requires Inv(s) && s.outstanding > 0 && At(s, live) && !s.workers[live].Exited?
    ensures Enabled(s, a) && Works(s, a)
  {
    if Total(s.workers, Busy) > 0 {
      var w := SomeoneIs(s.workers, Busy);
      a := match s.workers[w]
           case Running(_) => EndJob(w, false)
           case Recording(_) => Record(w)
           case _ => Finish(w);
    } else {
      TotalAtLeast(s.workers, Busy, live);
      assert s.jobs != [];
      if Total(s.workers, Tests) > 0 {
        var w := SomeoneIs(s.workers, Tests);
        a := Test(w);
      } else {
        TotalAtLeast(s.workers, Tests, live);
        TotalAtLeast(s.workers, Sleeps, live);
        a := NotifyOne(live);
      }
    }
  }

  /** A pool that can only spin has nothing outstanding, and nobody sleeps in
      wait() unless a job was dropped. */
  lemma {:induction false} QuietIsDone(s: Pool, live: nat)
    requires Inv(s) && At(s, live) && !s.workers[live].Exited?
    requires forall a :: Enabled(s, a) ==> !Works(s, a)
    ensures s.outstanding == 0 && forall j :: 0 <= j < |s.fate| ==> Settled(s.fate[j])
    ensures (forall j :: 0 <= j < |s.fate| ==> !s.fate[j].Dropped?) ==>
              forall i :: 0 <= i < |s.waiters| ==> !s.waiters[i].at.Blocked?
  {
    if s.outstanding > 0 {
      var a := SomeWorkIsEnabled(s, live);
      assert false;
    }
    assert s.outstanding == 0;
    ZeroIsSettled(s);
  }

  lemma {:induction false} WorkKeepsWorkers(s: Pool, a: Action)
    requires Enabled(s, a) && Works(s, a)
    ensures Apply(s, a).terminate == s.terminate && |Apply(s, a).workers| == |s.workers| && Credit(s, a) == 0
  {
  }

  lemma {:induction false} Before(s: Pool, a: Action, rest: seq<Action>) returns (acts: seq<Action>)
    requires Enabled(s, a) && Allowed(Apply(s, a), rest)
    ensures acts == [a] + rest && Allowed(s, acts) && Run(s, acts) == Run(Apply(s, a), rest)
  {
    acts := [a] + rest;
    assert acts[1..] == rest;
  }

  /** From any state the outstanding jobs can be brought to an end by worker
      steps alone, within the bound above. */
  lemma {:induction false} CanDrain(s: Pool, live: nat) returns (acts: seq<Action>)
    requires Inv(s) && !s.terminate && At(s, live)
    ensures Allowed(s, acts) && |acts| <= Left(s) && Run(s, acts).outstanding == 0
    ensures forall k :: 0 <= k < |acts| ==> WorkerStep(acts[k]) || acts[k].NotifyOne?
    decreases Left(s)
  {
    if s.outstanding == 0 {
      acts := [];
    } else {
      var a := SomeWorkIsEnabled(s, live);
      StepSpends(s, a);
      StepKeepsInv(s, a);
      WorkKeepsWorkers(s, a);
      var rest := CanDrain(Apply(s, a), live);
      acts := Before(s, a, rest);
    }
  }

  // ---- stop() -----------------------------------------------------------------------

  lemma {:induction false} WorkerCanMove(s: Pool, w: nat) returns (a: Action)
    requires Inv(s) && s.control.Joining? && At(s, w) && !s.workers[w].Exited?
    ensures Enabled(s, a) && Works(s, a)
  {
    a := match s.workers[w]
         case Running(_) => EndJob(w, false)
         case Recording(_) => Record(w)
         case Finishing(_) => Finish(w)
         case _ => Test(w);
  }

  /** Once stop() has notified, a worker that has not exited can move: the joins
      are reached. */
  lemma {:induction false} JoinIsReached(s: Pool)
    requires Inv(s) && s.control.Joining? && forall a :: Enabled(s, a) ==> !Works(s, a)
    ensures Enabled(s, Join)
  {
    forall w | 0 <= w < |s.workers| ensures s.workers[w].Exited? {
      if !s.workers[w].Exited? {
        var a := WorkerCanMove(s, w);
        assert false;
      }
    }
  }

  /** An enqueue that comes when stop() has begun and every worker has exited. */
  predicate Late(s: Pool, a: Action) { a.Enqueue? && s.terminate && AllExited(s) }

  function Lates(s: Pool, acts: seq<Action>): nat
    requires Allowed(s, acts)
    decreases |acts|
  {
    if acts == [] then 0
    else (if Late(s, acts[0]) then 1 else 0) + Lates(Apply(s, acts[0]), acts[1..])
  }

  function Drops(fate: seq<Fate>): nat {
    if fate == [] then 0
    else Drops(fate[..|fate| - 1]) + if fate[|fate| - 1].Dropped? then 1 else 0
  }

  lemma {:induction false} DropsSame(a: seq<Fate>, b: seq<Fate>)
    requires |a| == |b| && forall j :: 0 <= j < |a| ==> (a[j].Dropped? <==> b[j].Dropped?)
    ensures Drops(a) == Drops(b)
  {
    if a != [] { DropsSame(a[..|a| - 1], b[..|b| - 1]); }
  }

  lemma {:induction false} DropsQueued(fate: seq<Fate>, queued: nat)
    requires queued <= |fate|
    requires forall j :: 0 <= j < |fate| ==> (fate[j].Queued? <==> j >= |fate| - queued)
    ensures Drops(DropQueued(fate)) == Drops(fate) + queued
  {
    var n := |fate| - 1;
    if queued == 0 {
      DropsSame(fate, DropQueued(fate));
    } else {
      assert DropQueued(fate)[..n] == DropQueued(fate[..n]);
      DropsQueued(fate[..n], queued - 1);
    }
  }

  /** Jobs the next reset would drop. */
  function Doomed(s: Pool): nat { if s.terminate && AllExited(s) then |s.jobs| else 0 }

  lemma {:induction false} WorkerDropsNothing(s: Pool, a: Action)
    requires Placed(s) && Controlled(s) && Enabled(s, a) && WorkerStep(a)
    ensures var t := Apply(s, a); Drops(t.fate) == Drops(s.fate) && Doomed(s) == Doomed(t) == 0
  {
    var t := Apply(s, a);
    var w := a.worker;
    DropsSame(s.fate, t.fate);
    assert !s.workers[w].Exited?;
    assert t.jobs != [] ==> !t.workers[w].Exited?;
  }

  lemma {:induction false} StepDropsLate(s: Pool, a: Action)
    requires Placed(s) && Controlled(s) && Enabled(s, a)
    ensures var t := Apply(s, a);
            Drops(t.fate) + Doomed(t) == Drops(s.fate) + Doomed(s) + if Late(s, a) then 1 else 0
  {
    if WorkerStep(a) { WorkerDropsNothing(s, a); } else { OtherDropsLate(s, a); }
  }

  lemma {:induction false} OtherDropsLate(s: Pool, a: Action)
    requires Placed(s) && Controlled(s) && Enabled(s, a) && !WorkerStep(a)
    ensures var t := Apply(s, a);
            Drops(t.fate) + Doomed(t) == Drops(s.fate) + Doomed(s) + if Late(s, a) then 1 else 0
  {
    match a
    case Enqueue(_) => assert Apply(s, a).fate[..|s.fate|] == s.fate;
    case Reset => DropsQueued(s.fate, |s.jobs|);
    case NotifyOne(_) => WakingDropsNothing(s, a);
    case WakeWorker(_) => WakingDropsNothing(s, a);
    case _ => ControlDropsNothing(s, a);
  }

  lemma {:induction false} WakingDropsNothing(s: Pool, a: Action)
    requires Enabled(s, a) && (a.NotifyOne? || a.WakeWorker?)
    ensures var t := Apply(s, a); t.fate == s.fate && Doomed(t) == Doomed(s)
  {
    var t := Apply(s, a);
    var w := if a.NotifyOne? then a.wake else a.worker;
    if At(s, w) && s.workers[w].Asleep? {
      assert !s.workers[w].Exited? && !t.workers[w].Exited?;
    }
  }

  lemma {:induction false} ControlDropsNothing(s: Pool, a: Action)
    requires Controlled(s) && Enabled(s, a) && !WorkerStep(a)
    requires !a.Enqueue? && !a.Reset? && !a.NotifyOne? && !a.WakeWorker?
    ensures var t := Apply(s, a); t.fate == s.fate && Doomed(t) == Doomed(s)
  {
    match a
    case Stop => if s.workers != [] { assert !s.workers[0].Exited?; }
    case NotifyAll => ExitedStay(s);
    case _ =>
  }

  lemma {:induction false} ExitedStay(s: Pool)
    ensures AllExited(s.(workers := WakeAll(s.workers), control := Joining)) == AllExited(s)
  {
    if AllExited(s.(workers := WakeAll(s.workers), control := Joining)) {
      forall w | 0 <= w < |s.workers| ensures s.workers[w].Exited? {
        assert WakeAll(s.workers)[w].Exited?;
      }
    }
  }

  /** stop() drains: over every run the jobs dropped, and those about to be, are
      exactly the late enqueues.  In particular no job is ever dropped unless
      some thread outside the pool enqueues after the last worker has exited. */
  lemma {:induction false} DroppedAreLate(s: Pool, acts: seq<Action>)
    requires Inv(s) && Allowed(s, acts)
    ensures var t := Run(s, acts); Drops(t.fate) + Doomed(t) == Drops(s.fate) + Doomed(s) + Lates(s, acts)
    decreases |acts|
  {
    if acts != [] {
      StepDropsLate(s, acts[0]);
      StepKeepsInv(s, acts[0]);
      DroppedAreLate(Apply(s, acts[0]), acts[1..]);
    }
  }

  /** At the last join of a stop() without late enqueues the queue is empty, the
      reset changes neither it nor the counter, and the pool can start again. */
  lemma {:induction false} ResetChangesNothing(acts: seq<Action>)
    requires Allowed(FRESH, acts) && Run(FRESH, acts).control.Joined? && Lates(FRESH, acts) == 0
    ensures var s := Run(FRESH, acts); var t := Apply(s, Reset);
            s.jobs == [] && s.outstanding == 0
            && t == s.(terminate := false, control := Stopped)
            && (forall j :: 0 <= j < |t.fate| ==> t.fate[j].Done?)
            && forall i :: 0 <= i < |t.waiters| ==> !t.waiters[i].at.Blocked?
  {
    FreshHolds();
    RunKeepsInv(FRESH, acts);
    DroppedAreLate(FRESH, acts);
    DrainedReset(Run(FRESH, acts));
  }

  lemma {:induction false} DrainedReset(s: Pool)
    requires Inv(s) && s.control.Joined? && Drops(s.fate) + Doomed(s) == 0
    ensures var t := Apply(s, Reset);
            s.jobs == [] && s.outstanding == 0
            && t == s.(terminate := false, control := Stopped)
            && (forall j :: 0 <= j < |t.fate| ==> t.fate[j].Done?)
            && forall i :: 0 <= i < |t.waiters| ==> !t.waiters[i].at.Blocked?
  {
    assert AllExited(s);
    assert Total(s.workers, Busy) == 0;
    assert DropQueued(s.fate) == s.fate;
    NoneDropped(s.fate);
    ZeroIsSettled(s);
  }

  lemma {:induction false} NoneDropped(fate: seq<Fate>)
    requires Drops(fate) == 0
    ensures forall j :: 0 <= j < |fate| ==> !fate[j].Dropped?
  {
    if fate != [] { NoneDropped(fate[..|fate| - 1]); }
  }

  lemma {:induction false} SomeDropped(fate: seq<Fate>)
    requires forall j :: 0 <= j < |fate| ==> !fate[j].Dropped?
    ensures Drops(fate) == 0
  {
    if fate != [] { SomeDropped(fate[..|fate| - 1]); }
  }

  /** A job was dropped exactly if there is a late enqueue whose reset has
      happened. */
  lemma {:induction false} DroppedIffLate(acts: seq<Action>)
    requires Allowed(FRESH, acts)
    ensures var s := Run(FRESH, acts);
            (exists j :: 0 <= j < |s.fate| && s.fate[j].Dropped?) <==> Lates(FRESH, acts) > Doomed(s)
  {
    FreshHolds();
    DroppedAreLate(FRESH, acts);
    var s := Run(FRESH, acts);
    if Drops(s.fate) == 0 { NoneDropped(s.fate); }
    if forall j :: 0 <= j < |s.fate| ==> !s.fate[j].Dropped? { SomeDropped(s.fate); }
  }

  // ---- longer runs -----------------------------------------------------------------------

  lemma {:induction false} Onward(s: Pool, acts: seq<Action>, a: Action)
    requires Allowed(s, acts) && Enabled(Run(s, acts), a)
    ensures Allowed(s, acts + [a]) && Run(s, acts + [a]) == Apply(Run(s, acts), a)
    ensures Lates(s, acts + [a]) == Lates(s, acts) + if Late(Run(s, acts), a) then 1 else 0
    decreases |acts|
  {
    if acts != [] {
      Onward(Apply(s, acts[0]), acts[1..], a);
      assert (acts + [a])[1..] == acts[1..] + [a];
    }
  }
}
