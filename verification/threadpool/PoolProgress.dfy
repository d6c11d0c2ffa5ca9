/** Every fair run without new work comes to an end of its jobs. */
module PoolProgress {
  import opened PoolSpec
  import opened PoolRuns

  /** A run that has spent all it had and all that arrived has nothing outstanding. */
  lemma {:induction false} SpentIsDone(s: Pool, acts: seq<Action>)
    requires Inv(s) && Allowed(s, acts) && Work(s, acts) >= Left(s) + Credits(s, acts)
    ensures var t := Run(s, acts);
            t.outstanding == 0 && t.notifies == 0 && forall j :: 0 <= j < |t.fate| ==> Settled(t.fate[j])
  {
    var t := Run(s, acts);
    WorkIsBounded(s, acts);
    RunKeepsInv(s, acts);
    forall w | 0 <= w < |t.workers| ensures Busy(t.workers[w]) == 0 {
      TotalAtLeast(t.workers, Weight, w);
    }
    TotalZero(t.workers, Busy);
    ZeroIsSettled(t);
  }

  // ---- runs without end -----------------------------------------------------------

  predicate Alive(s: Pool) { exists w :: 0 <= w < |s.workers| && !s.workers[w].Exited? }

  /** Some step other than busy-waiting can be taken. */
  ghost predicate CanWork(s: Pool) { exists a :: Enabled(s, a) && Works(s, a) }

  ghost predicate StepAt(run: nat -> Pool, acts: nat -> Action, k: nat) {
    Enabled(run(k), acts(k)) && run(k + 1) == Apply(run(k), acts(k))
  }

  /** A run that never ends: `acts(k)` leads from `run(k)` to the next state. */
  ghost predicate Endless(run: nat -> Pool, acts: nat -> Action) { forall k: nat :: StepAt(run, acts, k) }

  ghost predicate QuietAt(run: nat -> Pool, acts: nat -> Action, k: nat) {
    StepAt(run, acts, k) && Credit(run(k), acts(k)) == 0
  }

  ghost predicate NothingArrives(run: nat -> Pool, acts: nat -> Action) { forall k: nat :: QuietAt(run, acts, k) }

  ghost predicate CanWorkFrom(run: nat -> Pool, k: nat) { forall j: nat :: j >= k ==> CanWork(run(j)) }

  ghost predicate WorksFrom(run: nat -> Pool, acts: nat -> Action, k: nat) {
    exists j: nat :: j >= k && StepAt(run, acts, j) && Works(run(j), acts(j))
  }

  /** The weakest fairness: work that could be done at any time from some point on is not put off for ever
      by steps that only spin, wait or ask. */
  ghost predicate Fair(run: nat -> Pool, acts: nat -> Action) {
    forall k: nat :: CanWorkFrom(run, k) ==> WorksFrom(run, acts, k)
  }

  /** A worker exits only when the queue is empty. */
  lemma {:induction false} StaysForJobs(s: Pool, a: Action, w: nat)
    requires Enabled(s, a) && At(s, w) && !s.workers[w].Exited? && Apply(s, a).jobs != []
    ensures At(Apply(s, a), w) && !Apply(s, a).workers[w].Exited?
  {
  }

  /** With a job outstanding, somebody holds it or it is queued. */
  lemma {:induction false} HeldOrQueued(s: Pool) returns (w: nat)
    requires Counted(s) && s.outstanding > 0 && s.jobs == []
    ensures At(s, w) && !s.workers[w].Exited?
  {
    w := SomeoneIs(s.workers, Busy);
  }

  lemma {:induction false} AliveKept(s: Pool, a: Action, t: Pool)
    requires Alive(s) && Enabled(s, a) && t == Apply(s, a) && Counted(t) && t.outstanding > 0
    ensures Alive(t)
  {
    if t.jobs == [] {
      var w := HeldOrQueued(t);
    } else {
      var w :| 0 <= w < |s.workers| && !s.workers[w].Exited?;
      StaysForJobs(s, a, w);
    }
  }

  lemma {:induction false} AlwaysInv(run: nat -> Pool, acts: nat -> Action, k: nat)
    requires Endless(run, acts) && Inv(run(0))
    ensures Inv(run(k))
  {
    if k > 0 {
      AlwaysInv(run, acts, k - 1);
      assert StepAt(run, acts, k - 1);
      InvNext(run(k - 1), acts(k - 1), run(k));
    }
  }

  lemma {:induction false} InvNext(s: Pool, a: Action, t: Pool)
    requires Inv(s) && Enabled(s, a) && t == Apply(s, a)
    ensures Inv(t)
  {
    StepKeepsInv(s, a);
  }

  /** While jobs are outstanding at every step, some worker stays. */
  lemma {:induction false} StillAlive(run: nat -> Pool, acts: nat -> Action, k: nat)
    requires Endless(run, acts) && Inv(run(0)) && Alive(run(0))
    requires forall j: nat :: j <= k ==> run(j).outstanding > 0
    ensures Alive(run(k))
  {
    if k > 0 {
      StillAlive(run, acts, k - 1);
      AlwaysInv(run, acts, k);
      assert StepAt(run, acts, k - 1);
      AliveKept(run(k - 1), acts(k - 1), run(k));
    }
  }

  lemma {:induction false} AliveCanWork(s: Pool)
    requires Inv(s) && Alive(s) && s.outstanding > 0
    ensures CanWork(s)
  {
    var w :| 0 <= w < |s.workers| && !s.workers[w].Exited?;
    var a := SomeWorkIsEnabled(s, w);
  }

  lemma {:induction false} Spends(run: nat -> Pool, acts: nat -> Action, k: nat)
    requires QuietAt(run, acts, k)
    ensures Left(run(k + 1)) <= Left(run(k)) - if Works(run(k), acts(k)) then 1 else 0
  {
    StepSpends(run(k), acts(k));
  }

  /** Without arrivals what is left never grows. */
  lemma {:induction false} LeftShrinks(run: nat -> Pool, acts: nat -> Action, k: nat, j: nat)
    requires NothingArrives(run, acts) && k <= j
    ensures Left(run(j)) <= Left(run(k))
    decreases j - k
  {
    if k < j {
      LeftShrinks(run, acts, k, j - 1);
      assert QuietAt(run, acts, j - 1);
      Spends(run, acts, j - 1);
    }
  }

  /** Work cannot go on for ever. */
  lemma {:induction false} WorkEnds(run: nat -> Pool, acts: nat -> Action, k: nat)
    requires NothingArrives(run, acts) && Fair(run, acts) && CanWorkFrom(run, 0)
    ensures false
    decreases Left(run(k))
  {
    assert CanWorkFrom(run, k);
    var j: nat :| j >= k && StepAt(run, acts, j) && Works(run(j), acts(j));
    LeftShrinks(run, acts, k, j);
    assert QuietAt(run, acts, j);
    Spends(run, acts, j);
    WorkEnds(run, acts, j + 1);
  }

  /** Whatever the scheduler does, as long as it is fair and nothing arrives, the counter comes to zero. */
  lemma {:induction false} FairRunsDrain(run: nat -> Pool, acts: nat -> Action) returns (k: nat)
    requires Endless(run, acts) && NothingArrives(run, acts) && Fair(run, acts) && Inv(run(0)) && Alive(run(0))
    ensures run(k).outstanding == 0
  {
    if j: nat :| run(j).outstanding <= 0 {
      AlwaysInv(run, acts, j);
      k := j;
    } else {
      forall j: nat ensures CanWork(run(j)) {
        StillAlive(run, acts, j);
        AlwaysInv(run, acts, j);
        AliveCanWork(run(j));
      }
      WorkEnds(run, acts, 0);
    }
  }
}
