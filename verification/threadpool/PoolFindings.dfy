/** What stop() does not promise. */
module PoolFindings {
  import opened Options
  import opened PoolSpec
  import opened PoolRuns

  /** A caller of wait() sleeps although nothing is outstanding. */
  predicate Stranded(s: Pool) {
    s.outstanding == 0 && exists i :: 0 <= i < |s.waiters| && s.waiters[i].at.Blocked?
  }

  /** stop() has begun and every worker has exited; only the reset is to come. */
  predicate Stopping(s: Pool) { Inv(s) && s.terminate && AllExited(s) }

  lemma {:induction false} Then(s0: Pool, acts: seq<Action>, s: Pool, a: Action) returns (longer: seq<Action>, t: Pool)
    requires Inv(s) && Allowed(s0, acts) && s == Run(s0, acts) && Enabled(s, a)
    ensures Allowed(s0, longer) && t == Run(s0, longer) == Apply(s, a) && Inv(t)
    ensures Lates(s0, longer) == Lates(s0, acts) + if Late(s, a) then 1 else 0
  {
    Onward(s0, acts, a);
    StepKeepsInv(s, a);
    longer, t := acts + [a], Apply(s, a);
  }

  lemma {:induction false} CanEnqueueLate(s: Pool, k: nat) returns (acts: seq<Action>, t: Pool)
    requires Stopping(s)
    ensures Allowed(s, acts) && t == Run(s, acts) && Lates(s, acts) == k
    ensures Stopping(t) && t.outstanding == s.outstanding + k
  {
    if k == 0 {
      acts, t := [], s;
    } else {
      var before, m := CanEnqueueLate(s, k - 1);
      acts, t := Then(s, before, m, Enqueue(None));
    }
  }

  lemma {:induction false} CanBlock(s: Pool) returns (acts: seq<Action>, t: Pool)
    requires Stopping(s) && s.outstanding > 0
    ensures Allowed(s, acts) && t == Run(s, acts) && Lates(s, acts) == 0
    ensures Stopping(t) && t.control == s.control && exists i :: 0 <= i < |t.waiters| && t.waiters[i].at.Blocked?
  {
    var i := |s.waiters|;
    acts, t := Then(s, [], s, Wait);
    acts, t := Then(s, acts, t, CheckWait(i));
    assert t.waiters[i].at.Blocked?;
  }

  /** NotifyAll and the join, as far as they are still to come. */
  lemma {:induction false} CanJoin(s0: Pool, acts: seq<Action>, s: Pool) returns (longer: seq<Action>, t: Pool)
    requires Stopping(s) && Allowed(s0, acts) && s == Run(s0, acts)
    ensures Allowed(s0, longer) && t == Run(s0, longer) && Lates(s0, longer) == Lates(s0, acts)
    ensures Inv(t) && t.control.Joined? && t.waiters == s.waiters
  {
    longer, t := acts, s;
    if t.control.Stopping? {
      ExitedStay(t);
      longer, t := Then(s0, longer, t, NotifyAll);
    }
    if t.control.Joining? {
      longer, t := Then(s0, longer, t, Join);
    }
  }

  /** From every state in which stop() has only the reset before it and a late
      enqueue behind it, a wait() can be left asleep: the reset clears the counter
      without a notify. */
  lemma {:induction false} CanStrand(s: Pool) returns (acts: seq<Action>)
    requires Stopping(s) && s.outstanding > 0
    ensures Allowed(s, acts) && Lates(s, acts) == 0 && Stranded(Run(s, acts))
  {
    var t;
    acts, t := CanBlock(s);
    acts, t := CanJoin(s, acts, t);
    acts, t := Then(s, acts, t, Reset);
  }

  lemma {:induction false} Concatenated(s: Pool, a: seq<Action>, b: seq<Action>)
    requires Allowed(s, a) && Allowed(Run(s, a), b)
    ensures Allowed(s, a + b) && Run(s, a + b) == Run(Run(s, a), b)
    ensures Lates(s, a + b) == Lates(s, a) + Lates(Run(s, a), b)
    decreases |a|
  {
    if a == [] {
      assert a + b == b;
    } else {
      Concatenated(Apply(s, a[0]), a[1..], b);
      assert (a + b)[1..] == a[1..] + b;
    }
  }

  lemma {:induction false} StrandedNeedsLate(s: Pool, more: seq<Action>)
    requires Inv(s) && Drops(s.fate) == 0 && Allowed(s, more) && Stranded(Run(s, more))
    ensures Doomed(s) + Lates(s, more) > 0
  {
    RunKeepsInv(s, more);
    DroppedAreLate(s, more);
    var t := Run(s, more);
    if Drops(t.fate) == 0 { NoneDropped(t.fate); }
  }

  lemma {:induction false} LateStrands(s: Pool, k: nat) returns (more: seq<Action>)
    requires Stopping(s) && s.outstanding + k > 0
    ensures Allowed(s, more) && Lates(s, more) == k && Stranded(Run(s, more))
  {
    var late, t := CanEnqueueLate(s, k);
    var rest := CanStrand(t);
    Concatenated(s, late, rest);
    more := late + rest;
  }

  /** A run that has come to the end of a stop(), the first that could drop jobs,
      can be continued with k late enqueues so that a waiter is stranded exactly
      if there is a late enqueue at all, in it or among the k. */
  lemma {:induction false} StrandedIffLate(acts: seq<Action>, k: nat)
    requires Allowed(FRESH, acts)
    requires var s := Run(FRESH, acts); s.terminate && AllExited(s) && Drops(s.fate) == 0
    ensures var s := Run(FRESH, acts);
            (exists more :: Allowed(s, more) && Lates(s, more) == k && Stranded(Run(s, more)))
            <==> Lates(FRESH, acts) + k > 0
  {
    var s := Run(FRESH, acts);
    FreshHolds();
    RunKeepsInv(FRESH, acts);
    DroppedAreLate(FRESH, acts);
    if Lates(FRESH, acts) + k > 0 {
      AllIdle(s);
      var more := LateStrands(s, k);
    } else if more :| Allowed(s, more) && Lates(s, more) == k && Stranded(Run(s, more)) {
      StrandedNeedsLate(s, more);
    }
  }

  /** With every worker gone, the queue is all that is outstanding. */
  lemma {:induction false} AllIdle(s: Pool)
    requires Inv(s) && AllExited(s)
    ensures s.outstanding == |s.jobs|
  {
    TotalZero(s.workers, Busy);
  }

  /** Only a wait() that finds the counter at zero takes the recorded exception:
      stop() and a new start() leave it for the first wait() after them. */
  lemma {:induction false} ErrorOutlivesStop(s: Pool, acts: seq<Action>)
    requires s.firstError.Some? && Allowed(s, acts) && !Reports(s, acts)
    ensures Run(s, acts).firstError == s.firstError
    decreases |acts|
  {
    if acts != [] {
      assert Apply(s, acts[0]).firstError == s.firstError;
      ErrorOutlivesStop(Apply(s, acts[0]), acts[1..]);
    }
  }

  /** Some wait() returns during the run. */
  predicate Reports(s: Pool, acts: seq<Action>)
    requires Allowed(s, acts)
    decreases |acts|
  {
    acts != [] && ((acts[0].CheckWait? && s.outstanding == 0) || Reports(Apply(s, acts[0]), acts[1..]))
  }
}
