/** The pool itself.  Each method is one section that holds the mutex, or one
    call on a condition variable; start(), stop(), wait() and loop() are the
    sequences of sections that Control, Waiting and Worker describe.  That a
    section keeps the pool's invariant is PoolSpec.StepKeepsInv, and PoolRuns
    says what follows for every interleaving. */
module ThreadPool {
  import opened Options
  import opened PoolSpec

  class ThreadPool {
    var jobs: seq<nat>
    var outstanding: int
    var terminate: bool
    var poll: bool
    var firstError: Option<nat>
    var workers: seq<Worker>
    var waiters: seq<Waiter>
    var notifies: nat
    var control: Control
    var issued: nat           // the number the next job gets
    ghost var fate: seq<Fate>
    ghost var taken: seq<nat>
    ghost var thrown: seq<nat>
    ghost var reported: nat

    ghost function View(): Pool
      reads this
    {
      Pool(jobs, outstanding, terminate, poll, firstError, workers, waiters, notifies, control,
           fate, taken, thrown, reported)
    }


    ghost predicate Valid()
      reads this
    {
      issued == |fate|
    }

    constructor ()
      ensures Valid() && View() == FRESH
    {
      jobs, outstanding, terminate, poll, firstError := [], 0, false, false, None;
      workers, waiters, notifies, control, issued := [], [], 0, Stopped, 0;
      fate, taken, thrown, reported := [], [], [], 0;
    }

    /** start(), up to the loop that creates the threads. */
    method BeginStart(threads: nat, spin: bool)
      requires Valid() && Enabled(View(), Start(threads, spin))
      modifies this
      ensures Valid() && View() == Apply(old(View()), Start(threads, spin))
      ensures if old(workers) == [] && threads > 0 then !terminate && poll == spin && control == Spawning(threads)
              else terminate == old(terminate) && poll == old(poll) && control == old(control)
      ensures workers == old(workers) && jobs == old(jobs) && outstanding == old(outstanding)
      ensures firstError == old(firstError) && waiters == old(waiters) && notifies == old(notifies)
    {
      if workers != [] || threads == 0 { return; }
      terminate := false;
      poll := spin;
      control := Spawning(threads);
    }

    /** One thread created by start(). */
    method SpawnWorker()
      requires Valid() && Enabled(View(), Spawn)
      modifies this
      ensures Valid() && View() == Apply(old(View()), Spawn)
      ensures workers == old(workers) + [Idle]
      ensures control == if old(control.left) == 1 then Started else Spawning(old(control.left) - 1)
      ensures jobs == old(jobs) && outstanding == old(outstanding) && terminate == old(terminate) && poll == old(poll)
      ensures firstError == old(firstError) && waiters == old(waiters) && notifies == old(notifies)
    {
      workers := workers + [Idle];
      control := if control.left == 1 then Started else Spawning(control.left - 1);
    }

    /** stop(), up to the notification. */
    method BeginStop()
      requires Valid() && Enabled(View(), Stop)
      modifies this
      ensures Valid() && View() == Apply(old(View()), Stop)
      ensures if old(workers) == [] then terminate == old(terminate) && control == old(control)
              else terminate && control == Stopping
      ensures workers == old(workers) && jobs == old(jobs) && outstanding == old(outstanding) && poll == old(poll)
      ensures firstError == old(firstError) && waiters == old(waiters) && notifies == old(notifies)
    {
      if workers == [] { return; }
      terminate := true;
      control := Stopping;
    }

    method NotifyStopping()
      requires Valid() && Enabled(View(), NotifyAll)
      modifies this
      ensures Valid() && View() == Apply(old(View()), NotifyAll)
      ensures |workers| == old(|workers|) && control == Joining
      ensures forall w :: 0 <= w < |workers| ==>
                workers[w] == if old(workers)[w] == Asleep then Idle else old(workers)[w]
      ensures jobs == old(jobs) && outstanding == old(outstanding) && terminate == old(terminate) && poll == old(poll)
      ensures firstError == old(firstError) && waiters == old(waiters) && notifies == old(notifies)
    {
      workers := WakeAll(workers);
      control := Joining;
    }

    method JoinWorkers()
      requires Valid() && Enabled(View(), Join)
      modifies this
      ensures Valid() && View() == Apply(old(View()), Join)
      ensures workers == [] && control == Joined
      ensures jobs == old(jobs) && outstanding == old(outstanding) && terminate == old(terminate) && poll == old(poll)
      ensures firstError == old(firstError) && waiters == old(waiters) && notifies == old(notifies)
    {
      workers := [];
      control := Joined;
    }

    /** The end of stop(). */
    method ResetState()
      requires Valid() && Enabled(View(), Reset)
      modifies this
      ensures Valid() && View() == Apply(old(View()), Reset)
      ensures jobs == [] && outstanding == 0 && !terminate && control == Stopped
      ensures workers == old(workers) && poll == old(poll)
      ensures firstError == old(firstError) && waiters == old(waiters) && notifies == old(notifies)
    {
      fate := DropQueued(fate);
      jobs := [];
      outstanding := 0;
      terminate := false;
      control := Stopped;
    }

    /** The locked part of enqueue(), called from a running job or from outside. */
    method Push(caller: Option<nat>) returns (job: nat)
      requires Valid() && Enabled(View(), Enqueue(caller))
      modifies this
      ensures Valid() && View() == Apply(old(View()), Enqueue(caller)) && job == |old(View()).fate|
      ensures jobs == old(jobs) + [job] && outstanding == old(outstanding) + 1 && notifies == old(notifies) + 1
      ensures terminate == old(terminate) && poll == old(poll) && workers == old(workers) && control == old(control)
      ensures firstError == old(firstError) && waiters == old(waiters)
    {
      job := issued;
      jobs := jobs + [job];
      outstanding := outstanding + 1;
      notifies := notifies + 1;
      issued := issued + 1;
      fate := fate + [Queued];
    }

    /** notify_one() of an enqueue(); `wake` is the sleeper it happens to pick. */
    method NotifyWorker(wake: nat)
      requires Valid() && Enabled(View(), NotifyOne(wake))
      modifies this
      ensures Valid() && View() == Apply(old(View()), NotifyOne(wake))
      ensures notifies == old(notifies) - 1
      ensures workers == if wake < old(|workers|) && old(workers)[wake] == Asleep then old(workers)[wake := Idle]
                         else old(workers)
      ensures jobs == old(jobs) && outstanding == old(outstanding) && terminate == old(terminate) && poll == old(poll)
      ensures firstError == old(firstError) && waiters == old(waiters) && control == old(control)
    {
      notifies := notifies - 1;
      if wake < |workers| && workers[wake].Asleep? { workers := workers[wake := Idle]; }
    }

    method EnterWait() returns (waiter: nat)
      requires Valid()
      modifies this
      ensures Valid() && View() == Apply(old(View()), Wait) && waiter == |old(View()).waiters|
      ensures waiters == old(waiters) + [Waiter(old(issued), Checking)]
      ensures jobs == old(jobs) && outstanding == old(outstanding) && terminate == old(terminate) && poll == old(poll)
      ensures firstError == old(firstError) && workers == old(workers) && notifies == old(notifies)
      ensures control == old(control)
    {
      waiter := |waiters|;
      waiters := waiters + [Waiter(issued, Checking)];
    }

    /** wait() with the mutex: block, or return and rethrow. */
    method TryReturn(waiter: nat) returns (through: bool, error: Option<nat>)
      requires Valid() && Enabled(View(), CheckWait(waiter))
      modifies this
      ensures Valid() && View() == Apply(old(View()), CheckWait(waiter))
      ensures through == (old(outstanding) == 0) && error == if through then old(firstError) else None
      ensures firstError == if through then None else old(firstError)
      ensures |waiters| == old(|waiters|) && waiters[waiter].at == if through then Returned(error) else Blocked
      ensures forall i :: 0 <= i < |waiters| && i != waiter ==> waiters[i] == old(waiters)[i]
      ensures jobs == old(jobs) && outstanding == old(outstanding) && terminate == old(terminate) && poll == old(poll)
      ensures workers == old(workers) && notifies == old(notifies) && control == old(control)
    {
      through, error := outstanding == 0, None;
      if !through {
        waiters := waiters[waiter := waiters[waiter].(at := Blocked)];
        return;
      }
      if firstError.Some? {
        error := firstError;
        firstError := None;
      }
      reported := |thrown|;
      waiters := waiters[waiter := waiters[waiter].(at := Returned(error))];
    }

    /** The head of loop(): spin, sleep, exit, or take the front job. */
    method TakeJob(w: nat)
      requires Valid() && Enabled(View(), Test(w))
      modifies this
      ensures Valid() && View() == Apply(old(View()), Test(w))
      ensures |workers| == old(|workers|) && forall v :: 0 <= v < |workers| && v != w ==> workers[v] == old(workers)[v]
      ensures workers[w] == if old(jobs) != [] then Running(old(jobs)[0]) else if terminate then Exited
                            else if poll then Idle else Asleep
      ensures jobs == if old(jobs) != [] then old(jobs)[1..] else []
      ensures outstanding == old(outstanding) && terminate == old(terminate) && poll == old(poll)
      ensures firstError == old(firstError) && waiters == old(waiters) && notifies == old(notifies)
      ensures control == old(control)
    {
      if poll {
        if !terminate && jobs == [] { return; }
      } else if !(terminate || jobs != []) {
        workers := workers[w := Asleep];
        return;
      }
      if terminate && jobs == [] {
        workers := workers[w := Exited];
        return;
      }
      var job := jobs[0];
      fate := Mark(fate, job, Held(w));
      taken := taken + [job];
      workers := workers[w := Running(job)];
      jobs := jobs[1..];
    }

    /** The job returns or throws. */
    method ReturnFromJob(w: nat, throws: bool)
      requires Valid() && Enabled(View(), EndJob(w, throws))
      modifies this
      ensures Valid() && View() == Apply(old(View()), EndJob(w, throws))
      ensures workers == old(workers)[w := if throws then Recording(old(workers)[w].job)
                                           else Finishing(old(workers)[w].job)]
      ensures jobs == old(jobs) && outstanding == old(outstanding) && terminate == old(terminate) && poll == old(poll)
      ensures firstError == old(firstError) && waiters == old(waiters) && notifies == old(notifies)
      ensures control == old(control)
    {
      var job := workers[w].job;
      workers := workers[w := if throws then Recording(job) else Finishing(job)];
      fate := Mark(fate, job, if throws then Threw(w) else Ending(w, false));
    }

    method RecordError(w: nat)
      requires Valid() && Enabled(View(), Record(w))
      modifies this
      ensures Valid() && View() == Apply(old(View()), Record(w))
      ensures workers == old(workers)[w := Finishing(old(workers)[w].job)]
      ensures firstError == if old(firstError).None? then Some(old(workers)[w].job) else old(firstError)
      ensures jobs == old(jobs) && outstanding == old(outstanding) && terminate == old(terminate) && poll == old(poll)
      ensures waiters == old(waiters) && notifies == old(notifies) && control == old(control)
    {
      var job := workers[w].job;
      if firstError.None? { firstError := Some(job); }
      workers := workers[w := Finishing(job)];
      fate := Mark(fate, job, Ending(w, true));
      thrown := thrown + [job];
    }

    /** The end of loop(): count the job off, and wake the waiters at zero. */
    method FinishJob(w: nat)
      requires Valid() && Enabled(View(), Finish(w))
      modifies this
      ensures Valid() && View() == Apply(old(View()), Finish(w))
      ensures workers == old(workers)[w := Idle] && outstanding == old(outstanding) - 1
      ensures |waiters| == old(|waiters|)
      ensures forall i :: 0 <= i < |waiters| ==>
                && waiters[i].since == old(waiters)[i].since
                && waiters[i].at == if outstanding == 0 && old(waiters)[i].at == Blocked then Checking
                                    else old(waiters)[i].at
      ensures jobs == old(jobs) && terminate == old(terminate) && poll == old(poll) && firstError == old(firstError)
      ensures notifies == old(notifies) && control == old(control)
    {
      fate := Ended(fate, workers[w].job);
      workers := workers[w := Idle];
      outstanding := outstanding - 1;
      if outstanding == 0 { waiters := Unblock(waiters); }
    }

    /** Condition variables may wake a thread for no reason. */
    method WakeSpuriously(w: nat)
      requires Valid() && Enabled(View(), WakeWorker(w))
      modifies this
      ensures Valid() && View() == Apply(old(View()), WakeWorker(w))
    {
      workers := workers[w := Idle];
    }

    method WakeWaitSpuriously(i: nat)
      requires Valid() && Enabled(View(), WakeWaiter(i))
      modifies this
      ensures Valid() && View() == Apply(old(View()), WakeWaiter(i))
    {
      waiters := waiters[i := waiters[i].(at := Checking)];
    }
  }
}
