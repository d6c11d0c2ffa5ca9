/** What a start() leads to: as many workers as it asked for, in the mode it asked for. */
module PoolStarts {
  import opened Options
  import opened PoolSpec
  import opened PoolRuns

  datatype Asked = Asked(threads: nat, spin: bool)

  /** The last start that found no threads and asked for some, unless a stop found threads since. */
  function LastStart(s: Pool, acts: seq<Action>, asked: Option<Asked>): Option<Asked>
    requires Allowed(s, acts)
    decreases |acts|
  {
    if acts == [] then asked else LastStart(Apply(s, acts[0]), acts[1..], AskedBy(s, acts[0], asked))
  }

  function AskedBy(s: Pool, a: Action, asked: Option<Asked>): Option<Asked> {
    match a
    case Start(threads, spin) => if s.workers == [] && threads != 0 then Some(Asked(threads, spin)) else asked
    case Stop => if s.workers != [] then None else asked
    case _ => asked
  }

  /** The threads that run and those still to be created are the ones asked for. */
  predicate Honours(s: Pool, asked: Option<Asked>) {
    match asked
    case None => s.control.Stopped? || s.control.Stopping? || s.control.Joining? || s.control.Joined?
    case Some(a) =>
      && s.poll == a.spin && !s.terminate && a.threads > 0
      && (s.control == Started || s.control.Spawning?)
      && |s.workers| + (if s.control.Spawning? then s.control.left else 0) == a.threads
      && (s.control.Spawning? ==> s.control.left > 0)
  }

  lemma {:induction false} RunHonours(s: Pool, acts: seq<Action>, asked: Option<Asked>)
    requires Inv(s) && Allowed(s, acts) && Honours(s, asked)
    ensures Honours(Run(s, acts), LastStart(s, acts, asked))
    decreases |acts|
  {
    if acts != [] {
      var t, now := Apply(s, acts[0]), AskedBy(s, acts[0], asked);
      StepKeepsInv(s, acts[0]);
      StepHonours(s, acts[0], t, asked, now);
      RunHonours(t, acts[1..], now);
    }
  }

  lemma {:induction false} StepHonours(s: Pool, a: Action, t: Pool, asked: Option<Asked>, now: Option<Asked>)
    requires Controlled(s) && Enabled(s, a) && t == Apply(s, a) && Honours(s, asked) && now == AskedBy(s, a, asked)
    ensures Honours(t, now)
  {
  }

  /** In every reachable state: started, the pool has exactly the workers of the last start; while it
      starts, the workers and those still due; and it polls as that start said. */
  lemma {:induction false} StartIsHonoured(acts: seq<Action>)
    requires Allowed(FRESH, acts)
    ensures var s, asked := Run(FRESH, acts), LastStart(FRESH, acts, None);
            && (s.control == Started ==>
                  asked.Some? && |s.workers| == asked.value.threads && s.poll == asked.value.spin)
            && (s.control.Spawning? ==>
                  asked.Some? && |s.workers| + s.control.left == asked.value.threads && s.poll == asked.value.spin)
            && (asked.Some? <==> s.control == Started || s.control.Spawning?)
  {
    FreshHolds();
    RunHonours(FRESH, acts, None);
  }

  /** A start of a started pool, or for no threads, does nothing. */
  lemma {:induction false} StartIgnored(s: Pool, threads: nat, spin: bool)
    requires Inv(s) && Enabled(s, Start(threads, spin)) && (s.control == Started || threads == 0)
    ensures Apply(s, Start(threads, spin)) == s
  {
  }

  /** `n` threads, one after the other. */
  function Spawns(n: nat): seq<Action> { if n == 0 then [] else [Spawn] + Spawns(n - 1) }

  lemma {:induction false} SpawnsDue(s: Pool)
    requires s.control.Spawning? && s.control.left > 0
    ensures Allowed(s, Spawns(s.control.left))
    ensures var t := Run(s, Spawns(s.control.left));
            t.control == Started && |t.workers| == |s.workers| + s.control.left && t.poll == s.poll
            && forall w :: |s.workers| <= w < |t.workers| ==> t.workers[w] == Idle
    decreases s.control.left
  {
    var n := s.control.left;
    var next := Apply(s, Spawn);
    assert Spawns(n)[1..] == Spawns(n - 1) && Spawns(n)[0] == Spawn;
    if n > 1 {
      SpawnsDue(next);
      var t := Run(next, Spawns(n - 1));
      assert t.workers[|s.workers|] == Idle by {
        SpawnsKeep(next, n - 1, |s.workers|);
      }
    } else {
      assert Spawns(0) == [];
    }
  }

  lemma {:induction false} SpawnsKeep(s: Pool, n: nat, w: nat)
    requires Allowed(s, Spawns(n)) && w < |s.workers|
    ensures w < |Run(s, Spawns(n)).workers| && Run(s, Spawns(n)).workers[w] == s.workers[w]
    decreases n
  {
    if n > 0 {
      assert Spawns(n)[1..] == Spawns(n - 1) && Spawns(n)[0] == Spawn;
      SpawnsKeep(Apply(s, Spawn), n - 1, w);
    }
  }

  /** start(threads, spin) of a stopped pool creates `threads` workers, and then the pool is started. */
  lemma {:induction false} StartSpawns(s: Pool, threads: nat, spin: bool)
    requires Inv(s) && s.control == Stopped && threads > 0
    ensures Enabled(s, Start(threads, spin))
    ensures var begun := Apply(s, Start(threads, spin));
            && Allowed(begun, Spawns(threads))
            && var t := Run(begun, Spawns(threads));
               t.control == Started && |t.workers| == threads && t.poll == spin && !t.terminate
               && forall w :: 0 <= w < threads ==> t.workers[w] == Idle
  {
    var begun := Apply(s, Start(threads, spin));
    SpawnsDue(begun);
    SpawnsKeepFlag(begun, threads);
  }

  lemma {:induction false} SpawnsKeepFlag(s: Pool, n: nat)
    requires Allowed(s, Spawns(n))
    ensures Run(s, Spawns(n)).terminate == s.terminate
    decreases n
  {
    if n > 0 {
      assert Spawns(n)[1..] == Spawns(n - 1) && Spawns(n)[0] == Spawn;
      SpawnsKeepFlag(Apply(s, Spawn), n - 1);
    }
  }
}
