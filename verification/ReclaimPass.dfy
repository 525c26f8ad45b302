/** What a reclaiming pass achieves while other processes are at work: it leaves no lease of its snapshot behind. */
module ReclaimPass {
  import opened Collections
  import opened IngestionQueue

  // ---------------------------------------------------------------- A job is leased once

  /** The job was pushed and is neither queued nor in the hands of a worker without a lease. */
  ghost predicate Seen(s: Sys, j: Job) {
    j in s.h.entered && j !in s.store.queue && forall p :: !Fresh(Loc(s, p), j)
  }

  /** Process `p` alone moves and pushes nothing; what it has without a lease it had before. */
  lemma SeenMove(s: Sys, s': Sys, p: Pid, j: Job)
    requires Seen(s, j) && j in s'.h.entered && forall q: Pid :: q != p ==> Loc(s', q) == Loc(s, q)
    requires forall k :: k in s'.store.queue ==> k in s.store.queue
    requires Fresh(Loc(s', p), j) ==> Fresh(Loc(s, p), j)
    ensures Seen(s', j)
  {
  }

  lemma SeenPop(s: Sys, p: Pid, j: Job)
    requires Seen(s, j) && Loc(s, p).Claiming?
    ensures Seen(PopNext(s, p), j) && PopNext(s, p).store.leases == s.store.leases
  {
    if s.store.queue != [] {
      assert s.store.queue[|s.store.queue| - 1] in s.store.queue;
    }
    SeenMove(s, PopNext(s, p), p, j);
  }

  /** A push adds a job that was never pushed before. */
  lemma SeenPush(s: Sys, a: Action, j: Job)
    requires InvKeys(s) && InvHeld(s) && InvEntered(s) && Seen(s, j) && Enabled(s, a) && (a.Enqueue? || a.RPush?)
    ensures Seen(Next(s, a), j) && Next(s, a).store.leases == s.store.leases
  {
    var s' := Next(s, a);
    if a.RPush? {
      assert Holds(Loc(s, a.p), Loc(s, a.p).job);
      assert Spot(s.h, Loc(s, a.p).job) == AtReclaimer(a.p);
      assert Bumped(Loc(s, a.p).job) !in s.h.entered;
    } else {
      assert Job(a.t, 0) !in s.h.entered;
    }
    forall p ensures !Fresh(Loc(s', p), j) {
      assert !Fresh(Loc(s, p), j);
    }
  }

  lemma SeenReclaim(s: Sys, a: Action, j: Job)
    requires Seen(s, j) && Enabled(s, a) && (a.Snapshot? || a.ZRem? || a.LRem? || a.EndReclaim?)
    ensures Seen(Next(s, a), j) && Next(s, a).store.leases.Keys <= s.store.leases.Keys
  {
    SeenMove(s, Next(s, a), a.p, j);
  }

  lemma SeenWork(s: Sys, a: Action, j: Job)
    requires Seen(s, j) && Enabled(s, a) && (a.ZAdd? || a.Fetch? || a.Mark? || a.Finish? || a.Ack?)
    ensures Seen(Next(s, a), j) && (j in Next(s, a).store.leases ==> j in s.store.leases)
  {
    if a.ZAdd? {
      assert Fresh(Loc(s, a.p), Loc(s, a.p).job);
    }
    SeenMove(s, Next(s, a), a.p, j);
  }

  lemma SeenStop(s: Sys, a: Action, j: Job)
    requires Seen(s, j) && Enabled(s, a) && (a.Fail? || a.Crash?)
    ensures Seen(Next(s, a), j) && Next(s, a).store.leases == s.store.leases
  {
    SeenMove(s, Next(s, a), a.p, j);
  }

  lemma SeenElse(s: Sys, a: Action, j: Job)
    requires Seen(s, j) && Enabled(s, a) && (a.Announce? || a.EnqueueFails? || a.Expire?)
    ensures Seen(Next(s, a), j) && Next(s, a).store.leases == s.store.leases
  {
    assert !Fresh(Loc(s, 0), j);
    SeenMove(s, Next(s, a), 0, j);
  }

  /** Once leased, a job never comes back to the queue or to an unleased worker, and never gets another lease. */
  lemma SeenStep(s: Sys, a: Action, j: Job)
    requires Inv(s) && Seen(s, j) && Enabled(s, a)
    ensures Seen(Next(s, a), j) && (j in Next(s, a).store.leases ==> j in s.store.leases)
  {
    match a
    case Pop(p) => SeenPop(s, p, j);
    case Enqueue(_) => SeenPush(s, a, j);
    case RPush(_) => SeenPush(s, a, j);
    case Snapshot(_, _, _) => SeenReclaim(s, a, j);
    case ZRem(_) => SeenReclaim(s, a, j);
    case LRem(_) => SeenReclaim(s, a, j);
    case EndReclaim(_) => SeenReclaim(s, a, j);
    case Fail(_) => SeenStop(s, a, j);
    case Crash(_) => SeenStop(s, a, j);
    case Announce(_) => SeenElse(s, a, j);
    case EnqueueFails(_) => SeenElse(s, a, j);
    case Expire(_) => SeenElse(s, a, j);
    case _ => SeenWork(s, a, j);
  }

  lemma LeasedIsSeen(s: Sys, j: Job)
    requires Inv(s) && j in s.store.leases
    ensures Seen(s, j)
  {
    assert Spot(s.h, j) == Leased;
    forall p ensures !Fresh(Loc(s, p), j) {
      assert Fresh(Loc(s, p), j) <==> Spot(s.h, j) == AtWorker(p);
    }
  }

  // ---------------------------------------------------------------- The pass

  predicate InPass(l: Local) {
    l.Reclaiming? || l.Unleased? || l.Unlisted?
  }

  /** Process `p` is in the pass in every state of the run. */
  ghost predicate Passing(s: Sys, run: seq<Action>, p: Pid)
    requires ValidRun(s, run)
    decreases |run|
  {
    InPass(Loc(s, p)) && (run != [] ==> Passing(Next(s, run[0]), run[1..], p))
  }

  /** A job of the snapshot is still to be handled, or its lease is gone. */
  ghost predicate Handled(s: Sys, p: Pid, j: Job) {
    Seen(s, j) && InPass(Loc(s, p)) && (j in Loc(s, p).stale || j !in s.store.leases)
  }

  lemma HandledOwn(s: Sys, a: Action, p: Pid, j: Job)
    requires Handled(s, p, j) && Enabled(s, a) && (a == ZRem(p) || a == LRem(p) || a == RPush(p))
    requires Seen(Next(s, a), j)
    ensures Handled(Next(s, a), p, j)
  {
    if a == ZRem(p) {
      var stale := Loc(s, p).stale;
      assert j in stale ==> j == stale[0] || j in stale[1..];
    }
  }

  /** A step of another process, or one by which `p` would leave the pass. */
  lemma OtherKeepsPass(s: Sys, a: Action, p: Pid)
    requires Enabled(s, a) && InPass(Loc(s, p)) && InPass(Loc(Next(s, a), p))
    requires a != ZRem(p) && a != LRem(p) && a != RPush(p)
    ensures Loc(Next(s, a), p) == Loc(s, p)
  {
  }

  lemma HandledStep(s: Sys, a: Action, p: Pid, j: Job)
    requires Inv(s) && Handled(s, p, j) && Enabled(s, a) && InPass(Loc(Next(s, a), p))
    ensures Handled(Next(s, a), p, j)
  {
    SeenStep(s, a, j);
    if a == ZRem(p) || a == LRem(p) || a == RPush(p) {
      HandledOwn(s, a, p, j);
    } else {
      OtherKeepsPass(s, a, p);
    }
  }

  lemma {:induction false} HandledRun(s: Sys, run: seq<Action>, p: Pid, j: Job)
    requires Inv(s) && Handled(s, p, j) && ValidRun(s, run) && Passing(s, run, p)
    ensures Handled(Exec(s, run), p, j)
    decreases |run|
  {
    if run != [] {
      StepInv(s, run[0]);
      HandledStep(s, run[0], p, j);
      HandledRun(Next(s, run[0]), run[1..], p, j);
    }
  }

  /**
   A pass that gets to its end, whatever other processes do meanwhile, leaves none of the leases that it found
   expired, also where another reclaimer was faster.
   */
  lemma PassLeavesNone(requireRedis: bool, before: seq<Action>, p: Pid, now: int, stale: seq<Job>, during: seq<Action>)
    requires ValidRun(Init(requireRedis), before)
    requires Enabled(Exec(Init(requireRedis), before), Snapshot(p, now, stale))
    requires var s := Next(Exec(Init(requireRedis), before), Snapshot(p, now, stale));
             ValidRun(s, during) && Passing(s, during, p) && Loc(Exec(s, during), p) == Reclaiming([])
    ensures var s0 := Exec(Init(requireRedis), before);
            var e := Exec(Next(s0, Snapshot(p, now, stale)), during);
            forall j :: j in s0.store.leases && s0.store.leases[j] <= now ==> j !in e.store.leases
  {
    InitInv(requireRedis);
    RunInv(Init(requireRedis), before);
    var s0 := Exec(Init(requireRedis), before);
    var s := Next(s0, Snapshot(p, now, stale));
    StepInv(s0, Snapshot(p, now, stale));
    forall j | j in s0.store.leases && s0.store.leases[j] <= now ensures j !in Exec(s, during).store.leases {
      LeasedIsSeen(s, j);
      assert j in stale;
      HandledRun(s, during, p, j);
    }
  }
}
