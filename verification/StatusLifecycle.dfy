/**
 The stored status of an ingestion task.  Each attempt is processed once at most, in every run; the status of
 a task that was never requeued keeps its final value in every run, whatever stops, expires or is cancelled.
 */
module StatusLifecycle {
  import opened Collections
  import opened IngestionQueue

  ghost predicate Busy(s: Sys, t: Task) {
    t in s.statuses && s.statuses[t] == Processing
  }

  ghost predicate Final(s: Sys, t: Task) {
    t in s.statuses && (s.statuses[t] == Completed || s.statuses[t] == Failed)
  }

  /** The task is not enqueued, or still in its first attempt. */
  ghost predicate NeverRequeued(s: Sys, t: Task) {
    t in s.h.latest ==> s.h.latest[t] == 0
  }

  // ---------------------------------------------------------------- Each attempt is processed once

  /** The process has a job whose status it has not set to processing. */
  ghost predicate Early(l: Local) {
    l.Popped? || (l.Working? && (l.phase == Claimed || l.phase == HasContent || l.phase == NoContent))
  }

  ghost predicate Once(s: Sys) {
    && NoDup(s.h.started)
    && (forall j :: j in s.h.started ==> j in s.h.entered && j !in s.store.queue)
    && (forall p :: Early(Loc(s, p)) ==> Loc(s, p).job !in s.h.started)
    && (forall p, j :: Owns(Loc(s, p), j) ==> j !in s.h.acked)
  }

  /** Process `p` alone moves and starts at most the job it has; nothing is pushed. */
  lemma OnceMove(s: Sys, s': Sys, p: Pid)
    requires Once(s) && InvOwners(s)
    requires forall q: Pid :: q != p ==> Loc(s', q) == Loc(s, q)
    requires s'.h.entered == s.h.entered && forall j :: j in s'.store.queue ==> j in s.store.queue
    requires NoDup(s'.h.started)
    requires s'.h.started == s.h.started ||
             (Loc(s, p).Working? && s'.h.started == s.h.started + [Loc(s, p).job])
    requires s'.h.acked == s.h.acked || (Loc(s, p).Working? && s'.h.acked == s.h.acked + {Loc(s, p).job})
    requires forall j :: j in s'.h.started ==> j !in s'.store.queue
    requires Early(Loc(s', p)) ==> Loc(s', p).job !in s'.h.started
    requires forall j :: Owns(Loc(s', p), j) ==> j !in s'.h.acked
    ensures Once(s')
  {
    if Loc(s, p).Working? {
      assert Owns(Loc(s, p), Loc(s, p).job);
    }
    forall q | Early(Loc(s', q)) ensures Loc(s', q).job !in s'.h.started {
      if q != p {
        assert Owns(Loc(s, q), Loc(s, q).job);
      }
    }
    forall q, j | Owns(Loc(s', q), j) ensures j !in s'.h.acked {
      if q != p {
        assert Owns(Loc(s, q), j);
      }
    }
  }

  lemma OnceMark(s: Sys, p: Pid)
    requires InvOwners(s) && InvQueue(s) && Once(s) && Enabled(s, Mark(p))
    ensures Once(Next(s, Mark(p)))
  {
    var j := Loc(s, p).job;
    assert Owns(Loc(s, p), j) && Early(Loc(s, p));
    NoDupAppend(s.h.started, j);
    OnceMove(s, Next(s, Mark(p)), p);
  }

  lemma OnceAck(s: Sys, p: Pid)
    requires InvOwners(s) && Once(s) && Loc(s, p).Working?
    ensures Once(AckNext(s, p))
  {
    assert Owns(Loc(s, p), Loc(s, p).job);
    OnceMove(s, AckNext(s, p), p);
  }

  lemma OncePop(s: Sys, p: Pid)
    requires InvOwners(s) && InvQueue(s) && InvOutcome(s) && Once(s) && Loc(s, p).Claiming?
    ensures Once(PopNext(s, p))
  {
    if s.store.queue != [] {
      assert s.store.queue[|s.store.queue| - 1] in s.store.queue;
    }
    OnceMove(s, PopNext(s, p), p);
  }

  /** A push to the queue: the job is new, so it was not started. */
  lemma OncePush(s: Sys, s': Sys, j: Job)
    requires Once(s) && j !in s.h.entered
    requires s'.store.queue == s.store.queue + [j] && s'.h.entered == s.h.entered + [j]
    requires s'.h.started == s.h.started && s'.h.acked == s.h.acked
    requires forall q: Pid :: Loc(s', q) == Loc(s, q) || Loc(s', q).Reclaiming?
    ensures Once(s')
  {
    forall q, k | Owns(Loc(s', q), k) ensures k !in s'.h.acked {
      assert Owns(Loc(s, q), k);
    }
  }

  lemma OnceRPush(s: Sys, p: Pid)
    requires InvHeld(s) && InvEntered(s) && Once(s) && Loc(s, p).Unlisted?
    ensures Once(RPushNext(s, p))
  {
    assert Holds(Loc(s, p), Loc(s, p).job);
    assert Spot(s.h, Loc(s, p).job) == AtReclaimer(p);
    OncePush(s, RPushNext(s, p), Bumped(Loc(s, p).job));
  }

  lemma OnceEnqueue(s: Sys, t: Task)
    requires InvKeys(s) && InvEntered(s) && Once(s) && t in s.pending
    ensures Once(EnqueueNext(s, t))
  {
    OncePush(s, EnqueueNext(s, t), Job(t, 0));
  }

  /** Steps that start, acknowledge and push nothing, and give process `p` no job it did not have. */
  lemma OnceQuiet(s: Sys, s': Sys, p: Pid)
    requires InvOwners(s) && Once(s)
    requires s'.h.started == s.h.started && s'.h.acked == s.h.acked && s'.h.entered == s.h.entered
    requires forall q: Pid :: q != p ==> Loc(s', q) == Loc(s, q)
    requires forall j :: Owns(Loc(s', p), j) ==> Owns(Loc(s, p), j)
    requires Early(Loc(s', p)) ==> Early(Loc(s, p))
    requires s'.store.queue == s.store.queue
    ensures Once(s')
  {
    if Early(Loc(s', p)) {
      assert Owns(Loc(s', p), Loc(s', p).job);
    }
    OnceMove(s, s', p);
  }

  lemma OnceReclaimer(s: Sys, a: Action)
    requires InvOwners(s) && Once(s) && Enabled(s, a) && (a.Snapshot? || a.ZRem? || a.LRem? || a.EndReclaim?)
    ensures Once(Next(s, a))
  {
    OnceQuiet(s, Next(s, a), a.p);
  }

  lemma OnceWorker(s: Sys, a: Action)
    requires InvOwners(s) && Once(s) && Enabled(s, a) && (a.ZAdd? || a.Fetch? || a.Finish?)
    ensures Once(Next(s, a))
  {
    OnceQuiet(s, Next(s, a), a.p);
  }

  lemma OnceStop(s: Sys, a: Action)
    requires InvOwners(s) && Once(s) && Enabled(s, a) && (a.Fail? || a.Crash?)
    ensures Once(Next(s, a))
  {
    OnceQuiet(s, Next(s, a), a.p);
  }

  lemma OnceNoProcess(s: Sys, a: Action)
    requires InvOwners(s) && Once(s) && Enabled(s, a) && (a.Announce? || a.EnqueueFails? || a.Expire?)
    ensures Once(Next(s, a))
  {
    OnceQuiet(s, Next(s, a), 0);
  }

  lemma OnceStep(s: Sys, a: Action)
    requires Inv(s) && Once(s) && Enabled(s, a)
    ensures Once(Next(s, a))
  {
    match a
    case Mark(p) => OnceMark(s, p);
    case Ack(p) => OnceAck(s, p);
    case Pop(p) => OncePop(s, p);
    case Enqueue(t) => OnceEnqueue(s, t);
    case RPush(p) => OnceRPush(s, p);
    case Snapshot(_, _, _) => OnceReclaimer(s, a);
    case ZRem(_) => OnceReclaimer(s, a);
    case LRem(_) => OnceReclaimer(s, a);
    case EndReclaim(_) => OnceReclaimer(s, a);
    case Fail(_) => OnceStop(s, a);
    case Crash(_) => OnceStop(s, a);
    case ZAdd(_, _) => OnceWorker(s, a);
    case Fetch(_) => OnceWorker(s, a);
    case Finish(_, _) => OnceWorker(s, a);
    case _ => OnceNoProcess(s, a);
  }

  lemma {:induction false} OnceRun(s: Sys, run: seq<Action>)
    requires Inv(s) && Once(s) && ValidRun(s, run)
    ensures Inv(Exec(s, run)) && Once(Exec(s, run))
    decreases |run|
  {
    if run != [] {
      StepInv(s, run[0]);
      OnceStep(s, run[0]);
      OnceRun(Next(s, run[0]), run[1..]);
    }
  }

  /** How often processing of task `t` was started. */
  function StartsOf(started: seq<Job>, t: Task): nat
    decreases |started|
  {
    if started == [] then 0
    else StartsOf(started[..|started| - 1], t) + if started[|started| - 1].task == t then 1 else 0
  }

  function AttemptsOf(started: seq<Job>, t: Task): set<Job> {
    set j | j in started && j.task == t
  }

  lemma {:induction false} StartsAreAttempts(started: seq<Job>, t: Task)
    requires NoDup(started)
    ensures StartsOf(started, t) == |AttemptsOf(started, t)|
    decreases |started|
  {
    if started != [] {
      var n := |started| - 1;
      NoDupDropLast(started);
      StartsAreAttempts(started[..n], t);
      var before, last := AttemptsOf(started[..n], t), started[n];
      assert AttemptsOf(started, t) == if last.task == t then before + {last} else before;
    }
  }

  lemma {:induction false} FewAttempts(jobs: set<Job>, t: Task, n: nat)
    requires forall j :: j in jobs ==> j.task == t && j.attempt < n
    ensures |jobs| <= n
    decreases n
  {
    if n == 0 {
      assert jobs == {};
    } else {
      FewAttempts(jobs - {Job(t, n - 1)}, t, n - 1);
    }
  }

  /**
   In every run each attempt is processed once at most and no acknowledged attempt is worked on again, so a
   task is processed at most once more than it was requeued.
   */
  lemma AttemptsProcessedOnce(requireRedis: bool, run: seq<Action>)
    requires ValidRun(Init(requireRedis), run)
    ensures var s := Exec(Init(requireRedis), run);
            && NoDup(s.h.started)
            && (forall j :: j in s.h.started ==> j.task in s.h.latest && j.attempt <= s.h.latest[j.task])
            && (forall p, j :: Owns(Loc(s, p), j) ==> j !in s.h.acked)
            && (forall t :: StartsOf(s.h.started, t) <= if t in s.h.latest then s.h.latest[t] + 1 else 0)
  {
    InitInv(requireRedis);
    OnceRun(Init(requireRedis), run);
    var s := Exec(Init(requireRedis), run);
    forall t ensures StartsOf(s.h.started, t) <= if t in s.h.latest then s.h.latest[t] + 1 else 0 {
      StartsAreAttempts(s.h.started, t);
      FewAttempts(AttemptsOf(s.h.started, t), t, if t in s.h.latest then s.h.latest[t] + 1 else 0);
    }
  }

  // ---------------------------------------------------------------- The status of a first attempt

  /** The status while the first attempt of `t` is pending, queued or at a worker. */
  ghost predicate FirstFits(s: Sys, t: Task) {
    && (t in s.pending || Job(t, 0) in s.store.queue ==> Busy(s, t))
    && forall p :: Owns(Loc(s, p), Job(t, 0)) ==>
         if Loc(s, p).Working? && Loc(s, p).phase == Written then Final(s, t) else Busy(s, t)
  }

  ghost predicate Tracked(s: Sys, t: Task) {
    NeverRequeued(s, t) ==> FirstFits(s, t)
  }

  /** The step changes a status other than that of `t`, if any, and no process gets a job of `t` or finishes one. */
  lemma TrackedQuiet(s: Sys, s': Sys, t: Task)
    requires Tracked(s, t) && (NeverRequeued(s', t) ==> NeverRequeued(s, t))
    requires t in s.statuses <==> t in s'.statuses
    requires t in s.statuses ==> s'.statuses[t] == s.statuses[t]
    requires t in s'.pending ==> t in s.pending
    requires Job(t, 0) in s'.store.queue ==> Job(t, 0) in s.store.queue || t in s.pending
    requires forall p :: Owns(Loc(s', p), Job(t, 0)) ==>
               || Loc(s', p) == Loc(s, p)
               || (&& Owns(Loc(s, p), Job(t, 0))
                   && !(Loc(s, p).Working? && Loc(s, p).phase == Written)
                   && !(Loc(s', p).Working? && Loc(s', p).phase == Written))
    ensures Tracked(s', t)
  {
  }

  /** Before it is enqueued nobody has a job of `t`. */
  lemma TrackedAnnounce(s: Sys, a: Action, t: Task)
    requires Inv(s) && Tracked(s, t) && Enabled(s, a) && (a.Announce? || a.EnqueueFails?)
    ensures Tracked(Next(s, a), t)
    ensures Final(s, t) ==> Final(Next(s, a), t) && Next(s, a).statuses[t] == s.statuses[t]
  {
    var s' := Next(s, a);
    if a.t == t {
      assert t !in s.h.latest && Job(t, 0) !in s.h.entered;
      assert Spot(s.h, Job(t, 0)) != Queued;
      forall p ensures !Owns(Loc(s', p), Job(t, 0)) {
        assert Loc(s', p) == Loc(s, p);
      }
    } else {
      assert forall p :: Loc(s', p) == Loc(s, p);
    }
  }

  lemma TrackedQueue(s: Sys, a: Action, t: Task)
    requires Inv(s) && Tracked(s, t) && Enabled(s, a) && (a.Enqueue? || a.RPush?)
    ensures Tracked(Next(s, a), t)
  {
    var s' := Next(s, a);
    forall p | Owns(Loc(s', p), Job(t, 0)) ensures Loc(s', p) == Loc(s, p) {
    }
    if a.RPush? && Loc(s, a.p).job.task == t {
      assert Holds(Loc(s, a.p), Loc(s, a.p).job);
      assert Spot(s.h, Loc(s, a.p).job) == AtReclaimer(a.p);
    } else {
      TrackedQuiet(s, s', t);
    }
  }

  lemma TrackedPop(s: Sys, p: Pid, t: Task)
    requires InvOwners(s) && InvQueue(s) && Tracked(s, t) && Loc(s, p).Claiming?
    ensures Tracked(PopNext(s, p), t)
  {
    var s' := PopNext(s, p);
    if s.store.queue == [] || s.store.queue[|s.store.queue| - 1] != Job(t, 0) {
      TrackedQuiet(s, s', t);
    } else {
      assert Job(t, 0) in s.store.queue;
      assert forall q :: !Owns(Loc(s, q), Job(t, 0));
      assert forall q: Pid :: q != p ==> Loc(s', q) == Loc(s, q);
    }
  }

  lemma FirstOnly(s: Sys, p: Pid, t: Task)
    requires InvKeys(s) && InvOwners(s) && InvEntered(s) && InvQueue(s)
    requires Loc(s, p).Working? && Loc(s, p).job.task == t && NeverRequeued(s, t)
    ensures Loc(s, p).job == Job(t, 0) && Owns(Loc(s, p), Job(t, 0))
    ensures Job(t, 0) !in s.store.queue && t !in s.pending
    ensures forall q :: q != p ==> !Owns(Loc(s, q), Job(t, 0))
  {
    assert Owns(Loc(s, p), Loc(s, p).job);
  }

  /** The owner of a job writes a status. */
  lemma TrackedWrite(s: Sys, a: Action, t: Task)
    requires Inv(s) && Tracked(s, t) && Enabled(s, a) && (a.Mark? || a.Finish?)
    ensures Tracked(Next(s, a), t)
    ensures Final(s, t) && NeverRequeued(s, t) ==> Final(Next(s, a), t) && Next(s, a).statuses[t] == s.statuses[t]
  {
    if Loc(s, a.p).job.task == t && NeverRequeued(s, t) {
      FirstOnly(s, a.p, t);
      TrackedOwn(s, a, t);
    } else {
      TrackedOther(s, a, t);
    }
  }

  lemma TrackedOwn(s: Sys, a: Action, t: Task)
    requires FirstFits(s, t) && Enabled(s, a) && (a.Mark? || a.Finish?) && Loc(s, a.p).job == Job(t, 0)
    requires Owns(Loc(s, a.p), Job(t, 0)) && Job(t, 0) !in s.store.queue && t !in s.pending
    requires forall q :: q != a.p ==> !Owns(Loc(s, q), Job(t, 0))
    ensures FirstFits(Next(s, a), t) && !Final(s, t)
  {
    var s' := Next(s, a);
    forall q | Owns(Loc(s', q), Job(t, 0)) ensures q == a.p {
      assert q != a.p ==> Loc(s', q) == Loc(s, q);
    }
  }

  lemma TrackedOther(s: Sys, a: Action, t: Task)
    requires Tracked(s, t) && Enabled(s, a) && (a.Mark? || a.Finish?)
    requires Loc(s, a.p).job.task != t || !NeverRequeued(s, t)
    ensures Tracked(Next(s, a), t)
    ensures Loc(s, a.p).job.task != t && Final(s, t) ==>
              Final(Next(s, a), t) && Next(s, a).statuses[t] == s.statuses[t]
  {
    if Loc(s, a.p).job.task != t {
      TrackedQuiet(s, Next(s, a), t);
    }
  }

  lemma TrackedReclaimer(s: Sys, a: Action, t: Task)
    requires Tracked(s, t) && Enabled(s, a) && (a.Snapshot? || a.ZRem? || a.LRem? || a.EndReclaim? || a.Expire?)
    ensures Tracked(Next(s, a), t)
  {
    TrackedQuiet(s, Next(s, a), t);
  }

  lemma TrackedWorker(s: Sys, a: Action, t: Task)
    requires Tracked(s, t) && Enabled(s, a) && (a.ZAdd? || a.Fetch? || a.Ack? || a.Fail? || a.Crash?)
    ensures Tracked(Next(s, a), t)
  {
    TrackedQuiet(s, Next(s, a), t);
  }

  /** What a step may do to the attempts and the status of `t`. */
  ghost predicate KeepsFinal(s: Sys, s': Sys, t: Task) {
    && (NeverRequeued(s', t) ==> NeverRequeued(s, t))
    && (Final(s, t) && NeverRequeued(s, t) ==> Final(s', t) && s'.statuses[t] == s.statuses[t])
  }

  lemma QuietKeepsFinal(s: Sys, a: Action, t: Task)
    requires InvKeys(s) && InvHeld(s) && Enabled(s, a)
    requires !(a.Announce? || a.EnqueueFails? || a.Mark? || a.Finish?)
    ensures KeepsFinal(s, Next(s, a), t)
  {
    if a.RPush? {
      assert Holds(Loc(s, a.p), Loc(s, a.p).job);
      assert Spot(s.h, Loc(s, a.p).job) == AtReclaimer(a.p);
    }
  }

  lemma TrackedStep(s: Sys, a: Action, t: Task)
    requires Inv(s) && Tracked(s, t) && Enabled(s, a)
    ensures Tracked(Next(s, a), t) && KeepsFinal(s, Next(s, a), t)
  {
    if a.Announce? || a.EnqueueFails? {
      TrackedAnnounce(s, a, t);
    } else if a.Mark? || a.Finish? {
      TrackedWrite(s, a, t);
    } else {
      QuietKeepsFinal(s, a, t);
      match a
      case Enqueue(_) => TrackedQueue(s, a, t);
      case RPush(_) => TrackedQueue(s, a, t);
      case Pop(p) => TrackedPop(s, p, t);
      case ZAdd(_, _) => TrackedWorker(s, a, t);
      case Fetch(_) => TrackedWorker(s, a, t);
      case Ack(_) => TrackedWorker(s, a, t);
      case Fail(_) => TrackedWorker(s, a, t);
      case Crash(_) => TrackedWorker(s, a, t);
      case _ => TrackedReclaimer(s, a, t);
    }
  }

  lemma {:induction false} TrackedRun(s: Sys, run: seq<Action>, t: Task)
    requires Inv(s) && Tracked(s, t) && ValidRun(s, run)
    ensures Tracked(Exec(s, run), t)
    ensures NeverRequeued(Exec(s, run), t) ==>
              && NeverRequeued(s, t)
              && (Final(s, t) ==> Final(Exec(s, run), t) && Exec(s, run).statuses[t] == s.statuses[t])
    decreases |run|
  {
    if run != [] {
      StepInv(s, run[0]);
      TrackedStep(s, run[0], t);
      TrackedRun(Next(s, run[0]), run[1..], t);
    }
  }

  /**
   Status lifecycle: in every run, a task that was never requeued is processed once at most, and once its
   status is completed or failed it stays what it is.
   */
  lemma StatusIsFinal(requireRedis: bool, first: seq<Action>, rest: seq<Action>, t: Task)
    requires ValidRun(Init(requireRedis), first) && ValidRun(Exec(Init(requireRedis), first), rest)
    ensures var mid := Exec(Init(requireRedis), first);
            var end := Exec(mid, rest);
            NeverRequeued(end, t) ==>
              && (forall a, b ::
                    0 <= a < b < |end.h.started| && end.h.started[a].task == t ==> end.h.started[b].task != t)
              && (Final(mid, t) ==> Final(end, t) && end.statuses[t] == mid.statuses[t])
  {
    var mid := Exec(Init(requireRedis), first);
    var end := Exec(mid, rest);
    InitInv(requireRedis);
    OnceRun(Init(requireRedis), first);
    TrackedRun(Init(requireRedis), first, t);
    OnceRun(mid, rest);
    TrackedRun(mid, rest, t);
    forall a | 0 <= a < |end.h.started| && end.h.started[a].task == t && NeverRequeued(end, t)
      ensures end.h.started[a] == Job(t, 0)
    {
      assert end.h.started[a] in end.h.started;
    }
  }

  // ---------------------------------------------------------------- Acknowledged means final

  /**
   No worker on a job of `t` is interrupted, by cancellation or by an exception: it acknowledges after writing the
   final status.
   */
  ghost predicate NotInterrupted(s: Sys, run: seq<Action>, t: Task)
    requires ValidRun(s, run)
    decreases |run|
  {
    run == [] ||
    (&& (run[0].Ack? && Loc(s, run[0].p).job.task == t ==> Loc(s, run[0].p).phase == Written)
     && NotInterrupted(Next(s, run[0]), run[1..], t))
  }

  ghost predicate Started(s: Sys, t: Task) {
    Job(t, 0) in s.h.started || t in s.h.expired
  }

  ghost predicate AckFits(s: Sys, t: Task) {
    NeverRequeued(s, t) ==>
      && (forall j :: j in s.h.acked && j.task == t ==> Final(s, t) && Started(s, t))
      && (forall p :: Loc(s, p).Working? && Loc(s, p).job == Job(t, 0) ==>
            && (Loc(s, p).phase == Running || Loc(s, p).phase == Written ==> Started(s, t))
            && (Loc(s, p).phase == NoContent ==> t in s.h.expired))
  }

  /** The payload of a first attempt is only missing if it expired. */
  lemma AckFetch(s: Sys, p: Pid, t: Task)
    requires Inv(s) && Once(s) && AckFits(s, t) && Enabled(s, Fetch(p))
    ensures AckFits(Next(s, Fetch(p)), t)
  {
    var j := Loc(s, p).job;
    assert Owns(Loc(s, p), j);
    if j == Job(t, 0) && NeverRequeued(s, t) && t !in s.h.expired {
      assert j in s.h.entered;
      forall k | k in s.h.acked ensures k.task != t {
        assert k in s.h.entered;
      }
      assert t in s.store.payloads;
    }
    assert forall q :: q != p ==> Loc(Next(s, Fetch(p)), q) == Loc(s, q);
  }

  lemma AckAck(s: Sys, p: Pid, t: Task)
    requires Inv(s) && Tracked(s, t) && AckFits(s, t) && Loc(s, p).Working?
    requires Loc(s, p).job.task == t ==> Loc(s, p).phase == Written
    ensures AckFits(AckNext(s, p), t)
  {
    assert Owns(Loc(s, p), Loc(s, p).job);
    assert forall q :: q != p ==> Loc(AckNext(s, p), q) == Loc(s, q);
  }

  /** Process `p` alone moves; what it does to its own job fits, and nothing is acknowledged. */
  lemma AckMove(s: Sys, s': Sys, p: Pid, t: Task)
    requires AckFits(s, t) && KeepsFinal(s, s', t)
    requires forall q: Pid :: q != p ==> Loc(s', q) == Loc(s, q)
    requires s'.h.acked == s.h.acked && s.h.expired <= s'.h.expired
    requires forall j :: j in s.h.started ==> j in s'.h.started
    requires Loc(s', p).Working? && Loc(s', p).job == Job(t, 0) && NeverRequeued(s, t) ==>
               && (Loc(s', p).phase == Running || Loc(s', p).phase == Written ==> Started(s', t))
               && (Loc(s', p).phase == NoContent ==> t in s'.h.expired)
    ensures AckFits(s', t)
  {
  }

  lemma AckWrite(s: Sys, a: Action, t: Task)
    requires AckFits(s, t) && Enabled(s, a) && (a.Mark? || a.Finish?) && KeepsFinal(s, Next(s, a), t)
    ensures AckFits(Next(s, a), t)
  {
    AckMove(s, Next(s, a), a.p, t);
  }

  lemma AckReclaimer(s: Sys, a: Action, t: Task)
    requires AckFits(s, t) && Enabled(s, a) && KeepsFinal(s, Next(s, a), t)
    requires a.Snapshot? || a.ZRem? || a.LRem? || a.RPush? || a.EndReclaim?
    ensures AckFits(Next(s, a), t)
  {
    AckMove(s, Next(s, a), a.p, t);
  }

  lemma AckClaim(s: Sys, a: Action, t: Task)
    requires AckFits(s, t) && Enabled(s, a) && KeepsFinal(s, Next(s, a), t)
    requires a.Pop? || a.ZAdd? || a.Fail? || a.Crash?
    ensures AckFits(Next(s, a), t)
  {
    AckMove(s, Next(s, a), a.p, t);
  }

  lemma AckNoProcess(s: Sys, a: Action, t: Task)
    requires AckFits(s, t) && Enabled(s, a) && KeepsFinal(s, Next(s, a), t)
    requires a.Announce? || a.Enqueue? || a.EnqueueFails? || a.Expire?
    ensures AckFits(Next(s, a), t)
  {
    assert forall q :: Loc(Next(s, a), q) == Loc(s, q);
    AckMove(s, Next(s, a), 0, t);
  }

  lemma AckStep(s: Sys, a: Action, t: Task)
    requires Inv(s) && Once(s) && Tracked(s, t) && AckFits(s, t) && Enabled(s, a)
    requires a.Ack? && Loc(s, a.p).job.task == t ==> Loc(s, a.p).phase == Written
    ensures AckFits(Next(s, a), t)
  {
    TrackedStep(s, a, t);
    match a
    case Fetch(p) => AckFetch(s, p, t);
    case Ack(p) => AckAck(s, p, t);
    case Mark(_) => AckWrite(s, a, t);
    case Finish(_, _) => AckWrite(s, a, t);
    case Pop(_) => AckClaim(s, a, t);
    case ZAdd(_, _) => AckClaim(s, a, t);
    case Fail(_) => AckClaim(s, a, t);
    case Crash(_) => AckClaim(s, a, t);
    case Announce(_) => AckNoProcess(s, a, t);
    case Enqueue(_) => AckNoProcess(s, a, t);
    case EnqueueFails(_) => AckNoProcess(s, a, t);
    case Expire(_) => AckNoProcess(s, a, t);
    case _ => AckReclaimer(s, a, t);
  }

  lemma {:induction false} AckRun(s: Sys, run: seq<Action>, t: Task)
    requires Inv(s) && Once(s) && Tracked(s, t) && AckFits(s, t) && ValidRun(s, run) && NotInterrupted(s, run, t)
    ensures AckFits(Exec(s, run), t)
    decreases |run|
  {
    if run != [] {
      StepInv(s, run[0]);
      OnceStep(s, run[0]);
      TrackedStep(s, run[0], t);
      AckStep(s, run[0], t);
      AckRun(Next(s, run[0]), run[1..], t);
    }
  }

  /** The first attempt is acknowledged and the status still says processing. */
  ghost predicate Stuck(s: Sys, t: Task) {
    Job(t, 0) in s.h.acked && Busy(s, t)
  }

  lemma InterruptedAckSticks(s: Sys, p: Pid, t: Task)
    requires Inv(s) && Tracked(s, t) && NeverRequeued(s, t)
    requires Loc(s, p).Working? && Loc(s, p).job.task == t && Loc(s, p).phase != Written
    ensures Stuck(AckNext(s, p), t)
  {
    FirstOnly(s, p, t);
  }

  /** Nobody has the acknowledged job any more, so nobody writes the status. */
  lemma StuckStays(s: Sys, a: Action, t: Task)
    requires Inv(s) && Once(s) && Enabled(s, a) && NeverRequeued(s, t) && Stuck(s, t)
    ensures Stuck(Next(s, a), t)
  {
    assert Job(t, 0) in s.h.entered;
    if (a.Mark? || a.Finish?) && Loc(s, a.p).job.task == t {
      FirstOnly(s, a.p, t);
    }
  }

  lemma {:induction false} StuckRun(s: Sys, run: seq<Action>, t: Task)
    requires Inv(s) && Once(s) && Tracked(s, t) && ValidRun(s, run) && NeverRequeued(Exec(s, run), t)
    requires Stuck(s, t) || !NotInterrupted(s, run, t)
    ensures Stuck(Exec(s, run), t)
    decreases |run|
  {
    if run != [] {
      var a := run[0];
      StepInv(s, a);
      OnceStep(s, a);
      TrackedStep(s, a, t);
      TrackedRun(Next(s, a), run[1..], t);
      if Stuck(s, t) {
        StuckStays(s, a, t);
      } else if a.Ack? && Loc(s, a.p).job.task == t && Loc(s, a.p).phase != Written {
        InterruptedAckSticks(s, a.p, t);
      }
      StuckRun(Next(s, a), run[1..], t);
    }
  }

  /**
   In every run: an acknowledged task that was never requeued has a final status exactly when its worker was not
   interrupted, and otherwise it says processing; uninterrupted, it was processed unless its payload expired.
   */
  lemma AcknowledgedIsFinal(requireRedis: bool, run: seq<Action>, t: Task)
    requires ValidRun(Init(requireRedis), run)
    ensures var s := Exec(Init(requireRedis), run);
            var whole := NotInterrupted(Init(requireRedis), run, t);
            NeverRequeued(s, t) && Job(t, 0) in s.h.acked ==>
              && (Final(s, t) <==> whole) && (Busy(s, t) <==> !whole)
              && (whole ==> Job(t, 0) in s.h.started || t in s.h.expired)
  {
    InitInv(requireRedis);
    if NeverRequeued(Exec(Init(requireRedis), run), t) {
      if NotInterrupted(Init(requireRedis), run, t) {
        AckRun(Init(requireRedis), run, t);
      } else {
        StuckRun(Init(requireRedis), run, t);
      }
    }
  }

  // ---------------------------------------------------------------- When a task is never requeued

  /**
   Every pass over the leases that runs while the first attempt of `t` is leased reads a clock less than the
   lease time after its ZADD, whose clock is `claimed`.
   */
  ghost predicate InTime(s: Sys, run: seq<Action>, t: Task, claimed: int)
    requires ValidRun(s, run)
    decreases |run|
  {
    run == [] ||
    var a := run[0];
    && (a.Snapshot? && Job(t, 0) in s.store.leases ==> a.now < claimed + 900)
    && InTime(Next(s, a), run[1..], t, if a.ZAdd? && Loc(s, a.p).job == Job(t, 0) then a.now else claimed)
  }

  ghost predicate Lists(l: Local, j: Job) {
    (l.Reclaiming? || l.Unleased? || l.Unlisted?) && j in l.stale
  }

  ghost predicate LeaseRuns(s: Sys, t: Task, claimed: int) {
    && NeverRequeued(s, t)
    && (Job(t, 0) in s.store.leases ==> s.store.leases[Job(t, 0)] == claimed + LEASE_TIMEOUT_SECONDS)
    && forall p :: !Lists(Loc(s, p), Job(t, 0)) && !Holds(Loc(s, p), Job(t, 0))
  }

  lemma InTimeReclaim(s: Sys, a: Action, t: Task, claimed: int)
    requires InvHeld(s) && LeaseRuns(s, t, claimed) && Enabled(s, a) && (a.ZRem? || a.LRem? || a.RPush?)
    ensures LeaseRuns(Next(s, a), t, claimed)
  {
    var s' := Next(s, a);
    var l := Loc(s, a.p);
    assert !Lists(l, Job(t, 0));
    if a.ZRem? {
      assert l.stale[0] in l.stale;
    }
    if a.RPush? {
      assert Holds(l, l.job);
      assert Spot(s.h, l.job) == AtReclaimer(a.p);
    }
    LeaseRunsMove(s, s', a.p, t, claimed, claimed);
  }

  /** Process `p` alone moves, and neither lists nor holds the first attempt of `t`. */
  lemma LeaseRunsMove(s: Sys, s': Sys, p: Pid, t: Task, claimed: int, claimed': int)
    requires LeaseRuns(s, t, claimed) && NeverRequeued(s', t)
    requires forall q: Pid :: q != p ==> Loc(s', q) == Loc(s, q)
    requires !Lists(Loc(s', p), Job(t, 0)) && !Holds(Loc(s', p), Job(t, 0))
    requires Job(t, 0) in s'.store.leases ==> s'.store.leases[Job(t, 0)] == claimed' + LEASE_TIMEOUT_SECONDS
    ensures LeaseRuns(s', t, claimed')
  {
  }

  lemma InTimeSnapshot(s: Sys, a: Action, t: Task, claimed: int)
    requires LeaseRuns(s, t, claimed) && Enabled(s, a) && (a.Snapshot? || a.EndReclaim?)
    requires a.Snapshot? && Job(t, 0) in s.store.leases ==> a.now < claimed + LEASE_TIMEOUT_SECONDS
    ensures LeaseRuns(Next(s, a), t, claimed)
  {
    LeaseRunsMove(s, Next(s, a), a.p, t, claimed, claimed);
  }

  lemma InTimeWorker(s: Sys, a: Action, t: Task, claimed: int)
    requires LeaseRuns(s, t, claimed) && Enabled(s, a)
    requires a.Pop? || a.ZAdd? || a.Fetch? || a.Mark? || a.Finish? || a.Ack?
    ensures LeaseRuns(Next(s, a), t, if a.ZAdd? && Loc(s, a.p).job == Job(t, 0) then a.now else claimed)
  {
    var claimed' := if a.ZAdd? && Loc(s, a.p).job == Job(t, 0) then a.now else claimed;
    LeaseRunsMove(s, Next(s, a), a.p, t, claimed, claimed');
  }

  lemma InTimeElse(s: Sys, a: Action, t: Task, claimed: int)
    requires LeaseRuns(s, t, claimed) && Enabled(s, a)
    requires a.Announce? || a.Enqueue? || a.EnqueueFails? || a.Expire? || a.Fail? || a.Crash?
    ensures LeaseRuns(Next(s, a), t, claimed)
  {
    var p := if a.Fail? || a.Crash? then a.p else 0;
    assert !Lists(Loc(s, p), Job(t, 0)) && !Holds(Loc(s, p), Job(t, 0));
    LeaseRunsMove(s, Next(s, a), p, t, claimed, claimed);
  }

  lemma InTimeStep(s: Sys, a: Action, t: Task, claimed: int)
    requires Inv(s) && LeaseRuns(s, t, claimed) && Enabled(s, a)
    requires a.Snapshot? && Job(t, 0) in s.store.leases ==> a.now < claimed + LEASE_TIMEOUT_SECONDS
    ensures LeaseRuns(Next(s, a), t, if a.ZAdd? && Loc(s, a.p).job == Job(t, 0) then a.now else claimed)
  {
    if a.ZRem? || a.LRem? || a.RPush? {
      InTimeReclaim(s, a, t, claimed);
    } else if a.Snapshot? || a.EndReclaim? {
      InTimeSnapshot(s, a, t, claimed);
    } else if a.Announce? || a.Enqueue? || a.EnqueueFails? || a.Expire? || a.Fail? || a.Crash? {
      InTimeElse(s, a, t, claimed);
    } else {
      InTimeWorker(s, a, t, claimed);
    }
  }

  lemma {:induction false} InTimeRun(s: Sys, run: seq<Action>, t: Task, claimed: int)
    requires Inv(s) && LeaseRuns(s, t, claimed) && ValidRun(s, run) && InTime(s, run, t, claimed)
    ensures NeverRequeued(Exec(s, run), t)
    decreases |run|
  {
    if run != [] {
      var a := run[0];
      StepInv(s, a);
      InTimeStep(s, a, t, claimed);
      InTimeRun(Next(s, a), run[1..], t, if a.ZAdd? && Loc(s, a.p).job == Job(t, 0) then a.now else claimed);
    }
  }

  /** A task whose lease is never seen 900 seconds old is never requeued, whatever happens to other tasks. */
  lemma NotRequeuedInTime(requireRedis: bool, run: seq<Action>, t: Task, start: int)
    requires ValidRun(Init(requireRedis), run) && InTime(Init(requireRedis), run, t, start)
    ensures NeverRequeued(Exec(Init(requireRedis), run), t)
  {
    InitInv(requireRedis);
    InTimeRun(Init(requireRedis), run, t, start);
  }
}
