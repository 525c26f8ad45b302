/** What every run of the ingestion queue guarantees. */
module QueueTheorems {
  import opened Collections
  import opened IngestionQueue

  // ---------------------------------------------------------------- Job conservation

  /** The places from which a job can still be processed. */
  datatype Copy = InQueue | BeingClaimed(p: Pid) | InLease | BeingRequeued(p: Pid)

  ghost predicate IsCopy(s: Sys, j: Job, c: Copy) {
    match c
    case InQueue => j in s.store.queue
    case BeingClaimed(p) => Fresh(Loc(s, p), j) && j in s.store.processing
    case InLease => j in s.store.leases && j in s.store.processing
    case BeingRequeued(p) => Holds(Loc(s, p), j)
  }

  lemma CopyIsSpot(s: Sys, j: Job, c: Copy)
    requires Inv(s)
    ensures IsCopy(s, j, c) <==>
            Spot(s.h, j) == (match c case InQueue => Queued case BeingClaimed(p) => AtWorker(p)
                                     case InLease => Leased case BeingRequeued(p) => AtReclaimer(p))
  {
  }

  function CopyAt(sp: Place): Copy
    requires !sp.Absent? && !sp.Gone?
  {
    match sp
    case Queued => InQueue
    case AtWorker(p) => BeingClaimed(p)
    case Leased => InLease
    case AtReclaimer(p) => BeingRequeued(p)
  }

  ghost predicate Finished(s: Sys, j: Job) {
    j in s.h.acked || j in s.h.lost
  }

  ghost predicate AtMostOneCopy(s: Sys) {
    && NoDup(s.store.queue) && NoDup(s.store.processing)
    && forall j, c, k, d :: IsCopy(s, j, c) && IsCopy(s, k, d) && j.task == k.task ==> j == k && c == d
  }

  ghost predicate NewestAccountedFor(s: Sys, t: Task)
    requires t in s.h.latest
  {
    var j := Newest(s.h, t);
    && ((exists c :: IsCopy(s, j, c)) || Finished(s, j))
    && (j in s.h.lost ==> !exists c :: IsCopy(s, j, c))
    && (j in s.h.acked ==> forall c :: IsCopy(s, j, c) ==> c.BeingRequeued?)
  }

  lemma InvConserves(s: Sys)
    requires Inv(s)
    ensures AtMostOneCopy(s)
    ensures forall t :: t in s.h.latest ==> NewestAccountedFor(s, t)
  {
    forall j, c, k, d | IsCopy(s, j, c) && IsCopy(s, k, d) && j.task == k.task ensures j == k && c == d {
      CopyIsSpot(s, j, c);
      CopyIsSpot(s, k, d);
    }
    forall t | t in s.h.latest ensures NewestAccountedFor(s, t) {
      var j := Newest(s.h, t);
      forall c ensures IsCopy(s, j, c) ==> !Spot(s.h, j).Gone? && c == CopyAt(Spot(s.h, j)) {
        CopyIsSpot(s, j, c);
      }
      if !Spot(s.h, j).Gone? {
        CopyIsSpot(s, j, CopyAt(Spot(s.h, j)));
      }
    }
  }

  /**
   Job conservation: in every run, with any number of workers that may raise or stop anywhere, each task
   has at most one live copy, and it has one unless its newest attempt was acknowledged or was lost by a
   process that stopped between two Redis commands.
   */
  lemma JobConservation(requireRedis: bool, run: seq<Action>)
    requires ValidRun(Init(requireRedis), run)
    ensures var s := Exec(Init(requireRedis), run);
            AtMostOneCopy(s) && forall t :: t in s.h.latest ==> NewestAccountedFor(s, t)
  {
    InitInv(requireRedis);
    RunInv(Init(requireRedis), run);
    InvConserves(Exec(Init(requireRedis), run));
  }

  /** The job of a process that stops between BRPOPLPUSH and ZADD, between ZREM and RPUSH, or without a lease. */
  function StoppedJob(s: Sys, a: Action): Option<Job> {
    if a.Crash? then LossOnStop(Loc(s, a.p)) else if a.Fail? then ErrorLoss(s, a.p) else None
  }

  predicate StopsInWindow(s: Sys, a: Action) {
    StoppedJob(s, a).Some?
  }

  ghost predicate NeverStopsInWindow(s: Sys, run: seq<Action>)
    requires ValidRun(s, run)
    decreases |run|
  {
    run == [] || (!StopsInWindow(s, run[0]) && NeverStopsInWindow(Next(s, run[0]), run[1..]))
  }

  lemma {:induction false} LostGrows(s: Sys, run: seq<Action>)
    requires ValidRun(s, run)
    ensures s.h.lost <= Exec(s, run).h.lost
    ensures Exec(s, run).h.lost == s.h.lost || !NeverStopsInWindow(s, run)
    decreases |run|
  {
    if run != [] {
      LostGrows(Next(s, run[0]), run[1..]);
    }
  }

  lemma {:induction false} LostOnlyByStops(s: Sys, run: seq<Action>)
    requires ValidRun(s, run) && s.h.lost == {}
    ensures Exec(s, run).h.lost == {} <==> NeverStopsInWindow(s, run)
    decreases |run|
  {
    if run != [] {
      var s1 := Next(s, run[0]);
      if StopsInWindow(s, run[0]) {
        LostGrows(s1, run[1..]);
        assert s1.h.lost != {} by {
          assert StoppedJob(s, run[0]).value in s1.h.lost;
        }
      } else {
        LostOnlyByStops(s1, run[1..]);
      }
    }
  }

  /** Without a stop inside one of the windows every unacknowledged task keeps a live copy. */
  lemma NoLossWithoutStops(requireRedis: bool, run: seq<Action>)
    requires ValidRun(Init(requireRedis), run)
    ensures var s := Exec(Init(requireRedis), run);
            (s.h.lost == {} <==> NeverStopsInWindow(Init(requireRedis), run))
            && (NeverStopsInWindow(Init(requireRedis), run) ==>
                  forall t :: t in s.h.latest ==>
                                Newest(s.h, t) in s.h.acked || exists c :: IsCopy(s, Newest(s.h, t), c))
  {
    LostOnlyByStops(Init(requireRedis), run);
    JobConservation(requireRedis, run);
    var s := Exec(Init(requireRedis), run);
    forall t | t in s.h.latest && s.h.lost == {}
      ensures Newest(s.h, t) in s.h.acked || exists c :: IsCopy(s, Newest(s.h, t), c)
    {
      assert NewestAccountedFor(s, t);
    }
  }

  /** A process stopped inside a window while it had job `j`. */
  ghost predicate StoppedWith(s: Sys, run: seq<Action>, j: Job)
    requires ValidRun(s, run)
    decreases |run|
  {
    run != [] && (StoppedJob(s, run[0]) == Some(j) || StoppedWith(Next(s, run[0]), run[1..], j))
  }

  ghost predicate GoneElsewhere(s: Sys, j: Job) {
    && Spot(s.h, j) == Gone
    && j.task !in s.pending
    && (forall k: Job :: k.task == j.task ==> k !in s.store.queue && k !in s.store.leases)
    && (forall p, k: Job :: k.task == j.task ==> !Fresh(Loc(s, p), k) && !Holds(Loc(s, p), k))
  }

  lemma GoneIsElsewhere(s: Sys, j: Job)
    requires Inv(s) && Spot(s.h, j) == Gone
    ensures GoneElsewhere(s, j)
  {
    forall p, k: Job | k.task == j.task ensures !Fresh(Loc(s, p), k) && !Holds(Loc(s, p), k) {
      assert Holds(Loc(s, p), k) <==> Spot(s.h, k) == AtReclaimer(p);
      assert Fresh(Loc(s, p), k) <==> Spot(s.h, k) == AtWorker(p);
    }
  }

  lemma GoneStaysReclaim(s: Sys, a: Action, j: Job)
    requires GoneElsewhere(s, j) && Enabled(s, a) && (a.ZRem? || a.RPush?)
    ensures Spot(Next(s, a).h, j) == Gone
  {
    if a.RPush? {
      assert Holds(Loc(s, a.p), Loc(s, a.p).job);
    }
  }

  lemma GoneStaysClaim(s: Sys, a: Action, j: Job)
    requires GoneElsewhere(s, j) && Enabled(s, a) && (a.Pop? || a.ZAdd?)
    ensures Spot(Next(s, a).h, j) == Gone
  {
    if a.ZAdd? {
      assert Fresh(Loc(s, a.p), Loc(s, a.p).job);
    } else if s.store.queue != [] {
      assert s.store.queue[|s.store.queue| - 1] in s.store.queue;
    }
  }

  lemma GoneStaysEnd(s: Sys, a: Action, j: Job)
    requires GoneElsewhere(s, j) && Enabled(s, a) && (a.Ack? || a.Fail? || a.Crash? || a.Enqueue?)
    ensures Spot(Next(s, a).h, j) == Gone
  {
  }

  /** Nothing in Redis leads back from `Gone`: no command of any process gives the job or its task a new copy. */
  lemma GoneStays(s: Sys, a: Action, j: Job)
    requires Inv(s) && Enabled(s, a) && Spot(s.h, j) == Gone
    ensures Spot(Next(s, a).h, j) == Gone
  {
    GoneIsElsewhere(s, j);
    if a.ZRem? || a.RPush? {
      GoneStaysReclaim(s, a, j);
    } else if a.Pop? || a.ZAdd? {
      GoneStaysClaim(s, a, j);
    } else if a.Ack? || a.Fail? || a.Crash? || a.Enqueue? {
      GoneStaysEnd(s, a, j);
    }
  }

  lemma {:induction false} GoneForever(s: Sys, run: seq<Action>, j: Job)
    requires Inv(s) && ValidRun(s, run) && Spot(s.h, j) == Gone
    ensures Spot(Exec(s, run).h, j) == Gone
    decreases |run|
  {
    if run != [] {
      GoneStays(s, run[0], j);
      StepInv(s, run[0]);
      GoneForever(Next(s, run[0]), run[1..], j);
    }
  }

  /** The process that stops had the newest attempt. */
  lemma StopLeavesGone(s: Sys, a: Action, j: Job)
    requires Inv(s) && Enabled(s, a) && StoppedJob(s, a) == Some(j)
    ensures Spot(Next(s, a).h, j) == Gone
  {
    assert Fresh(Loc(s, a.p), j) || Holds(Loc(s, a.p), j);
  }

  lemma GoneHasNoCopy(s: Sys, j: Job)
    requires Inv(s) && Spot(s.h, j) == Gone
    ensures forall k: Job, c :: k.task == j.task ==> !IsCopy(s, k, c)
  {
    forall k: Job, c | k.task == j.task ensures !IsCopy(s, k, c) {
      CopyIsSpot(s, k, c);
    }
  }

  /** A stop inside a window is final: in no continuation does any attempt of the task have a copy again. */
  lemma StopIsFatal(requireRedis: bool, run: seq<Action>, a: Action, rest: seq<Action>)
    requires ValidRun(Init(requireRedis), run) && Enabled(Exec(Init(requireRedis), run), a)
    requires ValidRun(Next(Exec(Init(requireRedis), run), a), rest)
    ensures var s := Exec(Init(requireRedis), run);
            StoppedJob(s, a).Some? ==>
              forall k: Job, c :: k.task == StoppedJob(s, a).value.task ==> !IsCopy(Exec(Next(s, a), rest), k, c)
  {
    var s := Exec(Init(requireRedis), run);
    InitInv(requireRedis);
    RunInv(Init(requireRedis), run);
    StepInv(s, a);
    RunInv(Next(s, a), rest);
    if StoppedJob(s, a).Some? {
      var j := StoppedJob(s, a).value;
      StopLeavesGone(s, a, j);
      GoneForever(Next(s, a), rest, j);
      GoneHasNoCopy(Exec(Next(s, a), rest), j);
    }
  }

  lemma {:induction false} LostWasStopped(s: Sys, run: seq<Action>, j: Job)
    requires ValidRun(s, run) && j in Exec(s, run).h.lost && j !in s.h.lost
    ensures StoppedWith(s, run, j)
    decreases |run|
  {
    if run != [] && StoppedJob(s, run[0]) != Some(j) {
      LostWasStopped(Next(s, run[0]), run[1..], j);
    }
  }

  lemma {:induction false} StoppedIsGone(s: Sys, run: seq<Action>, j: Job)
    requires Inv(s) && ValidRun(s, run) && StoppedWith(s, run, j)
    ensures Spot(Exec(s, run).h, j) == Gone
    decreases |run|
  {
    StepInv(s, run[0]);
    if StoppedJob(s, run[0]) == Some(j) {
      StopLeavesGone(s, run[0], j);
      GoneForever(Next(s, run[0]), run[1..], j);
    } else {
      StoppedIsGone(Next(s, run[0]), run[1..], j);
    }
  }

  /**
   When a task is lost: a newest attempt that nobody acknowledged is without a copy exactly when some process
   stopped with it inside a window.
   */
  lemma LostExactlyByStops(requireRedis: bool, run: seq<Action>, t: Task)
    requires ValidRun(Init(requireRedis), run)
    ensures var s := Exec(Init(requireRedis), run);
            t in s.h.latest && Newest(s.h, t) !in s.h.acked ==>
              ((forall c :: !IsCopy(s, Newest(s.h, t), c)) <==> StoppedWith(Init(requireRedis), run, Newest(s.h, t)))
  {
    var s := Exec(Init(requireRedis), run);
    InitInv(requireRedis);
    RunInv(Init(requireRedis), run);
    if t in s.h.latest && Newest(s.h, t) !in s.h.acked {
      var j := Newest(s.h, t);
      if StoppedWith(Init(requireRedis), run, j) {
        StoppedIsGone(Init(requireRedis), run, j);
        GoneHasNoCopy(s, j);
      } else if j in s.h.lost {
        LostWasStopped(Init(requireRedis), run, j);
      } else {
        InvConserves(s);
        assert NewestAccountedFor(s, t);
      }
    }
  }

  // ---------------------------------------------------------------- Attempts, leases, payloads

  /** Between steps the log `entered` records exactly the pushes to the queue, in order. */
  lemma LogRecordsPushes(s: Sys, a: Action)
    requires Enabled(s, a)
    ensures var s' := Next(s, a);
            if |s'.store.queue| > |s.store.queue|
            then s'.store.queue == s.store.queue + [s'.store.queue[|s.store.queue|]]
                 && s'.h.entered == s.h.entered + [s'.store.queue[|s.store.queue|]]
            else s'.h.entered == s.h.entered && s'.store.queue <= s.store.queue
  {
  }

  /**
   One requeue per attempt: in every run each (task, attempt) enters the queue once, in increasing order of
   attempts and without gaps, and is worked on by one process at most.
   */
  lemma OneRequeuePerAttempt(requireRedis: bool, run: seq<Action>)
    requires ValidRun(Init(requireRedis), run)
    ensures var s := Exec(Init(requireRedis), run);
            && NoDup(s.h.entered)
            && (forall a, b :: 0 <= a < b < |s.h.entered| && s.h.entered[a].task == s.h.entered[b].task
                  ==> s.h.entered[a].attempt < s.h.entered[b].attempt)
            && (forall j, k: nat :: j in s.h.entered && k <= j.attempt ==> Job(j.task, k) in s.h.entered)
            && (forall p, q, j :: Owns(Loc(s, p), j) && Owns(Loc(s, q), j) ==> p == q)
  {
    InitInv(requireRedis);
    RunInv(Init(requireRedis), run);
  }

  /** Lease coverage: every leased job is in the processing list, which has no duplicates. */
  lemma LeaseCoverage(requireRedis: bool, run: seq<Action>)
    requires ValidRun(Init(requireRedis), run)
    ensures var s := Exec(Init(requireRedis), run);
            && NoDup(s.store.processing)
            && forall j :: j in s.store.leases ==> j in s.store.processing && j !in s.store.queue
  {
    InitInv(requireRedis);
    RunInv(Init(requireRedis), run);
  }

  /** A payload is stored exactly while the task is enqueued, none of its attempts acknowledged and its day not over. */
  lemma PayloadUntilFirstAck(requireRedis: bool, run: seq<Action>, t: Task)
    requires ValidRun(Init(requireRedis), run)
    ensures var s := Exec(Init(requireRedis), run);
            t in s.store.payloads <==>
            t in s.h.latest && t !in s.h.expired && !exists j :: j in s.h.acked && j.task == t
  {
    InitInv(requireRedis);
    RunInv(Init(requireRedis), run);
    var s := Exec(Init(requireRedis), run);
    assert SomeAck(s.h.acked, t) <==> exists j :: j in s.h.acked && j.task == t;
  }

  /** An acknowledged job has left the processing list. */
  ghost predicate AckedUnlisted(s: Sys) {
    forall j :: j in s.h.acked ==> j !in s.store.processing
  }

  lemma AckUnlists(s: Sys, p: Pid)
    requires InvProcessing(s) && AckedUnlisted(s) && Loc(s, p).Working?
    ensures AckedUnlisted(AckNext(s, p))
  {
    RemoveFirstExact(s.store.processing, Loc(s, p).job);
  }

  lemma LRemUnlists(s: Sys, p: Pid)
    requires InvProcessing(s) && AckedUnlisted(s) && Loc(s, p).Unleased?
    ensures AckedUnlisted(LRemNext(s, p))
  {
    RemoveFirstExact(s.store.processing, Loc(s, p).job);
  }

  lemma PopUnlists(s: Sys, p: Pid)
    requires InvQueue(s) && InvOutcome(s) && AckedUnlisted(s)
    ensures AckedUnlisted(PopNext(s, p))
  {
    if s.store.queue != [] {
      assert s.store.queue[|s.store.queue| - 1] in s.store.queue;
    }
  }

  lemma AckedUnlistedStep(s: Sys, a: Action)
    requires Inv(s) && AckedUnlisted(s) && Enabled(s, a)
    ensures AckedUnlisted(Next(s, a))
  {
    match a
    case Ack(p) => AckUnlists(s, p);
    case LRem(p) => LRemUnlists(s, p);
    case Pop(p) => PopUnlists(s, p);
    case _ =>
  }

  lemma {:induction false} AckedUnlistedRun(s: Sys, run: seq<Action>)
    requires Inv(s) && AckedUnlisted(s) && ValidRun(s, run)
    ensures AckedUnlisted(Exec(s, run))
    decreases |run|
  {
    if run != [] {
      StepInv(s, run[0]);
      AckedUnlistedStep(s, run[0]);
      AckedUnlistedRun(Next(s, run[0]), run[1..]);
    }
  }

  /**
   An acknowledged job is gone for good: in every continuation it is in no list and has no lease, and the payload of
   its task is not stored.
   */
  lemma AcknowledgedIsGone(requireRedis: bool, run: seq<Action>, j: Job)
    requires ValidRun(Init(requireRedis), run)
    ensures var s := Exec(Init(requireRedis), run);
            j in s.h.acked ==>
              && j !in s.store.queue && j !in s.store.processing && j !in s.store.leases
              && j.task !in s.store.payloads
  {
    InitInv(requireRedis);
    RunInv(Init(requireRedis), run);
    AckedUnlistedRun(Init(requireRedis), run);
    var s := Exec(Init(requireRedis), run);
    if j in s.h.acked {
      assert SomeAck(s.h.acked, j.task);
    }
  }

  /** The queue is last in, first out. */
  lemma LastInFirstOut(s: Sys, t: Task, p: Pid)
    requires t in s.pending && Loc(s, p).Claiming?
    ensures Loc(PopNext(EnqueueNext(s, t), p), p) == Popped(Job(t, 0))
    ensures PopNext(EnqueueNext(s, t), p).store.queue == s.store.queue
    ensures PopNext(EnqueueNext(s, t), p).store.processing == [Job(t, 0)] + s.store.processing
  {
  }
}
