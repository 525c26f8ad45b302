/** Which status a task ends with: what the stored status says about what happened to the task. */
module StatusOutcome {
  import opened Collections
  import opened IngestionQueue
  import opened StatusLifecycle

  ghost predicate Stored(s: Sys, t: Task, status: Status) {
    t in s.statuses && s.statuses[t] == status
  }

  // ---------------------------------------------------------------- First attempts

  /** The ingestion of the first attempt of `t` returns. */
  ghost predicate Succeeds(s: Sys, a: Action, t: Task)
    requires Enabled(s, a)
  {
    a.Finish? && a.ok && Loc(s, a.p).job == Job(t, 0)
  }

  /** It raises, or its payload is missing, or the task could not be enqueued. */
  ghost predicate Breaks(s: Sys, a: Action, t: Task)
    requires Enabled(s, a)
  {
    || (a.Finish? && !a.ok && Loc(s, a.p).job == Job(t, 0))
    || (a.Mark? && Loc(s, a.p).phase == NoContent && Loc(s, a.p).job == Job(t, 0))
    || a == EnqueueFails(t)
  }

  ghost predicate Succeeded(s: Sys, run: seq<Action>, t: Task)
    requires ValidRun(s, run)
    decreases |run|
  {
    run != [] && (Succeeds(s, run[0], t) || Succeeded(Next(s, run[0]), run[1..], t))
  }

  ghost predicate Broke(s: Sys, run: seq<Action>, t: Task)
    requires ValidRun(s, run)
    decreases |run|
  {
    run != [] && (Breaks(s, run[0], t) || Broke(Next(s, run[0]), run[1..], t))
  }

  /** A step makes the status of a first attempt final exactly by succeeding or breaking. */
  lemma OutcomeStep(s: Sys, a: Action, t: Task)
    requires Inv(s) && Tracked(s, t) && Enabled(s, a) && NeverRequeued(Next(s, a), t)
    ensures Stored(Next(s, a), t, Completed) <==> Stored(s, t, Completed) || Succeeds(s, a, t)
    ensures Stored(Next(s, a), t, Failed) <==> Stored(s, t, Failed) || Breaks(s, a, t)
  {
    TrackedStep(s, a, t);
    if (a.Mark? || a.Finish?) && Loc(s, a.p).job.task == t {
      FirstOnly(s, a.p, t);
    }
  }

  lemma {:induction false} OutcomeRun(s: Sys, run: seq<Action>, t: Task)
    requires Inv(s) && Tracked(s, t) && ValidRun(s, run) && NeverRequeued(Exec(s, run), t)
    ensures Stored(Exec(s, run), t, Completed) <==> Stored(s, t, Completed) || Succeeded(s, run, t)
    ensures Stored(Exec(s, run), t, Failed) <==> Stored(s, t, Failed) || Broke(s, run, t)
    decreases |run|
  {
    if run != [] {
      StepInv(s, run[0]);
      TrackedStep(s, run[0], t);
      TrackedRun(Next(s, run[0]), run[1..], t);
      OutcomeStep(s, run[0], t);
      OutcomeRun(Next(s, run[0]), run[1..], t);
    }
  }

  /**
   In every run, a task that was never requeued is stored as completed exactly when its ingestion returned, and as
   failed exactly when its ingestion raised, its payload was missing or it could not be enqueued.
   */
  lemma OutcomeIsStored(requireRedis: bool, run: seq<Action>, t: Task)
    requires ValidRun(Init(requireRedis), run)
    ensures var s := Exec(Init(requireRedis), run);
            NeverRequeued(s, t) ==>
              && (Stored(s, t, Completed) <==> Succeeded(Init(requireRedis), run, t))
              && (Stored(s, t, Failed) <==> Broke(Init(requireRedis), run, t))
  {
    InitInv(requireRedis);
    if NeverRequeued(Exec(Init(requireRedis), run), t) {
      OutcomeRun(Init(requireRedis), run, t);
    }
  }

  /** An acknowledged task without interruption has exactly one of the two outcomes, and its status says which. */
  lemma AcknowledgedOutcome(requireRedis: bool, run: seq<Action>, t: Task)
    requires ValidRun(Init(requireRedis), run) && NotInterrupted(Init(requireRedis), run, t)
    ensures var s := Exec(Init(requireRedis), run);
            NeverRequeued(s, t) && Job(t, 0) in s.h.acked ==>
              && Stored(s, t, if Succeeded(Init(requireRedis), run, t) then Completed else Failed)
              && (Succeeded(Init(requireRedis), run, t) <==> !Broke(Init(requireRedis), run, t))
  {
    OutcomeIsStored(requireRedis, run, t);
    AcknowledgedIsFinal(requireRedis, run, t);
  }

  // ---------------------------------------------------------------- Tasks that could not be enqueued

  /** The task is nowhere, and reported as failed. */
  ghost predicate Rejected(s: Sys, t: Task) {
    t !in s.pending && t !in s.h.latest && Stored(s, t, Failed)
  }

  lemma RejectedStep(s: Sys, a: Action, t: Task)
    requires Inv(s) && Enabled(s, a) && Rejected(s, t)
    ensures Rejected(Next(s, a), t)
  {
    if a.Mark? || a.Finish? {
      assert Owns(Loc(s, a.p), Loc(s, a.p).job);
    }
    if a.RPush? {
      assert Holds(Loc(s, a.p), Loc(s, a.p).job);
      assert Spot(s.h, Loc(s, a.p).job) == AtReclaimer(a.p);
    }
  }

  lemma {:induction false} RejectedRun(s: Sys, run: seq<Action>, t: Task)
    requires Inv(s) && ValidRun(s, run) && Rejected(s, t)
    ensures Inv(Exec(s, run)) && Rejected(Exec(s, run), t)
    decreases |run|
  {
    if run != [] {
      StepInv(s, run[0]);
      RejectedStep(s, run[0], t);
      RejectedRun(Next(s, run[0]), run[1..], t);
    }
  }

  /** A failed enqueue: in every continuation the task is reported as failed, and no job or payload of it exists. */
  lemma FailedEnqueueIsFailed(requireRedis: bool, first: seq<Action>, t: Task, rest: seq<Action>)
    requires ValidRun(Init(requireRedis), first) && Enabled(Exec(Init(requireRedis), first), EnqueueFails(t))
    requires ValidRun(Next(Exec(Init(requireRedis), first), EnqueueFails(t)), rest)
    ensures var s := Exec(Next(Exec(Init(requireRedis), first), EnqueueFails(t)), rest);
            && Stored(s, t, Failed) && t !in s.store.payloads
            && forall j: Job :: j.task == t ==> j !in s.h.entered && j !in s.store.queue
  {
    InitInv(requireRedis);
    RunInv(Init(requireRedis), first);
    var s := Exec(Init(requireRedis), first);
    StepInv(s, EnqueueFails(t));
    RejectedRun(Next(s, EnqueueFails(t)), rest, t);
  }

  // ---------------------------------------------------------------- All tasks

  /** What a step writes to the status of `t`, whichever attempt it works on. */
  function StatusWritten(s: Sys, a: Action, t: Task): Option<Status> {
    match a
    case Announce(u) => if u == t then Some(Processing) else None
    case EnqueueFails(u) => if u == t then Some(Failed) else None
    case Mark(p) =>
      if !Loc(s, p).Working? || Loc(s, p).job.task != t then None
      else if Loc(s, p).phase == NoContent then Some(Failed) else Some(Processing)
    case Finish(p, ok) =>
      if !Loc(s, p).Working? || Loc(s, p).job.task != t then None else if ok then Some(Completed) else Some(Failed)
    case _ => None
  }

  /** The last write of a run, or what was stored before it. */
  ghost function LastWritten(s: Sys, run: seq<Action>, t: Task, before: Option<Status>): Option<Status>
    requires ValidRun(s, run)
    decreases |run|
  {
    if run == [] then before
    else
      var w := StatusWritten(s, run[0], t);
      LastWritten(Next(s, run[0]), run[1..], t, if w.Some? then w else before)
  }

  lemma {:induction false} LastWriteRun(s: Sys, run: seq<Action>, t: Task)
    requires ValidRun(s, run)
    ensures var before := if t in s.statuses then Some(s.statuses[t]) else None;
            var e := Exec(s, run);
            LastWritten(s, run, t, before) == if t in e.statuses then Some(e.statuses[t]) else None
    decreases |run|
  {
    if run != [] {
      LastWriteRun(Next(s, run[0]), run[1..], t);
    }
  }

  /** In every run the status of every task, requeued or not, is what was written last by anybody working on it. */
  lemma LastWriteWins(requireRedis: bool, run: seq<Action>, t: Task)
    requires ValidRun(Init(requireRedis), run)
    ensures var s := Exec(Init(requireRedis), run);
            LastWritten(Init(requireRedis), run, t, None) == if t in s.statuses then Some(s.statuses[t]) else None
  {
    LastWriteRun(Init(requireRedis), run, t);
  }
}
