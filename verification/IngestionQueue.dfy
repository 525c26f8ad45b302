/**
 The durable ingestion queue of app/redis_client.py, driven by the worker loop of app/api/routes.py.

 `Store` is the Redis state and each function on it is one Redis command (or one MULTI/EXEC pipeline).
 `Sys` adds the control points of any number of worker processes, so that a step of the system is one
 command of one process; a command may raise without effect (`Fail`) and a process may stop (`Crash`)
 at every control point.
 */
module IngestionQueue {
  import opened Collections

  type Task = string
  type Pid = nat

  /** A raw queue entry.  The other JSON fields are functions of the task id. */
  datatype Job = Job(task: Task, attempt: nat)

  const LEASE_TIMEOUT_SECONDS := 900

  // ---------------------------------------------------------------- Redis commands

  datatype Store = Store(queue: seq<Job>, processing: seq<Job>, leases: map<Job, int>, payloads: set<Task>)

  const EMPTY := Store([], [], map[], {})

  function EnqueuePipeline(st: Store, t: Task): Store {
    st.(payloads := st.payloads + {t}, queue := st.queue + [Job(t, 0)])
  }

  /** BRPOPLPUSH: pop at the right end, which is also where RPUSH adds. */
  function PopPush(st: Store): Store
    requires st.queue != []
  {
    var n := |st.queue| - 1;
    st.(queue := st.queue[..n], processing := [st.queue[n]] + st.processing)
  }

  function AddLease(st: Store, j: Job, expiry: int): Store {
    st.(leases := st.leases[j := expiry])
  }

  function RemoveLease(st: Store, j: Job): Store {
    st.(leases := st.leases - {j})
  }

  function Unlist(st: Store, j: Job): Store {
    st.(processing := RemoveFirst(st.processing, j))
  }

  function Bumped(j: Job): Job {
    Job(j.task, j.attempt + 1)
  }

  function Requeue(st: Store, j: Job): Store {
    st.(queue := st.queue + [Bumped(j)])
  }

  function AckPipeline(st: Store, j: Job): Store {
    st.(processing := RemoveFirst(st.processing, j), leases := st.leases - {j}, payloads := st.payloads - {j.task})
  }

  /** ZRANGEBYSCORE -inf now: the expired leases, each once, in an order we leave open. */
  ghost predicate IsStaleList(stale: seq<Job>, leases: map<Job, int>, now: int) {
    NoDup(stale) && forall j :: j in stale <==> j in leases && leases[j] <= now
  }

  // ---------------------------------------------------------------- Processes

  /** What a worker does between claiming and acknowledging a job. */
  datatype Phase =
    | Claimed      // payload not yet read
    | HasContent   // payload found, status not yet written
    | NoContent    // payload missing, status not yet written
    | Running      // status "processing" written, ingestion running
    | Written      // final status written

  datatype Local =
    | Idle
    | Reclaiming(stale: seq<Job>)            // loop over the snapshot of expired leases
    | Unleased(job: Job, stale: seq<Job>)    // ZREM removed the lease
    | Unlisted(job: Job, stale: seq<Job>)    // LREM done, RPUSH still to come
    | Claiming                               // reclaim finished, about to pop
    | Popped(job: Job)                       // popped, lease not yet created
    | Working(job: Job, leased: bool, phase: Phase)

  ghost predicate Holds(l: Local, j: Job) { (l.Unleased? || l.Unlisted?) && l.job == j }
  ghost predicate Fresh(l: Local, j: Job) { (l.Popped? || (l.Working? && !l.leased)) && l.job == j }
  ghost predicate Owns(l: Local, j: Job) { (l.Popped? || l.Working?) && l.job == j }

  datatype Status = Processing | Completed | Failed

  /** Where the newest attempt of a task is. */
  datatype Place = Absent | Queued | AtWorker(p: Pid) | Leased | AtReclaimer(p: Pid) | Gone

  /**
   History variables.  `entered` logs every push to the queue, `acked` every acknowledged raw job,
   `lost` every job whose process stopped where nothing in Redis can bring the job back, `started` every
   job whose status was set to processing, and `expired` every task whose payload outlived its day in Redis.
   */
  datatype History = History(
    latest: map<Task, nat>, place: map<Task, Place>,
    entered: seq<Job>, acked: set<Job>, lost: set<Job>, started: seq<Job>, expired: set<Task>)

  datatype Sys = Sys(
    requireRedis: bool, store: Store, procs: map<Pid, Local>,
    pending: set<Task>, statuses: map<Task, Status>, h: History)

  function Init(requireRedis: bool): Sys {
    Sys(requireRedis, EMPTY, map[], {}, map[], History(map[], map[], [], {}, {}, [], {}))
  }

  function Loc(s: Sys, p: Pid): Local {
    if p in s.procs then s.procs[p] else Idle
  }

  function Move(s: Sys, p: Pid, l: Local): Sys {
    s.(procs := s.procs[p := l])
  }

  function Newest(h: History, t: Task): Job
    requires t in h.latest
  {
    Job(t, h.latest[t])
  }

  /** The place of a raw job; `Absent` unless it is the newest attempt of an enqueued task. */
  function Spot(h: History, j: Job): Place {
    if j.task in h.latest && h.latest[j.task] == j.attempt && j.task in h.place then h.place[j.task] else Absent
  }

  function Put(h: History, j: Job, pl: Place): History {
    h.(place := h.place[j.task := pl])
  }

  // ---------------------------------------------------------------- Steps

  datatype Action =
    | Announce(t: Task) | Enqueue(t: Task) | EnqueueFails(t: Task)
    | Snapshot(p: Pid, now: int, stale: seq<Job>) | ZRem(p: Pid) | LRem(p: Pid) | RPush(p: Pid) | EndReclaim(p: Pid)
    | Pop(p: Pid) | ZAdd(p: Pid, now: int)
    | Fetch(p: Pid) | Mark(p: Pid) | Finish(p: Pid, ok: bool) | Ack(p: Pid)
    | Fail(p: Pid) | Crash(p: Pid) | Expire(t: Task)

  ghost predicate Enabled(s: Sys, a: Action) {
    match a
    case Announce(t) => t !in s.statuses && t !in s.h.latest
    case Enqueue(t) => t in s.pending
    case EnqueueFails(t) => t in s.pending
    case Snapshot(p, now, stale) => Loc(s, p).Idle? && IsStaleList(stale, s.store.leases, now)
    case ZRem(p) => Loc(s, p).Reclaiming? && Loc(s, p).stale != []
    case LRem(p) => Loc(s, p).Unleased?
    case RPush(p) => Loc(s, p).Unlisted?
    case EndReclaim(p) => Loc(s, p).Reclaiming? && Loc(s, p).stale == []
    case Pop(p) => Loc(s, p).Claiming?
    case ZAdd(p, _) => Loc(s, p).Popped?
    case Fetch(p) => Loc(s, p).Working? && Loc(s, p).phase == Claimed
    case Mark(p) => Loc(s, p).Working? && (Loc(s, p).phase == HasContent || Loc(s, p).phase == NoContent)
    case Finish(p, _) => Loc(s, p).Working? && Loc(s, p).phase == Running
    // `finally`: cancellation and exceptions acknowledge from every phase
    case Ack(p) => Loc(s, p).Working?
    case Fail(p) => true
    case Crash(p) => true
    // the payload key's day is over; the clock of Redis is left open
    case Expire(t) => t in s.store.payloads
  }

  /** The job that no Redis structure protects any more when process `p` leaves control point `l`. */
  function LossOnStop(l: Local): Option<Job> {
    if l.Unleased? || l.Unlisted? || l.Popped? || (l.Working? && !l.leased) then Some(l.job) else None
  }

  function Lose(h: History, lost: Option<Job>): History {
    if lost.Some? then Put(h, lost.value, Gone).(lost := h.lost + {lost.value}) else h
  }

  /** Where the next command of `p` continues after raising; the exception handlers depend on REQUIRE_REDIS. */
  function AfterError(s: Sys, p: Pid): Local {
    match Loc(s, p)
    case Idle | Reclaiming(_) | Unleased(_, _) | Unlisted(_, _) => if s.requireRedis then Idle else Claiming
    case Popped(j) => if s.requireRedis then Idle else Working(j, false, Claimed)
    case _ => Idle
  }

  function ErrorLoss(s: Sys, p: Pid): Option<Job> {
    if Loc(s, p).Popped? && !s.requireRedis then None else LossOnStop(Loc(s, p))
  }

  function EnqueueNext(s: Sys, t: Task): Sys {
    s.(store := EnqueuePipeline(s.store, t), pending := s.pending - {t},
       h := s.h.(latest := s.h.latest[t := 0], place := s.h.place[t := Queued], entered := s.h.entered + [Job(t, 0)]))
  }

  function ZRemNext(s: Sys, p: Pid): Sys
    requires Loc(s, p).Reclaiming? && Loc(s, p).stale != []
  {
    var stale := Loc(s, p).stale;
    if stale[0] in s.store.leases
    then Move(s, p, Unleased(stale[0], stale[1..])).(
           store := RemoveLease(s.store, stale[0]), h := Put(s.h, stale[0], AtReclaimer(p)))
    else Move(s, p, Reclaiming(stale[1..]))
  }

  function LRemNext(s: Sys, p: Pid): Sys
    requires Loc(s, p).Unleased?
  {
    var l := Loc(s, p);
    Move(s, p, Unlisted(l.job, l.stale)).(store := Unlist(s.store, l.job))
  }

  function RPushNext(s: Sys, p: Pid): Sys
    requires Loc(s, p).Unlisted?
  {
    var l := Loc(s, p);
    var j := Bumped(l.job);
    Move(s, p, Reclaiming(l.stale)).(store := Requeue(s.store, l.job),
      h := s.h.(latest := s.h.latest[j.task := j.attempt], place := s.h.place[j.task := Queued],
                entered := s.h.entered + [j]))
  }

  function PopNext(s: Sys, p: Pid): Sys {
    if s.store.queue == [] then Move(s, p, Idle)
    else
      var j := s.store.queue[|s.store.queue| - 1];
      Move(s, p, Popped(j)).(store := PopPush(s.store), h := Put(s.h, j, AtWorker(p)))
  }

  function ZAddNext(s: Sys, p: Pid, now: int): Sys
    requires Loc(s, p).Popped?
  {
    var j := Loc(s, p).job;
    Move(s, p, Working(j, true, Claimed)).(
      store := AddLease(s.store, j, now + LEASE_TIMEOUT_SECONDS), h := Put(s.h, j, Leased))
  }

  function MarkNext(s: Sys, p: Pid): Sys
    requires Loc(s, p).Working?
  {
    var l := Loc(s, p);
    if l.phase == HasContent
    then Move(s, p, l.(phase := Running)).(
           statuses := s.statuses[l.job.task := Processing], h := s.h.(started := s.h.started + [l.job]))
    else Move(s, p, l.(phase := Written)).(statuses := s.statuses[l.job.task := Failed])
  }

  function AckNext(s: Sys, p: Pid): Sys
    requires Loc(s, p).Working?
  {
    var j := Loc(s, p).job;
    var h := s.h.(acked := s.h.acked + {j});
    var away := Spot(s.h, j) != Absent && !Spot(s.h, j).AtReclaimer?;
    Move(s, p, Idle).(store := AckPipeline(s.store, j), h := if away then Put(h, j, Gone) else h)
  }

  function Next(s: Sys, a: Action): Sys
    requires Enabled(s, a)
  {
    match a
    case Announce(t) => s.(pending := s.pending + {t}, statuses := s.statuses[t := Processing])
    case Enqueue(t) => EnqueueNext(s, t)
    case EnqueueFails(t) => s.(pending := s.pending - {t}, statuses := s.statuses[t := Failed])
    case Snapshot(p, _, stale) => Move(s, p, Reclaiming(stale))
    case ZRem(p) => ZRemNext(s, p)
    case LRem(p) => LRemNext(s, p)
    case RPush(p) => RPushNext(s, p)
    case EndReclaim(p) => Move(s, p, Claiming)
    case Pop(p) => PopNext(s, p)
    case ZAdd(p, now) => ZAddNext(s, p, now)
    case Fetch(p) =>
      var l := Loc(s, p);
      Move(s, p, l.(phase := if l.job.task in s.store.payloads then HasContent else NoContent))
    case Mark(p) => MarkNext(s, p)
    case Finish(p, ok) =>
      var l := Loc(s, p);
      Move(s, p, l.(phase := Written)).(statuses := s.statuses[l.job.task := if ok then Completed else Failed])
    case Ack(p) => AckNext(s, p)
    case Fail(p) => Move(s, p, AfterError(s, p)).(h := Lose(s.h, ErrorLoss(s, p)))
    case Crash(p) => Move(s, p, Idle).(h := Lose(s.h, LossOnStop(Loc(s, p))))
    case Expire(t) =>
      s.(store := s.store.(payloads := s.store.payloads - {t}), h := s.h.(expired := s.h.expired + {t}))
  }

  ghost predicate ValidRun(s: Sys, run: seq<Action>)
    decreases |run|
  {
    run == [] || (Enabled(s, run[0]) && ValidRun(Next(s, run[0]), run[1..]))
  }

  ghost function Exec(s: Sys, run: seq<Action>): Sys
    requires ValidRun(s, run)
    decreases |run|
  {
    if run == [] then s else Exec(Next(s, run[0]), run[1..])
  }

  /** Runs one after the other. */
  lemma {:induction false} Append(s: Sys, a: seq<Action>, b: seq<Action>)
    requires ValidRun(s, a) && ValidRun(Exec(s, a), b)
    ensures ValidRun(s, a + b) && Exec(s, a + b) == Exec(Exec(s, a), b)
    decreases |a|
  {
    if a == [] {
      assert a + b == b;
    } else {
      var rest := a[1..] + b;
      Append(Next(s, a[0]), a[1..], b);
      assert (a + b)[0] == a[0] && (a + b)[1..] == rest;
    }
  }

  /** One more step. */
  lemma Then(s: Sys, run: seq<Action>, a: Action)
    requires ValidRun(s, run) && Enabled(Exec(s, run), a)
    ensures ValidRun(s, run + [a]) && Exec(s, run + [a]) == Next(Exec(s, run), a)
  {
    assert [a][1..] == [];
    Append(s, run, [a]);
  }

  // ---------------------------------------------------------------- The invariant

  ghost predicate InvKeys(s: Sys) {
    && (forall t :: t in s.h.latest <==> t in s.h.place)
    && (forall t :: t in s.pending ==> t !in s.h.latest && t in s.statuses)
    && (forall t :: t in s.h.latest ==> t in s.statuses && s.h.place[t] != Absent)
    && (forall t :: t in s.h.expired ==> t in s.h.latest)
  }

  ghost predicate InvQueue(s: Sys) {
    NoDup(s.store.queue) && forall j :: j in s.store.queue <==> Spot(s.h, j) == Queued
  }

  ghost predicate InvLease(s: Sys) {
    forall j :: j in s.store.leases <==> Spot(s.h, j) == Leased
  }

  ghost predicate InvFresh(s: Sys) {
    forall p, j :: Fresh(Loc(s, p), j) <==> Spot(s.h, j) == AtWorker(p)
  }

  ghost predicate InvHeld(s: Sys) {
    forall p, j :: Holds(Loc(s, p), j) <==> Spot(s.h, j) == AtReclaimer(p)
  }

  ghost predicate InvProcessing(s: Sys) {
    && NoDup(s.store.processing)
    && (forall j :: j in s.store.processing ==>
          && !Spot(s.h, j).Absent? && !Spot(s.h, j).Queued?
          && (Spot(s.h, j).AtReclaimer? ==> Loc(s, Spot(s.h, j).p).Unleased?))
    && (forall j :: Spot(s.h, j).AtWorker? || Spot(s.h, j).Leased? ==> j in s.store.processing)
  }

  ghost predicate InvOwners(s: Sys) {
    && (forall p, j :: Owns(Loc(s, p), j) ==> j in s.h.entered && Spot(s.h, j) != Queued)
    && (forall p, q, j :: Owns(Loc(s, p), j) && Owns(Loc(s, q), j) ==> p == q)
  }

  ghost predicate InvEntered(s: Sys) {
    && (forall j :: j in s.h.entered <==> j.task in s.h.latest && j.attempt <= s.h.latest[j.task])
    && (forall a, b :: 0 <= a < b < |s.h.entered| && s.h.entered[a].task == s.h.entered[b].task
          ==> s.h.entered[a].attempt < s.h.entered[b].attempt)
  }

  ghost predicate SomeAck(acked: set<Job>, t: Task) {
    exists j :: j in acked && j.task == t
  }

  ghost predicate InvPayloads(s: Sys) {
    forall t :: t in s.store.payloads <==> t in s.h.latest && !SomeAck(s.h.acked, t) && t !in s.h.expired
  }

  ghost predicate InvOutcome(s: Sys) {
    && (forall j :: j in s.h.acked ==>
          j in s.h.entered && (Spot(s.h, j).Absent? || Spot(s.h, j).Gone? || Spot(s.h, j).AtReclaimer?))
    && (forall j :: j in s.h.lost ==> j in s.h.entered && (Spot(s.h, j).Absent? || Spot(s.h, j).Gone?))
    && (forall j :: Spot(s.h, j) == Gone ==> j in s.h.acked || j in s.h.lost)
  }

  ghost predicate Inv(s: Sys) {
    InvKeys(s) && InvQueue(s) && InvLease(s) && InvFresh(s) && InvHeld(s) && InvProcessing(s) && InvOwners(s)
    && InvEntered(s) && InvPayloads(s) && InvOutcome(s)
  }

  lemma InitInv(requireRedis: bool)
    ensures Inv(Init(requireRedis))
  {
  }

  // ---------------------------------------------------------------- Steps that concern one job

  /**
   The step from `s` to `s'` is made by process `p` and concerns no job but `j`: everything else is
   framed, and the new facts about `j` fit together.
   */
  ghost predicate JobMove(s: Sys, s': Sys, p: Pid, j: Job) {
    && (forall q :: q != p ==> Loc(s', q) == Loc(s, q))
    && (forall k :: k != j ==> Spot(s'.h, k) == Spot(s.h, k))
    && FramedStore(s.store, s'.store, j)
    && FramedHistory(s, s', j)
    && LocalFits(Loc(s, p), Loc(s', p), p, j, Spot(s.h, j), Spot(s'.h, j), j in s.h.entered)
    && SpotFits(s', j)
  }

  ghost predicate FramedStore(st: Store, st': Store, j: Job) {
    && NoDup(st'.queue) && NoDup(st'.processing)
    && forall k :: k != j ==> ((k in st'.queue <==> k in st.queue) && (k in st'.leases <==> k in st.leases)
                               && (k in st'.processing <==> k in st.processing))
  }

  ghost predicate FramedHistory(s: Sys, s': Sys, j: Job) {
    && s'.pending == s.pending && s'.h.entered == s.h.entered && s'.h.latest == s.h.latest
    && s'.h.expired == s.h.expired
    && (forall t :: t in s.statuses ==> t in s'.statuses)
    && (forall t :: t in s'.h.place <==> t in s.h.place)
    && (forall t :: t in s.h.place && s.h.place[t] != Absent ==> s'.h.place[t] != Absent)
    && (s'.h.lost == s.h.lost || (s'.h.lost == s.h.lost + {j} && j in s.h.entered))
    && ((s'.h.acked == s.h.acked && s'.store.payloads == s.store.payloads)
        || (s'.h.acked == s.h.acked + {j} && s'.store.payloads == s.store.payloads - {j.task} && j in s.h.entered))
  }

  ghost predicate LocalFits(l: Local, l': Local, p: Pid, j: Job, sp: Place, sp': Place, entered: bool) {
    && (forall k :: k != j ==>
          !Fresh(l, k) && !Fresh(l', k) && !Holds(l, k) && !Holds(l', k) && !Owns(l, k) && !Owns(l', k))
    && (Fresh(l', j) <==> sp' == AtWorker(p)) && (Holds(l', j) <==> sp' == AtReclaimer(p))
    && (sp' == sp || (&& (sp.AtWorker? || sp.AtReclaimer? ==> sp.p == p)
                      && (sp'.AtWorker? || sp'.AtReclaimer? ==> sp'.p == p)))
    && (Owns(l', j) ==> entered && sp' != Queued && (Owns(l, j) || sp == Queued))
    && (sp' == Queued ==> sp == Queued)
  }

  ghost predicate SpotFits(s: Sys, j: Job) {
    var sp := Spot(s.h, j);
    && (j in s.store.queue <==> sp == Queued) && (j in s.store.leases <==> sp == Leased)
    && (j in s.store.processing ==> !sp.Absent? && !sp.Queued? && (sp.AtReclaimer? ==> Loc(s, sp.p).Unleased?))
    && (sp.AtWorker? || sp.Leased? ==> j in s.store.processing)
    && (j in s.h.acked ==> sp.Absent? || sp.Gone? || sp.AtReclaimer?)
    && (j in s.h.lost ==> sp.Absent? || sp.Gone?)
    && (sp.Gone? ==> j in s.h.acked || j in s.h.lost)
  }

  lemma MoveStore(s: Sys, s': Sys, p: Pid, j: Job)
    requires InvKeys(s) && InvQueue(s) && InvLease(s) && JobMove(s, s', p, j)
    ensures InvKeys(s') && InvQueue(s') && InvLease(s')
  {
  }

  lemma MoveFresh(s: Sys, s': Sys, p: Pid, j: Job)
    requires InvFresh(s) && JobMove(s, s', p, j)
    ensures InvFresh(s')
  {
    forall q, k ensures Fresh(Loc(s', q), k) <==> Spot(s'.h, k) == AtWorker(q) {
      assert Fresh(Loc(s, q), k) <==> Spot(s.h, k) == AtWorker(q);
    }
  }

  lemma MoveHeld(s: Sys, s': Sys, p: Pid, j: Job)
    requires InvHeld(s) && JobMove(s, s', p, j)
    ensures InvHeld(s')
  {
    forall q, k ensures Holds(Loc(s', q), k) <==> Spot(s'.h, k) == AtReclaimer(q) {
      assert Holds(Loc(s, q), k) <==> Spot(s.h, k) == AtReclaimer(q);
    }
  }

  lemma MoveProcessing(s: Sys, s': Sys, p: Pid, j: Job)
    requires InvHeld(s) && InvProcessing(s) && JobMove(s, s', p, j)
    ensures InvProcessing(s')
  {
    forall k | k in s'.store.processing
      ensures !Spot(s'.h, k).Absent? && !Spot(s'.h, k).Queued?
      ensures Spot(s'.h, k).AtReclaimer? ==> Loc(s', Spot(s'.h, k).p).Unleased?
    {
      if k != j && Spot(s.h, k).AtReclaimer? {
        assert Holds(Loc(s, Spot(s.h, k).p), k);
      }
    }
  }

  lemma MoveOwners(s: Sys, s': Sys, p: Pid, j: Job)
    requires InvOwners(s) && JobMove(s, s', p, j)
    ensures InvOwners(s')
  {
    forall q, k | Owns(Loc(s', q), k) ensures k in s'.h.entered && Spot(s'.h, k) != Queued {
      if q != p { assert Owns(Loc(s, q), k); }
    }
    forall q, r, k | Owns(Loc(s', q), k) && Owns(Loc(s', r), k) ensures q == r {
      if q != p { assert Owns(Loc(s, q), k); }
      if r != p { assert Owns(Loc(s, r), k); }
    }
  }

  lemma MovePayloads(s: Sys, s': Sys, p: Pid, j: Job)
    requires InvPayloads(s) && JobMove(s, s', p, j)
    ensures InvPayloads(s')
  {
    forall t ensures SomeAck(s'.h.acked, t) <==> SomeAck(s.h.acked, t) || (s'.h.acked != s.h.acked && t == j.task) {
      if s'.h.acked != s.h.acked { assert j in s'.h.acked; }
      if k :| k in s.h.acked && k.task == t { assert k in s'.h.acked; }
    }
  }

  lemma MoveOutcome(s: Sys, s': Sys, p: Pid, j: Job)
    requires InvEntered(s) && InvOutcome(s) && JobMove(s, s', p, j)
    ensures InvEntered(s') && InvOutcome(s')
  {
  }

  lemma MoveInv(s: Sys, s': Sys, p: Pid, j: Job)
    requires Inv(s) && JobMove(s, s', p, j)
    ensures Inv(s')
  {
    MoveStore(s, s', p, j);
    MoveFresh(s, s', p, j);
    MoveHeld(s, s', p, j);
    MoveProcessing(s, s', p, j);
    MoveOwners(s, s', p, j);
    MovePayloads(s, s', p, j);
    MoveOutcome(s, s', p, j);
  }

  /** What the invariant says about one job and one process. */
  ghost predicate Fits(s: Sys, p: Pid, j: Job) {
    && NoDup(s.store.queue) && NoDup(s.store.processing)
    && (forall t :: t in s.h.latest <==> t in s.h.place)
    && SpotFits(s, j)
    && (j in s.h.entered <==> j.task in s.h.latest && j.attempt <= s.h.latest[j.task])
    && (Fresh(Loc(s, p), j) <==> Spot(s.h, j) == AtWorker(p))
    && (Holds(Loc(s, p), j) <==> Spot(s.h, j) == AtReclaimer(p))
    && (Owns(Loc(s, p), j) ==> j in s.h.entered && Spot(s.h, j) != Queued)
    && (Spot(s.h, j).AtWorker? ==> Fresh(Loc(s, Spot(s.h, j).p), j) && Owns(Loc(s, Spot(s.h, j).p), j))
    && (forall q :: Owns(Loc(s, p), j) && Owns(Loc(s, q), j) ==> p == q)
  }

  lemma InvFits(s: Sys, p: Pid, j: Job)
    requires Inv(s)
    ensures Fits(s, p, j)
  {
    assert Spot(s.h, j).AtWorker? ==> Fresh(Loc(s, Spot(s.h, j).p), j);
  }

  lemma MoveZRem(s: Sys, p: Pid, j: Job)
    requires Loc(s, p).Reclaiming? && Loc(s, p).stale != [] && j == Loc(s, p).stale[0] && Fits(s, p, j)
    ensures JobMove(s, ZRemNext(s, p), p, j)
  {
  }

  lemma MoveLRem(s: Sys, p: Pid, j: Job)
    requires Loc(s, p).Unleased? && j == Loc(s, p).job && Fits(s, p, j)
    ensures JobMove(s, LRemNext(s, p), p, j)
  {
    RemoveFirstExact(s.store.processing, j);
  }

  lemma MovePop(s: Sys, p: Pid, j: Job)
    requires Loc(s, p).Claiming? && s.store.queue != [] && j == s.store.queue[|s.store.queue| - 1] && Fits(s, p, j)
    ensures JobMove(s, PopNext(s, p), p, j)
  {
    assert j in s.store.queue;
    NoDupDropLast(s.store.queue);
    NoDupAppend(s.store.processing, j);
  }

  lemma MoveZAdd(s: Sys, p: Pid, now: int, j: Job)
    requires Loc(s, p).Popped? && j == Loc(s, p).job && Fits(s, p, j)
    ensures JobMove(s, ZAddNext(s, p, now), p, j)
  {
  }

  lemma MoveAck(s: Sys, p: Pid, j: Job)
    requires Loc(s, p).Working? && j == Loc(s, p).job && Fits(s, p, j)
    ensures JobMove(s, AckNext(s, p), p, j)
  {
    RemoveFirstExact(s.store.processing, j);
  }

  lemma MoveStop(s: Sys, p: Pid, l: Local, j: Job)
    requires (l.Idle? || l.Claiming?) && LossOnStop(Loc(s, p)) == Some(j) && Fits(s, p, j)
    ensures JobMove(s, Move(s, p, l).(h := Lose(s.h, Some(j))), p, j)
  {
  }

  lemma StepPop(s: Sys, p: Pid)
    requires Inv(s) && Loc(s, p).Claiming?
    ensures Inv(PopNext(s, p))
  {
    if s.store.queue == [] {
      StepLocal(s, PopNext(s, p), p, Job("", 0));
    } else {
      var j := s.store.queue[|s.store.queue| - 1];
      InvFits(s, p, j);
      MovePop(s, p, j);
      MoveInv(s, PopNext(s, p), p, j);
    }
  }

  lemma StepStop(s: Sys, p: Pid, l: Local)
    requires Inv(s)
    requires l.Idle? || l.Claiming?
    ensures Inv(Move(s, p, l).(h := Lose(s.h, LossOnStop(Loc(s, p)))))
  {
    var s' := Move(s, p, l).(h := Lose(s.h, LossOnStop(Loc(s, p))));
    match LossOnStop(Loc(s, p))
    case Some(j) =>
      InvFits(s, p, j);
      MoveStop(s, p, l, j);
      MoveInv(s, s', p, j);
    case None =>
      StepLocal(s, s', p, if Loc(s, p).Working? then Loc(s, p).job else Job("", 0));
  }

  /** Moves between control points that change neither Redis lists nor places. */
  lemma StepLocal(s: Sys, s': Sys, p: Pid, j: Job)
    requires Inv(s)
    requires s'.store == s.store && s'.pending == s.pending && (forall t :: t in s.statuses ==> t in s'.statuses)
    requires s'.h == s.h.(started := s'.h.started)
    requires s'.procs == s.procs[p := Loc(s', p)]
    requires Fresh(Loc(s', p), j) == Fresh(Loc(s, p), j) && !Holds(Loc(s', p), j) && !Holds(Loc(s, p), j)
    requires Owns(Loc(s', p), j) ==> Owns(Loc(s, p), j)
    requires forall k :: k != j ==> !Fresh(Loc(s', p), k) && !Holds(Loc(s', p), k) && !Owns(Loc(s', p), k)
    requires forall k :: k != j ==> !Fresh(Loc(s, p), k) && !Holds(Loc(s, p), k) && !Owns(Loc(s, p), k)
    ensures Inv(s')
  {
    InvFits(s, p, j);
    MoveInv(s, s', p, j);
  }

  // ---------------------------------------------------------------- Steps that push to the queue

  /**
   `s'` is `s` with the new attempt `n` at the end of the queue; no older attempt of the task was live,
   except in the hands of the reclaimer `who` that pushes it.
   */
  ghost predicate JobBirth(s: Sys, s': Sys, who: Option<Pid>, n: Job) {
    && (forall q: Pid :: who != Some(q) ==> Loc(s', q) == Loc(s, q))
    && (who.Some? ==>
          Loc(s, who.value).Unlisted? && Loc(s, who.value).job.task == n.task && Loc(s', who.value).Reclaiming?)
    && (forall k: Job :: Spot(s'.h, k) == if k.task != n.task then Spot(s.h, k) else if k == n then Queued else Absent)
    && (forall k: Job :: k.task == n.task ==>
          Spot(s.h, k) == Absent || (who.Some? && Spot(s.h, k) == AtReclaimer(who.value)))
    && s'.store == s.store.(queue := s.store.queue + [n], payloads := s'.store.payloads)
    && s'.h.acked == s.h.acked && s'.h.lost == s.h.lost && s'.h.entered == s.h.entered + [n]
    && s'.h.expired == s.h.expired
    && (forall k :: k in s.h.entered && k.task == n.task ==> k.attempt < n.attempt)
    && (forall k :: k in s'.h.entered <==> k.task in s'.h.latest && k.attempt <= s'.h.latest[k.task])
    && (forall t :: t in s'.h.latest <==> t in s.h.latest || t == n.task)
    && (s'.store.payloads == if n.task in s.h.latest then s.store.payloads else s.store.payloads + {n.task})
  }

  lemma BirthStore(s: Sys, s': Sys, who: Option<Pid>, n: Job)
    requires InvQueue(s) && InvLease(s) && InvProcessing(s) && JobBirth(s, s', who, n)
    ensures InvQueue(s') && InvLease(s') && InvProcessing(s')
  {
    assert Spot(s.h, n) != Queued;
    NoDupAppend(s.store.queue, n);
  }

  lemma BirthHolders(s: Sys, s': Sys, who: Option<Pid>, n: Job)
    requires InvFresh(s) && InvHeld(s) && JobBirth(s, s', who, n)
    ensures InvFresh(s') && InvHeld(s')
  {
    forall q, k ensures Fresh(Loc(s', q), k) <==> Spot(s'.h, k) == AtWorker(q) {
      assert Fresh(Loc(s, q), k) <==> Spot(s.h, k) == AtWorker(q);
    }
    forall q, k ensures Holds(Loc(s', q), k) <==> Spot(s'.h, k) == AtReclaimer(q) {
      assert Holds(Loc(s, q), k) <==> Spot(s.h, k) == AtReclaimer(q);
    }
  }

  lemma BirthOwners(s: Sys, s': Sys, who: Option<Pid>, n: Job)
    requires InvOwners(s) && JobBirth(s, s', who, n)
    ensures InvOwners(s')
  {
    forall q, k | Owns(Loc(s', q), k) ensures k in s'.h.entered && Spot(s'.h, k) != Queued {
      assert Owns(Loc(s, q), k);
    }
    forall q, r, k | Owns(Loc(s', q), k) && Owns(Loc(s', r), k) ensures q == r {
      assert Owns(Loc(s, q), k) && Owns(Loc(s, r), k);
    }
  }

  lemma BirthHistory(s: Sys, s': Sys, who: Option<Pid>, n: Job)
    requires InvEntered(s) && InvPayloads(s) && InvOutcome(s) && JobBirth(s, s', who, n)
    requires n.task in s.h.expired ==> n.task in s.h.latest
    ensures InvEntered(s') && InvPayloads(s') && InvOutcome(s')
  {
    assert forall k :: k in s'.h.entered <==> k in s.h.entered || k == n;
    assert forall k :: k in s.h.acked && k.task == n.task ==> k in s.h.entered && k.task in s.h.latest;
  }

  lemma BirthInv(s: Sys, s': Sys, who: Option<Pid>, n: Job)
    requires Inv(s) && JobBirth(s, s', who, n) && InvKeys(s')
    ensures Inv(s')
  {
    BirthStore(s, s', who, n);
    BirthHolders(s, s', who, n);
    BirthOwners(s, s', who, n);
    BirthHistory(s, s', who, n);
  }

  lemma StepEnqueue(s: Sys, t: Task)
    requires Inv(s) && t in s.pending
    ensures Inv(EnqueueNext(s, t))
  {
    var s' := EnqueueNext(s, t);
    assert JobBirth(s, s', None, Job(t, 0)) by {
      assert forall q :: Loc(s', q) == Loc(s, q);
      assert forall k: Job :: k.task == t ==> k !in s.h.entered;
    }
    BirthInv(s, s', None, Job(t, 0));
  }

  lemma BirthRPush(s: Sys, p: Pid, j: Job)
    requires Loc(s, p).Unlisted? && j == Loc(s, p).job && InvKeys(s) && InvEntered(s) && Spot(s.h, j) == AtReclaimer(p)
    ensures JobBirth(s, RPushNext(s, p), Some(p), Bumped(j)) && InvKeys(RPushNext(s, p))
  {
    var s' := RPushNext(s, p);
    assert forall k :: k in s'.h.entered <==> k in s.h.entered || k == Bumped(j);
  }

  lemma StepRPush(s: Sys, p: Pid)
    requires Inv(s) && Loc(s, p).Unlisted?
    ensures Inv(RPushNext(s, p))
  {
    var j := Loc(s, p).job;
    assert Holds(Loc(s, p), j);
    BirthRPush(s, p, j);
    BirthInv(s, RPushNext(s, p), Some(p), Bumped(j));
  }

  lemma StepReclaimer(s: Sys, a: Action)
    requires Inv(s) && Enabled(s, a) && (a.ZRem? || a.LRem?)
    ensures Inv(Next(s, a))
  {
    var j := if a.ZRem? then Loc(s, a.p).stale[0] else Loc(s, a.p).job;
    InvFits(s, a.p, j);
    if a.ZRem? {
      MoveZRem(s, a.p, j);
    } else {
      MoveLRem(s, a.p, j);
    }
    MoveInv(s, Next(s, a), a.p, j);
  }

  lemma StepWorker(s: Sys, a: Action)
    requires Inv(s) && Enabled(s, a) && (a.ZAdd? || a.Ack?)
    ensures Inv(Next(s, a))
  {
    var j := Loc(s, a.p).job;
    InvFits(s, a.p, j);
    if a.ZAdd? {
      MoveZAdd(s, a.p, a.now, j);
    } else {
      MoveAck(s, a.p, j);
    }
    MoveInv(s, Next(s, a), a.p, j);
  }

  /** The reclaiming pass begins or ends. */
  lemma StepPass(s: Sys, a: Action)
    requires Inv(s) && Enabled(s, a) && (a.Snapshot? || a.EndReclaim?)
    ensures Inv(Next(s, a))
  {
    StepLocal(s, Next(s, a), a.p, Job("", 0));
  }

  /** A worker goes on with its job. */
  lemma StepPhase(s: Sys, a: Action)
    requires Inv(s) && Enabled(s, a) && (a.Fetch? || a.Mark? || a.Finish?)
    ensures Inv(Next(s, a))
  {
    StepLocal(s, Next(s, a), a.p, Loc(s, a.p).job);
  }

  lemma StepFail(s: Sys, p: Pid)
    requires Inv(s)
    ensures Inv(Next(s, Fail(p)))
  {
    if Loc(s, p).Popped? && !s.requireRedis {
      StepKeep(s, p);
    } else {
      StepStop(s, p, AfterError(s, p));
      assert ErrorLoss(s, p) == LossOnStop(Loc(s, p));
    }
  }

  /** The lease fails and Redis is not required: the worker goes on without a lease. */
  lemma StepKeep(s: Sys, p: Pid)
    requires Inv(s) && Loc(s, p).Popped? && !s.requireRedis
    ensures Inv(Next(s, Fail(p)))
  {
    var j := Loc(s, p).job;
    assert Next(s, Fail(p)) == Move(s, p, Working(j, false, Claimed));
    StepLocal(s, Move(s, p, Working(j, false, Claimed)), p, j);
  }

  lemma StepInv(s: Sys, a: Action)
    requires Inv(s) && Enabled(s, a)
    ensures Inv(Next(s, a))
  {
    match a
    case Announce(_) => StatusOnly(s, Next(s, a));
    case Enqueue(t) => StepEnqueue(s, t);
    case EnqueueFails(_) => StatusOnly(s, Next(s, a));
    case Snapshot(_, _, _) => StepPass(s, a);
    case ZRem(_) => StepReclaimer(s, a);
    case LRem(_) => StepReclaimer(s, a);
    case RPush(p) => StepRPush(s, p);
    case EndReclaim(_) => StepPass(s, a);
    case Pop(p) => StepPop(s, p);
    case ZAdd(_, _) => StepWorker(s, a);
    case Fetch(_) => StepPhase(s, a);
    case Mark(_) => StepPhase(s, a);
    case Finish(_, _) => StepPhase(s, a);
    case Ack(_) => StepWorker(s, a);
    case Fail(p) => StepFail(s, p);
    case Crash(p) => StepStop(s, p, Idle);
    case Expire(t) => StepExpire(s, t);
  }

  lemma StepExpire(s: Sys, t: Task)
    requires Inv(s) && t in s.store.payloads
    ensures Inv(Next(s, Expire(t)))
  {
    var s' := Next(s, Expire(t));
    assert forall p :: Loc(s', p) == Loc(s, p);
    assert forall j :: Spot(s'.h, j) == Spot(s.h, j);
  }

  lemma StatusOnly(s: Sys, s': Sys)
    requires Inv(s)
    requires s'.store == s.store && s'.procs == s.procs && s'.h == s.h
    requires forall t :: t in s.statuses ==> t in s'.statuses
    requires forall t :: t in s'.pending ==> t !in s.h.latest && t in s'.statuses
    ensures Inv(s')
  {
    assert forall p :: Loc(s', p) == Loc(s, p);
  }

  lemma {:induction false} RunInv(s: Sys, run: seq<Action>)
    requires Inv(s) && ValidRun(s, run)
    ensures Inv(Exec(s, run))
    decreases |run|
  {
    if run != [] {
      StepInv(s, run[0]);
      RunInv(Next(s, run[0]), run[1..]);
    }
  }
}
