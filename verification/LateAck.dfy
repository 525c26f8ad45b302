/**
 What happens to the status of a task that is requeued: for every number of requeues there is a run in which a
 late acknowledgement turns the completed task into a failed one.
 */
module LateAck {
  import opened IngestionQueue
  import opened StatusLifecycle

  ghost predicate Leads(s: Sys, run: seq<Action>, s': Sys) {
    ValidRun(s, run) && Exec(s, run) == s'
  }

  lemma Chain(s: Sys, a: seq<Action>, mid: Sys, b: seq<Action>, end: Sys)
    requires Leads(s, a, mid) && Leads(mid, b, end)
    ensures Leads(s, a + b, end)
  {
    Append(s, a, b);
  }

  /** Process `p` moves from `s` to `s'`; statuses, payloads and everybody else stay. */
  ghost predicate OnlyMoves(s: Sys, s': Sys, p: Pid) {
    && (forall q: Pid :: q != p ==> Loc(s', q) == Loc(s, q))
    && s'.statuses == s.statuses && s'.store.payloads == s.store.payloads
  }

  /** The newest attempt of `t` is the only job in Redis, and leased. */
  ghost predicate OnlyLease(s: Sys, j: Job, expiry: int) {
    s.store.queue == [] && s.store.leases == map[j := expiry] && j.task in s.h.latest && s.h.latest[j.task] == j.attempt
  }

  /** The newest attempt of `t` is the only job in Redis, and queued. */
  ghost predicate OnlyQueued(s: Sys, j: Job) {
    s.store.queue == [j] && s.store.leases == map[] && j.task in s.h.latest && s.h.latest[j.task] == j.attempt
  }

  // ---------------------------------------------------------------- Claiming and requeueing a lone job

  function ClaimRun(p: Pid, now: int): seq<Action> {
    [EndReclaim(p)] + [Pop(p)] + [ZAdd(p, now)]
  }

  lemma Claims(s: Sys, p: Pid, j: Job, now: int)
    requires Loc(s, p) == Reclaiming([]) && OnlyQueued(s, j)
    ensures ValidRun(s, ClaimRun(p, now))
    ensures var s' := Exec(s, ClaimRun(p, now));
            && Loc(s', p) == Working(j, true, Claimed) && OnlyLease(s', j, now + LEASE_TIMEOUT_SECONDS)
            && OnlyMoves(s, s', p)
  {
    var s1 := Next(s, EndReclaim(p));
    var s2 := Next(s1, Pop(p));
    assert Loc(s2, p) == Popped(j) && s2.store.queue == [];
    Then(s, [], EndReclaim(p));
    assert [] + [EndReclaim(p)] == [EndReclaim(p)];
    Then(s, [EndReclaim(p)], Pop(p));
    Then(s, [EndReclaim(p)] + [Pop(p)], ZAdd(p, now));
  }

  function UnlistRun(p: Pid, j: Job, now: int): seq<Action> {
    [Snapshot(p, now, [j])] + [ZRem(p)] + [LRem(p)] + [RPush(p)]
  }

  lemma Unlists(s: Sys, p: Pid, j: Job, expiry: int)
    requires Loc(s, p) == Idle && OnlyLease(s, j, expiry)
    ensures ValidRun(s, UnlistRun(p, j, expiry))
    ensures var s' := Exec(s, UnlistRun(p, j, expiry));
            Loc(s', p) == Reclaiming([]) && OnlyQueued(s', Bumped(j)) && OnlyMoves(s, s', p)
  {
    assert IsStaleList([j], s.store.leases, expiry);
    var s1 := Next(s, Snapshot(p, expiry, [j]));
    assert [j][1..] == [];
    var s2 := Next(s1, ZRem(p));
    assert Loc(s2, p) == Unleased(j, []) && s2.store.leases == map[];
    Then(s, [], Snapshot(p, expiry, [j]));
    assert [] + [Snapshot(p, expiry, [j])] == [Snapshot(p, expiry, [j])];
    Then(s, [Snapshot(p, expiry, [j])], ZRem(p));
    Then(s, [Snapshot(p, expiry, [j])] + [ZRem(p)], LRem(p));
    Then(s, [Snapshot(p, expiry, [j])] + [ZRem(p)] + [LRem(p)], RPush(p));
  }

  /** An idle process finds the lease expired and claims the job for itself. */
  function RetryRun(p: Pid, j: Job, expiry: int): seq<Action> {
    UnlistRun(p, j, expiry) + ClaimRun(p, expiry)
  }

  lemma Retries(s: Sys, p: Pid, j: Job, expiry: int)
    requires Loc(s, p) == Idle && OnlyLease(s, j, expiry)
    ensures ValidRun(s, RetryRun(p, j, expiry))
    ensures var s' := Exec(s, RetryRun(p, j, expiry));
            && Loc(s', p) == Working(Bumped(j), true, Claimed) && OnlyMoves(s, s', p)
            && OnlyLease(s', Bumped(j), expiry + LEASE_TIMEOUT_SECONDS)
  {
    Unlists(s, p, j, expiry);
    var s1 := Exec(s, UnlistRun(p, j, expiry));
    Claims(s1, p, Bumped(j), expiry);
    Append(s, UnlistRun(p, j, expiry), ClaimRun(p, expiry));
  }

  /** Process `p` stops and finds its own lease expired. */
  function RestartRun(p: Pid, j: Job, expiry: int): seq<Action> {
    [Crash(p)] + RetryRun(p, j, expiry)
  }

  lemma Restarts(s: Sys, p: Pid, j: Job, expiry: int)
    requires Loc(s, p).Working? && Loc(s, p).leased && OnlyLease(s, j, expiry)
    ensures ValidRun(s, RestartRun(p, j, expiry))
    ensures var s' := Exec(s, RestartRun(p, j, expiry));
            && Loc(s', p) == Working(Bumped(j), true, Claimed) && s'.statuses == s.statuses
            && OnlyLease(s', Bumped(j), expiry + LEASE_TIMEOUT_SECONDS)
  {
    Then(s, [], Crash(p));
    assert [] + [Crash(p)] == [Crash(p)];
    Retries(Next(s, Crash(p)), p, j, expiry);
    Append(s, [Crash(p)], RetryRun(p, j, expiry));
  }

  function Restarting(p: Pid, j: Job, expiry: int, n: nat): seq<Action>
    decreases n
  {
    if n == 0 then []
    else RestartRun(p, j, expiry) + Restarting(p, Bumped(j), expiry + LEASE_TIMEOUT_SECONDS, n - 1)
  }

  lemma {:induction false} RestartsTimes(s: Sys, p: Pid, j: Job, expiry: int, n: nat) returns (s': Sys)
    requires Loc(s, p).Working? && Loc(s, p).leased && OnlyLease(s, j, expiry)
    ensures Leads(s, Restarting(p, j, expiry, n), s')
    ensures s'.statuses == s.statuses && j.task in s'.h.latest && s'.h.latest[j.task] == j.attempt + n
    decreases n, 1
  {
    if n == 0 {
      s' := s;
    } else {
      Restarts(s, p, j, expiry);
      s' := RestartsMore(s, Exec(s, RestartRun(p, j, expiry)), p, j, expiry, n);
    }
  }

  lemma {:induction false} RestartsMore(s: Sys, s1: Sys, p: Pid, j: Job, expiry: int, n: nat) returns (s': Sys)
    requires n >= 1 && Leads(s, RestartRun(p, j, expiry), s1) && s1.statuses == s.statuses
    requires Loc(s1, p).Working? && Loc(s1, p).leased && OnlyLease(s1, Bumped(j), expiry + LEASE_TIMEOUT_SECONDS)
    ensures Leads(s, Restarting(p, j, expiry, n), s')
    ensures s'.statuses == s.statuses && j.task in s'.h.latest && s'.h.latest[j.task] == j.attempt + n
    decreases n, 0
  {
    var later := expiry + LEASE_TIMEOUT_SECONDS;
    s' := RestartsTimes(s1, p, Bumped(j), later, n - 1);
    Chain(s, RestartRun(p, j, expiry), s1, Restarting(p, Bumped(j), later, n - 1), s');
  }

  // ---------------------------------------------------------------- The run

  function EnqueueRun(t: Task): seq<Action> {
    [Announce(t)] + [Enqueue(t)] + [Snapshot(0, 0, [])]
  }

  lemma Enqueues(t: Task)
    ensures ValidRun(Init(true), EnqueueRun(t))
    ensures var s := Exec(Init(true), EnqueueRun(t));
            && Loc(s, 0) == Reclaiming([]) && OnlyQueued(s, Job(t, 0)) && s.store.payloads == {t}
            && s.statuses == map[t := Processing] && Loc(s, 1) == Idle
  {
    var s0 := Init(true);
    Then(s0, [], Announce(t));
    assert [] + [Announce(t)] == [Announce(t)];
    Then(s0, [Announce(t)], Enqueue(t));
    assert IsStaleList([], map[], 0);
    Then(s0, [Announce(t)] + [Enqueue(t)], Snapshot(0, 0, []));
  }

  function InterruptedRun(t: Task): seq<Action> {
    EnqueueRun(t) + ClaimRun(0, 0) + [Ack(0)]
  }

  /**
   A worker that is interrupted before it writes a status, for one by an exception of the payload read, still
   acknowledges: the payload is gone and the task says processing for good.
   */
  lemma InterruptedAck(t: Task)
    ensures ValidRun(Init(true), InterruptedRun(t))
    ensures var s := Exec(Init(true), InterruptedRun(t));
            Stuck(s, t) && NeverRequeued(s, t) && t in s.h.latest && t !in s.store.payloads && s.store.queue == []
  {
    var s0 := Init(true);
    Enqueues(t);
    Claims(Exec(s0, EnqueueRun(t)), 0, Job(t, 0), 0);
    Append(s0, EnqueueRun(t), ClaimRun(0, 0));
    Then(s0, EnqueueRun(t) + ClaimRun(0, 0), Ack(0));
  }

  /** Worker 0 processes the first attempt. */
  function FirstRun(t: Task): seq<Action> {
    EnqueueRun(t) + ClaimRun(0, 0) + [Fetch(0)] + [Mark(0)]
  }

  lemma Firsts(t: Task)
    ensures ValidRun(Init(true), FirstRun(t))
    ensures var s := Exec(Init(true), FirstRun(t));
            && Loc(s, 0) == Working(Job(t, 0), true, Running) && OnlyLease(s, Job(t, 0), LEASE_TIMEOUT_SECONDS)
            && Loc(s, 1) == Idle && s.statuses == map[t := Processing]
  {
    var s0 := Init(true);
    Enqueues(t);
    var s1 := Exec(s0, EnqueueRun(t));
    Claims(s1, 0, Job(t, 0), 0);
    Append(s0, EnqueueRun(t), ClaimRun(0, 0));
    Then(s0, EnqueueRun(t) + ClaimRun(0, 0), Fetch(0));
    Then(s0, EnqueueRun(t) + ClaimRun(0, 0) + [Fetch(0)], Mark(0));
  }

  function FinishRun(p: Pid): seq<Action> {
    [Finish(p, true)] + [Ack(p)]
  }

  /** A worker finishes an attempt after the next one was leased to somebody else. */
  lemma Finishes(s: Sys, p: Pid, j: Job, expiry: int)
    requires Loc(s, p) == Working(j, true, Running) && OnlyLease(s, Bumped(j), expiry)
    ensures ValidRun(s, FinishRun(p))
    ensures var s' := Exec(s, FinishRun(p));
            && (forall q: Pid :: q != p ==> Loc(s', q) == Loc(s, q)) && OnlyLease(s', Bumped(j), expiry)
            && j.task !in s'.store.payloads && s'.statuses == s.statuses[j.task := Completed]
  {
    Then(s, [], Finish(p, true));
    assert [] + [Finish(p, true)] == [Finish(p, true)];
    Then(s, [Finish(p, true)], Ack(p));
    assert map[Bumped(j) := expiry] - {j} == map[Bumped(j) := expiry];
  }

  /** Worker 1 takes the job over, and only then worker 0 finishes and acknowledges. */
  function TakeoverRun(t: Task): seq<Action> {
    FirstRun(t) + RetryRun(1, Job(t, 0), LEASE_TIMEOUT_SECONDS)
  }

  function LateRun(t: Task): seq<Action> {
    TakeoverRun(t) + FinishRun(0)
  }

  lemma Lates(t: Task)
    ensures ValidRun(Init(true), LateRun(t))
    ensures var s := Exec(Init(true), LateRun(t));
            && Loc(s, 1) == Working(Job(t, 1), true, Claimed) && OnlyLease(s, Job(t, 1), 2 * LEASE_TIMEOUT_SECONDS)
            && t !in s.store.payloads && s.statuses == map[t := Completed]
  {
    var s0 := Init(true);
    Firsts(t);
    Retries(Exec(s0, FirstRun(t)), 1, Job(t, 0), LEASE_TIMEOUT_SECONDS);
    Append(s0, FirstRun(t), RetryRun(1, Job(t, 0), LEASE_TIMEOUT_SECONDS));
    Finishes(Exec(s0, TakeoverRun(t)), 0, Job(t, 0), 2 * LEASE_TIMEOUT_SECONDS);
    Append(s0, TakeoverRun(t), FinishRun(0));
  }

  function MissRun(p: Pid): seq<Action> {
    [Fetch(p)] + [Mark(p)]
  }

  lemma Misses(s: Sys, p: Pid, j: Job, expiry: int)
    requires Loc(s, p) == Working(j, true, Claimed) && OnlyLease(s, j, expiry) && j.task !in s.store.payloads
    ensures ValidRun(s, MissRun(p))
    ensures var s' := Exec(s, MissRun(p));
            && Loc(s', p) == Working(j, true, Written) && OnlyLease(s', j, expiry)
            && s'.statuses == s.statuses[j.task := Failed]
  {
    Then(s, [], Fetch(p));
    assert [] + [Fetch(p)] == [Fetch(p)];
    Then(s, [Fetch(p)], Mark(p));
  }

  /** Worker 1 misses the payload; further attempts follow. */
  function MissingRun(t: Task, n: nat): seq<Action>
    requires n >= 1
  {
    MissRun(1) + Restarting(1, Job(t, 1), 2 * LEASE_TIMEOUT_SECONDS, n - 1)
  }

  /**
   When a lease expires under a live worker, its late acknowledgement deletes the payload of the next attempt,
   and the completed task becomes failed, however often it is requeued after that.
   */
  lemma CompletedThenFailed(t: Task, n: nat)
    requires n >= 1
    ensures ValidRun(Init(true), LateRun(t)) && ValidRun(Exec(Init(true), LateRun(t)), MissingRun(t, n))
    ensures var mid := Exec(Init(true), LateRun(t));
            var end := Exec(mid, MissingRun(t, n));
            && mid.statuses == map[t := Completed] && t !in mid.store.payloads
            && Loc(mid, 1) == Working(Job(t, 1), true, Claimed)
            && end.statuses == map[t := Failed] && t in end.h.latest && end.h.latest[t] == n
  {
    Lates(t);
    var mid := Exec(Init(true), LateRun(t));
    Misses(mid, 1, Job(t, 1), 2 * LEASE_TIMEOUT_SECONDS);
    var end := MissesOn(mid, Exec(mid, MissRun(1)), t, n);
    assert Leads(mid, MissingRun(t, n), end);
  }

  lemma MissesOn(s: Sys, s1: Sys, t: Task, n: nat) returns (s': Sys)
    requires n >= 1 && Leads(s, MissRun(1), s1) && OnlyLease(s1, Job(t, 1), 2 * LEASE_TIMEOUT_SECONDS)
    requires Loc(s1, 1).Working? && Loc(s1, 1).leased
    ensures Leads(s, MissingRun(t, n), s')
    ensures s'.statuses == s1.statuses && t in s'.h.latest && s'.h.latest[t] == n
  {
    s' := RestartsTimes(s1, 1, Job(t, 1), 2 * LEASE_TIMEOUT_SECONDS, n - 1);
    Chain(s, MissRun(1), s1, Restarting(1, Job(t, 1), 2 * LEASE_TIMEOUT_SECONDS, n - 1), s');
  }

  // ---------------------------------------------------------------- Exactly when a final status can change

  /** The status of `t` is final after `first` and another after `rest`, by when `t` was requeued `n` times. */
  ghost predicate Changes(requireRedis: bool, first: seq<Action>, rest: seq<Action>, t: Task, n: nat) {
    && ValidRun(Init(requireRedis), first) && ValidRun(Exec(Init(requireRedis), first), rest)
    && var mid := Exec(Init(requireRedis), first);
       var end := Exec(mid, rest);
       && (if t in end.h.latest then end.h.latest[t] else 0) == n
       && Final(mid, t) && !(Final(end, t) && end.statuses[t] == mid.statuses[t])
  }

  ghost predicate FinalStatusCanChange(n: nat) {
    exists requireRedis, first, rest, t :: Changes(requireRedis, first, rest, t, n)
  }

  /** Some run changes the final status of a task requeued `n` times if and only if `n` is at least 1. */
  lemma FinalUnlessRequeued(n: nat)
    ensures FinalStatusCanChange(n) <==> n >= 1
  {
    if FinalStatusCanChange(n) {
      var requireRedis, first, rest, t :| Changes(requireRedis, first, rest, t, n);
      StatusIsFinal(requireRedis, first, rest, t);
    }
    if n >= 1 {
      CompletedThenFailed("t", n);
      assert Changes(true, LateRun("t"), MissingRun("t", n), "t", n);
    }
  }
}
