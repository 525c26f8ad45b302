/** The queue functions of app/redis_client.py as methods on the Redis state, each running undisturbed. */
module RedisQueue {
  import opened Collections
  import opened IngestionQueue
  import opened ReclaimPass

  /** The store after the loop over `stale` has requeued every entry. */
  function Reclaimed(st: Store, stale: seq<Job>): Store
    decreases |stale|
  {
    if stale == [] then st
    else Reclaimed(Requeue(Unlist(RemoveLease(st, stale[0]), stale[0]), stale[0]), stale[1..])
  }

  /**
   What reclaiming does: expired leases go, their jobs leave the processing list and queue up again one attempt
   later, in order.
   */
  lemma {:induction false} ReclaimedStore(st: Store, stale: seq<Job>)
    requires NoDup(st.processing) && NoDup(stale)
    ensures var r := Reclaimed(st, stale);
            && r.queue == st.queue + seq(|stale|, i requires 0 <= i < |stale| => Bumped(stale[i]))
            && r.leases == st.leases - (set j | j in stale)
            && NoDup(r.processing) && (forall j :: j in r.processing <==> j in st.processing && j !in stale)
            && r.payloads == st.payloads
    decreases |stale|
  {
    if stale != [] {
      var j := stale[0];
      RemoveFirstExact(st.processing, j);
      ReclaimedStore(Requeue(Unlist(RemoveLease(st, j), j), j), stale[1..]);
      assert (set k | k in stale) == {j} + (set k | k in stale[1..]);
      assert forall k :: k in stale <==> k == j || k in stale[1..];
    }
  }

  /** The first `n` commands for one entry: ZREM, LREM, RPUSH. */
  function Moved(st: Store, j: Job, n: nat): Store {
    if n == 0 then st
    else if n == 1 then RemoveLease(st, j)
    else if n == 2 then Unlist(RemoveLease(st, j), j)
    else Requeue(Unlist(RemoveLease(st, j), j), j)
  }

  /** The store when only the first `n` commands of the loop over `stale` succeed. */
  function ReclaimedPart(st: Store, stale: seq<Job>, n: nat): Store
    decreases |stale|
  {
    if stale == [] then st
    else if n < 3 then Moved(st, stale[0], n)
    else ReclaimedPart(Moved(st, stale[0], n), stale[1..], n - 3)
  }

  lemma PartStep(st: Store, stale: seq<Job>, i: nat, n: nat)
    requires i < |stale|
    ensures ReclaimedPart(st, stale[i..], n) ==
            if n < 3 then Moved(st, stale[i], n) else ReclaimedPart(Moved(st, stale[i], n), stale[i + 1..], n - 3)
  {
    assert stale[i..][0] == stale[i] && stale[i..][1..] == stale[i + 1..];
  }

  /** The entries of the snapshot from `i` on still have their leases. */
  ghost predicate Pending(st: Store, stale: seq<Job>, i: nat) {
    NoDup(stale) && forall k :: i <= k < |stale| ==> stale[k] in st.leases
  }

  lemma PendingStep(st: Store, stale: seq<Job>, i: nat)
    requires i < |stale| && Pending(st, stale, i)
    ensures stale[i] in st.leases
    ensures forall n :: Pending(Moved(st, stale[i], n), stale, i + 1)
  {
  }

  lemma {:induction false} ReclaimedWhole(st: Store, stale: seq<Job>, n: nat)
    requires n >= 3 * |stale|
    ensures ReclaimedPart(st, stale, n) == Reclaimed(st, stale)
    decreases |stale|
  {
    if stale != [] {
      ReclaimedWhole(Requeue(Unlist(RemoveLease(st, stale[0]), stale[0]), stale[0]), stale[1..], n - 3);
    }
  }

  /**
   An interrupted pass loses one job at most: with `n` commands done the first `n / 3` jobs are requeued, and
   the leases of the first `(n + 2) / 3` are gone.
   */
  lemma {:induction false} InterruptedPass(st: Store, stale: seq<Job>, n: nat)
    requires NoDup(stale) && n < 3 * |stale| && forall j :: j in stale ==> j in st.leases
    ensures var r := ReclaimedPart(st, stale, n);
            && r.queue == st.queue + seq(n / 3, i requires 0 <= i < n / 3 => Bumped(stale[i]))
            && r.leases == st.leases - FirstJobs(stale, (n + 2) / 3)
    decreases |stale|
  {
    if n >= 3 {
      var j := stale[0];
      var next := Requeue(Unlist(RemoveLease(st, j), j), j);
      InterruptedPass(next, stale[1..], n - 3);
      FirstOf(stale, (n + 2) / 3);
    } else if n > 0 {
      assert FirstJobs(stale, (n + 2) / 3) == {stale[0]};
    }
  }

  function FirstJobs(stale: seq<Job>, k: nat): set<Job>
    requires k <= |stale|
  {
    set i | 0 <= i < k :: stale[i]
  }

  lemma FirstOf(stale: seq<Job>, k: nat)
    requires 1 <= k <= |stale|
    ensures FirstJobs(stale, k) == {stale[0]} + FirstJobs(stale[1..], k - 1)
  {
    assert forall i :: 1 <= i < |stale| ==> stale[i] == stale[1..][i - 1];
    forall x ensures x in FirstJobs(stale, k) <==> x == stale[0] || x in FirstJobs(stale[1..], k - 1) {
      if x in FirstJobs(stale, k) {
        var i :| 0 <= i < k && stale[i] == x;
        assert i > 0 ==> stale[1..][i - 1] == x;
      }
      if x in FirstJobs(stale[1..], k - 1) {
        var i :| 0 <= i < k - 1 && stale[1..][i] == x;
        assert stale[i + 1] == x;
      }
    }
  }

  // ---------------------------------------------------------------- The methods against the protocol

  /** The commands of one undisturbed round of the loop. */
  function RoundRun(p: Pid): seq<Action> {
    [ZRem(p)] + [LRem(p)] + [RPush(p)]
  }

  lemma SoloRound(s: Sys, p: Pid)
    requires Loc(s, p).Reclaiming? && Loc(s, p).stale != [] && Loc(s, p).stale[0] in s.store.leases
    ensures ValidRun(s, RoundRun(p))
    ensures var j := Loc(s, p).stale[0];
            var s' := Exec(s, RoundRun(p));
            && s'.store == Requeue(Unlist(RemoveLease(s.store, j), j), j)
            && Loc(s', p) == Reclaiming(Loc(s, p).stale[1..]) && s'.requireRedis == s.requireRedis
  {
    assert [] + [ZRem(p)] == [ZRem(p)];
    Then(s, [], ZRem(p));
    Then(s, [ZRem(p)], LRem(p));
    Then(s, [ZRem(p)] + [LRem(p)], RPush(p));
  }

  /** The commands of one undisturbed pass of process `p` over `n` expired leases. */
  function ReclaimSchedule(p: Pid, n: nat): seq<Action> {
    if n == 0 then [EndReclaim(p)] else RoundRun(p) + ReclaimSchedule(p, n - 1)
  }

  /** Undisturbed, the interleaved protocol computes what the reclaiming loop computes. */
  lemma {:induction false} SoloReclaim(s: Sys, p: Pid)
    requires Loc(s, p).Reclaiming? && NoDup(Loc(s, p).stale)
    requires forall j :: j in Loc(s, p).stale ==> j in s.store.leases
    ensures var stale := Loc(s, p).stale;
            && ValidRun(s, ReclaimSchedule(p, |stale|))
            && Exec(s, ReclaimSchedule(p, |stale|)).store == Reclaimed(s.store, stale)
            && Loc(Exec(s, ReclaimSchedule(p, |stale|)), p) == Claiming
    decreases |Loc(s, p).stale|
  {
    var stale := Loc(s, p).stale;
    if stale == [] {
      assert [] + [EndReclaim(p)] == [EndReclaim(p)];
      Then(s, [], EndReclaim(p));
    } else {
      SoloRound(s, p);
      SoloReclaim(Exec(s, RoundRun(p)), p);
      Append(s, RoundRun(p), ReclaimSchedule(p, |stale| - 1));
    }
  }

  /** Which Redis calls of a claim succeed: the range query, so many commands of the loop, the pop and the lease. */
  datatype Faults = Faults(list: bool, commands: nat, pop: bool, lease: bool)

  datatype ClaimResult = Raised | Nothing | Taken(job: Job)

  /** What the reclaiming pass of a claim leaves, and whether it raises. */
  function AfterReclaim(st: Store, stale: seq<Job>, faults: Faults): Store {
    if faults.list then ReclaimedPart(st, stale, faults.commands) else st
  }

  predicate ReclaimRaises(stale: seq<Job>, faults: Faults) {
    !faults.list || faults.commands < 3 * |stale|
  }

  // ---------------------------------------------------------------- A claim in the protocol

  /** The first `n` commands of an undisturbed pass. */
  function Commands(p: Pid, n: nat): seq<Action> {
    if n == 0 then [] else if n == 1 then [ZRem(p)] else if n == 2 then [ZRem(p)] + [LRem(p)]
    else RoundRun(p) + Commands(p, n - 3)
  }

  lemma SoloStart(s: Sys, p: Pid, n: nat)
    requires Loc(s, p).Reclaiming? && Loc(s, p).stale != [] && Loc(s, p).stale[0] in s.store.leases && 1 <= n <= 2
    ensures ValidRun(s, Commands(p, n))
    ensures var e := Exec(s, Commands(p, n));
            e.store == Moved(s.store, Loc(s, p).stale[0], n) && InPass(Loc(e, p)) && e.requireRedis == s.requireRedis
  {
    assert [] + [ZRem(p)] == [ZRem(p)];
    Then(s, [], ZRem(p));
    if n == 2 {
      Then(s, [ZRem(p)], LRem(p));
    }
  }

  lemma PendingTail(st: Store, stale: seq<Job>)
    requires Pending(st, stale, 0) && stale != []
    ensures stale[0] in st.leases && Pending(Moved(st, stale[0], 3), stale[1..], 0)
  {
    PendingStep(st, stale, 0);
    assert forall k :: 0 <= k < |stale[1..]| ==> stale[1..][k] == stale[k + 1];
  }

  lemma PartMore(st: Store, stale: seq<Job>, n: nat)
    requires stale != [] && n >= 3
    ensures ReclaimedPart(st, stale, n) == ReclaimedPart(Moved(st, stale[0], 3), stale[1..], n - 3)
  {
  }

  /** After a whole round, `e` is where the rest of the pass leads. */
  lemma SoloMore(s: Sys, s1: Sys, p: Pid, n: nat, e: Sys)
    requires n >= 3 && Loc(s, p).Reclaiming? && Loc(s, p).stale != []
    requires ValidRun(s, RoundRun(p)) && Exec(s, RoundRun(p)) == s1
    requires s1.store == Moved(s.store, Loc(s, p).stale[0], 3)
    requires ValidRun(s1, Commands(p, n - 3)) && Exec(s1, Commands(p, n - 3)) == e
    requires e.store == ReclaimedPart(s1.store, Loc(s, p).stale[1..], n - 3)
    ensures ValidRun(s, Commands(p, n)) && Exec(s, Commands(p, n)) == e
    ensures e.store == ReclaimedPart(s.store, Loc(s, p).stale, n)
  {
    Append(s, RoundRun(p), Commands(p, n - 3));
    PartMore(s.store, Loc(s, p).stale, n);
  }

  /** The first round of a pass. */
  lemma SoloFirst(s: Sys, p: Pid) returns (s1: Sys)
    requires Loc(s, p).Reclaiming? && Loc(s, p).stale != [] && Pending(s.store, Loc(s, p).stale, 0)
    ensures ValidRun(s, RoundRun(p)) && s1 == Exec(s, RoundRun(p))
    ensures s1.store == Moved(s.store, Loc(s, p).stale[0], 3) && s1.requireRedis == s.requireRedis
    ensures Loc(s1, p) == Reclaiming(Loc(s, p).stale[1..]) && Pending(s1.store, Loc(s, p).stale[1..], 0)
  {
    PendingTail(s.store, Loc(s, p).stale);
    SoloRound(s, p);
    s1 := Exec(s, RoundRun(p));
  }

  lemma {:induction false} SoloPart(s: Sys, p: Pid, n: nat)
    requires Loc(s, p).Reclaiming? && Pending(s.store, Loc(s, p).stale, 0) && n <= 3 * |Loc(s, p).stale|
    ensures ValidRun(s, Commands(p, n))
    ensures var e := Exec(s, Commands(p, n));
            && e.store == ReclaimedPart(s.store, Loc(s, p).stale, n) && e.requireRedis == s.requireRedis
            && InPass(Loc(e, p)) && (n == 3 * |Loc(s, p).stale| ==> Loc(e, p) == Reclaiming([]))
    decreases n
  {
    var stale := Loc(s, p).stale;
    if 1 <= n <= 2 {
      SoloStart(s, p, n);
    } else if n >= 3 {
      var s1 := SoloFirst(s, p);
      SoloPart(s1, p, n - 3);
      SoloMore(s, s1, p, n, Exec(s1, Commands(p, n - 3)));
    }
  }

  /** The reclaiming pass of a claim, up to the command that raises. */
  function PassRun(p: Pid, now: int, stale: seq<Job>, faults: Faults): seq<Action> {
    if !faults.list then [Fail(p)]
    else if faults.commands < 3 * |stale| then [Snapshot(p, now, stale)] + Commands(p, faults.commands) + [Fail(p)]
    else [Snapshot(p, now, stale)] + Commands(p, 3 * |stale|) + [EndReclaim(p)]
  }

  lemma SoloPass(s: Sys, p: Pid, now: int, stale: seq<Job>, faults: Faults)
    requires Loc(s, p).Idle? && IsStaleList(stale, s.store.leases, now)
    ensures ValidRun(s, PassRun(p, now, stale, faults))
    ensures var e := Exec(s, PassRun(p, now, stale, faults));
            && e.store == AfterReclaim(s.store, stale, faults) && e.requireRedis == s.requireRedis
            && Loc(e, p) == if ReclaimRaises(stale, faults) && s.requireRedis then Idle else Claiming
  {
    assert [] + [Fail(p)] == [Fail(p)] && [] + [Snapshot(p, now, stale)] == [Snapshot(p, now, stale)];
    if !faults.list {
      Then(s, [], Fail(p));
    } else {
      Then(s, [], Snapshot(p, now, stale));
      var s1 := Next(s, Snapshot(p, now, stale));
      var n := if faults.commands < 3 * |stale| then faults.commands else 3 * |stale|;
      SoloPart(s1, p, n);
      Append(s, [Snapshot(p, now, stale)], Commands(p, n));
      var last := if faults.commands < 3 * |stale| then Fail(p) else EndReclaim(p);
      Then(s, [Snapshot(p, now, stale)] + Commands(p, n), last);
      if faults.commands >= 3 * |stale| {
        ReclaimedWhole(s.store, stale, n);
        ReclaimedWhole(s.store, stale, faults.commands);
      }
    }
  }

  /** What follows the pass. */
  function TakeRun(p: Pid, st: Store, faults: Faults, leaseNow: int): seq<Action> {
    if !faults.pop then [Fail(p)]
    else if st.queue == [] then [Pop(p)]
    else [Pop(p)] + [if faults.lease then ZAdd(p, leaseNow) else Fail(p)]
  }

  lemma SoloTake(s: Sys, p: Pid, faults: Faults, leaseNow: int)
    requires Loc(s, p).Claiming?
    ensures ValidRun(s, TakeRun(p, s.store, faults, leaseNow))
    ensures var e := Exec(s, TakeRun(p, s.store, faults, leaseNow));
            if !faults.pop || s.store.queue == [] then e.store == s.store && Loc(e, p) == Idle
            else
              var j := s.store.queue[|s.store.queue| - 1];
              && Loc(e, p) == (if !faults.lease && s.requireRedis then Idle else Working(j, faults.lease, Claimed))
              && e.store == if !faults.lease then PopPush(s.store)
                            else AddLease(PopPush(s.store), j, leaseNow + LEASE_TIMEOUT_SECONDS)
  {
    var first := if faults.pop then Pop(p) else Fail(p);
    assert [] + [first] == [first];
    Then(s, [], first);
    if faults.pop && s.store.queue != [] {
      Then(s, [Pop(p)], if faults.lease then ZAdd(p, leaseNow) else Fail(p));
    }
  }

  /**
   An undisturbed claim in the protocol, whatever calls fail: it leaves the store and the job in hand that
   `ClaimIngestionJob` promises, and no job in hand where that raises or returns nothing.
   */
  lemma SoloClaim(s: Sys, p: Pid, now: int, leaseNow: int, stale: seq<Job>, faults: Faults)
    requires Loc(s, p).Idle? && IsStaleList(stale, s.store.leases, now)
    ensures var pass := PassRun(p, now, stale, faults);
            var st := AfterReclaim(s.store, stale, faults);
            var gives := !(ReclaimRaises(stale, faults) && s.requireRedis);
            var run := pass + if gives then TakeRun(p, st, faults, leaseNow) else [];
            && ValidRun(s, run)
            && var e := Exec(s, run);
               if !gives || !faults.pop || st.queue == [] then Loc(e, p) == Idle && e.store == st
               else
                 var j := st.queue[|st.queue| - 1];
                 && Loc(e, p) == (if !faults.lease && s.requireRedis then Idle else Working(j, faults.lease, Claimed))
                 && e.store == if !faults.lease then PopPush(st)
                               else AddLease(PopPush(st), j, leaseNow + LEASE_TIMEOUT_SECONDS)
  {
    var pass := PassRun(p, now, stale, faults);
    SoloPass(s, p, now, stale, faults);
    if ReclaimRaises(stale, faults) && s.requireRedis {
      assert pass + [] == pass;
    } else {
      SoloTake(Exec(s, pass), p, faults, leaseNow);
      Append(s, pass, TakeRun(p, AfterReclaim(s.store, stale, faults), faults, leaseNow));
    }
  }

  class RedisClient {
    var queue: seq<Job>
    var processing: seq<Job>
    var leases: map<Job, int>
    var payloads: set<Task>

    function View(): Store
      reads this
    {
      Store(queue, processing, leases, payloads)
    }

    constructor ()
      ensures View() == EMPTY
    {
      queue, processing, leases, payloads := [], [], map[], {};
    }

    method EnqueueIngestionJob(t: Task)
      modifies this
      ensures View() == EnqueuePipeline(old(View()), t)
    {
      payloads := payloads + {t};
      queue := queue + [Job(t, 0)];
    }

    method ZRangeByScore(now: int) returns (stale: seq<Job>)
      ensures IsStaleList(stale, leases, now)
    {
      stale := [];
      var todo := leases.Keys;
      while todo != {}
        invariant todo <= leases.Keys
        invariant NoDup(stale) && forall j :: j in stale <==> j in leases && j !in todo && leases[j] <= now
      {
        var j :| j in todo;
        if leases[j] <= now {
          NoDupAppend(stale, j);
          stale := stale + [j];
        }
        todo := todo - {j};
      }
    }

    method ZRem(j: Job) returns (removed: bool)
      modifies this`leases
      ensures removed <==> j in old(leases)
      ensures View() == RemoveLease(old(View()), j)
    {
      removed := j in leases;
      leases := leases - {j};
    }

    method LRem(j: Job)
      modifies this`processing
      ensures View() == Unlist(old(View()), j)
    {
      processing := RemoveFirst(processing, j);
    }

    method RPush(j: Job)
      modifies this`queue
      ensures View() == old(View()).(queue := old(queue) + [j])
    {
      queue := queue + [j];
    }

    /** `faults.commands` Redis commands of the loop succeed; the next one raises. */
    method ReclaimStaleIngestionJobs(now: int, faults: Faults)
        returns (raised: bool, reclaimed: nat, ghost stale: seq<Job>)
      modifies this
      ensures IsStaleList(stale, old(leases), now)
      ensures View() == AfterReclaim(old(View()), stale, faults)
      ensures raised <==> ReclaimRaises(stale, faults)
      ensures !raised ==> reclaimed == |stale| && View() == Reclaimed(old(View()), stale)
    {
      var staleJobs := ZRangeByScore(now);
      stale := staleJobs;
      if !faults.list {
        return true, 0, stale;
      }
      raised, reclaimed := RequeueStale(staleJobs, faults.commands);
      if !raised {
        ReclaimedWhole(old(View()), stale, faults.commands);
      }
    }

    /** The body of the loop; the third command of an entry counts it. */
    method RequeueStaleJob(rawJob: Job, commands: nat) returns (raised: bool, requeued: bool)
      modifies this
      ensures rawJob in old(leases) ==>
                View() == Moved(old(View()), rawJob, commands) && requeued == (commands >= 3) && raised == !requeued
      ensures rawJob !in old(leases) ==> View() == old(View()) && !requeued && raised == (commands == 0)
    {
      if commands == 0 {
        return true, false;
      }
      var removed := ZRem(rawJob);
      if !removed {
        return false, false;
      }
      if commands == 1 {
        return true, false;
      }
      LRem(rawJob);
      if commands == 2 {
        return true, false;
      }
      RPush(Job(rawJob.task, rawJob.attempt + 1));
      return false, true;
    }

    /** The loop over the snapshot. */
    method RequeueStale(staleJobs: seq<Job>, commands: nat) returns (raised: bool, reclaimed: nat)
      requires Pending(View(), staleJobs, 0)
      modifies this
      ensures View() == ReclaimedPart(old(View()), staleJobs, commands)
      ensures raised <==> commands < 3 * |staleJobs|
      ensures !raised ==> reclaimed == |staleJobs|
    {
      reclaimed := 0;
      var left := commands;
      ghost var goal := ReclaimedPart(View(), staleJobs, left);
      assert staleJobs[0..] == staleJobs;
      for i := 0 to |staleJobs|
        invariant Pending(View(), staleJobs, i)
        invariant ReclaimedPart(View(), staleJobs[i..], left) == goal
        invariant reclaimed == i && left == commands - 3 * i
      {
        PartStep(View(), staleJobs, i, left);
        PendingStep(View(), staleJobs, i);
        var stop, requeued := RequeueStaleJob(staleJobs[i], left);
        if stop {
          return true, reclaimed;
        }
        if !requeued {
          continue;
        }
        reclaimed := reclaimed + 1;
        left := left - 3;
      }
      raised := false;
    }

    /** `now` is the clock of the reclaiming pass, `leaseNow` the later clock of the lease. */
    method ClaimIngestionJob(now: int, leaseNow: int, requireRedis: bool, faults: Faults)
        returns (result: ClaimResult, ghost stale: seq<Job>)
      modifies this
      ensures IsStaleList(stale, old(leases), now)
      ensures var st := AfterReclaim(old(View()), stale, faults);
              if ReclaimRaises(stale, faults) && requireRedis then result == Raised && View() == st
              else if !faults.pop || st.queue == [] then result == Nothing && View() == st
              else
                var j := st.queue[|st.queue| - 1];
                && result == (if !faults.lease && requireRedis then Raised else Taken(j))
                && View() == if !faults.lease then PopPush(st)
                             else AddLease(PopPush(st), j, leaseNow + 900)
    {
      var raised, _, expired := ReclaimStaleIngestionJobs(now, faults);
      stale := expired;
      if raised && requireRedis {
        return Raised, stale;
      }
      if !faults.pop || queue == [] {
        return Nothing, stale;
      }
      var rawJob := queue[|queue| - 1];
      queue := queue[..|queue| - 1];
      processing := [rawJob] + processing;
      if !faults.lease {
        return if requireRedis then Raised else Taken(rawJob), stale;
      }
      leases := leases[rawJob := leaseNow + LEASE_TIMEOUT_SECONDS];
      result := Taken(rawJob);
    }

    method AcknowledgeIngestionJob(job: Job)
      modifies this
      ensures View() == AckPipeline(old(View()), job)
    {
      processing := RemoveFirst(processing, job);
      leases := leases - {job};
      payloads := payloads - {job.task};
    }
  }

  /** A worker that finds expired leases gets the last one it requeued, ahead of everything that waited longer. */
  lemma ReclaimedFirst(st: Store, stale: seq<Job>)
    requires NoDup(st.processing) && NoDup(stale) && stale != []
    ensures var q := Reclaimed(st, stale).queue; q != [] && q[|q| - 1] == Bumped(stale[|stale| - 1])
  {
    ReclaimedStore(st, stale);
  }
}
