/**
 The fixed-window limiter `is_rate_limit_exceeded` (app/redis_client.py) for one key: INCR and EXPIRE are
 separate commands of concurrent requests, so the window may start late or, if the request stops, never.
 */
module RateLimit {
  import opened Collections

  type Pid = nat

  /** The counter key; without an expiry it lives on. */
  datatype Counter = Counter(count: nat, expiry: Option<int>)

  /** An accepted or refused request in lifetime number `life` of the key. */
  datatype Entry = Entry(time: int, life: nat, accepted: bool)

  /**
   History: the first INCR of every lifetime, the log of counted requests, and the times of the requests that were
   let through because their INCR failed.  A request whose EXPIRE fails is logged like one that is about to send it.
   */
  datatype Sys = Sys(
    key: Option<Counter>, pending: set<Pid>, now: int, starts: seq<int>, log: seq<Entry>, free: seq<int>)

  datatype Config = Config(limit: nat, window: nat, requireRedis: bool)

  datatype Action = Incr(p: Pid, time: int) | Expire(p: Pid, time: int) | IncrFails(p: Pid, time: int)

  function Init(now: int): Sys {
    Sys(None, {}, now, [], [], [])
  }

  /** Redis drops a key after its expiry instant; at that instant it is still there. */
  predicate Live(key: Option<Counter>, time: int) {
    key.Some? && (key.value.expiry.Some? ==> time <= key.value.expiry.value)
  }

  /** Time does not run backwards, a request has one EXPIRE at most to send. */
  predicate Enabled(s: Sys, a: Action) {
    s.now <= a.time && if a.Expire? then a.p in s.pending else a.p !in s.pending
  }

  function Next(s: Sys, cfg: Config, a: Action): Sys {
    match a
    case Incr(p, time) =>
      var live := Live(s.key, time);
      var count := if live then s.key.value.count + 1 else 1;
      var starts := if live then s.starts else s.starts + [time];
      Sys(Some(Counter(count, if live then s.key.value.expiry else None)),
          if count == 1 then s.pending + {p} else s.pending, time, starts,
          s.log + [Entry(time, if |starts| > 0 then |starts| - 1 else 0, count <= cfg.limit)], s.free)
    case Expire(p, time) =>
      s.(pending := s.pending - {p}, now := time,
         key := if Live(s.key, time) then Some(s.key.value.(expiry := Some(time + cfg.window))) else s.key)
    // the exception handler counts nothing
    case IncrFails(_, time) => s.(now := time, free := if cfg.requireRedis then s.free else s.free + [time])
  }

  predicate ValidRun(s: Sys, cfg: Config, run: seq<Action>)
    decreases |run|
  {
    run == [] || (Enabled(s, run[0]) && ValidRun(Next(s, cfg, run[0]), cfg, run[1..]))
  }

  function Exec(s: Sys, cfg: Config, run: seq<Action>): Sys
    decreases |run|
  {
    if run == [] then s else Exec(Next(s, cfg, run[0]), cfg, run[1..])
  }

  // ---------------------------------------------------------------- Counting

  predicate InSpan(e: Entry, from: int, cfg: Config) {
    e.accepted && from <= e.time <= from + cfg.window
  }

  /** Accepted requests in the closed span of one window length that begins at `from`. */
  function AcceptedIn(log: seq<Entry>, from: int, cfg: Config): nat
    decreases |log|
  {
    if log == [] then 0
    else AcceptedIn(log[..|log| - 1], from, cfg) + if InSpan(log[|log| - 1], from, cfg) then 1 else 0
  }

  /** Requests let through without being counted. */
  function FreeIn(free: seq<int>, from: int, cfg: Config): nat
    decreases |free|
  {
    if free == [] then 0
    else FreeIn(free[..|free| - 1], from, cfg) + if from <= free[|free| - 1] <= from + cfg.window then 1 else 0
  }

  /** Accepted requests of one lifetime of the key. */
  function AcceptedOf(log: seq<Entry>, life: int): nat
    decreases |log|
  {
    if log == [] then 0
    else AcceptedOf(log[..|log| - 1], life) + if log[|log| - 1].accepted && log[|log| - 1].life == life then 1 else 0
  }

  lemma {:induction false} SpanWithinTwoLives(log: seq<Entry>, from: int, cfg: Config, life: nat)
    requires forall i :: 0 <= i < |log| && InSpan(log[i], from, cfg) ==> log[i].life == life || log[i].life == life + 1
    ensures AcceptedIn(log, from, cfg) <= AcceptedOf(log, life) + AcceptedOf(log, life + 1)
    decreases |log|
  {
    if log != [] {
      SpanWithinTwoLives(log[..|log| - 1], from, cfg, life);
    }
  }

  lemma {:induction false} SpanMissesOne(log: seq<Entry>, from: int, cfg: Config, life: nat, i: nat)
    requires forall i :: 0 <= i < |log| && InSpan(log[i], from, cfg) ==> log[i].life == life || log[i].life == life + 1
    requires i < |log| && log[i].accepted && log[i].life == life && !InSpan(log[i], from, cfg)
    ensures AcceptedIn(log, from, cfg) + 1 <= AcceptedOf(log, life) + AcceptedOf(log, life + 1)
    decreases |log|
  {
    if i < |log| - 1 {
      SpanMissesOne(log[..|log| - 1], from, cfg, life, i);
    } else {
      SpanWithinTwoLives(log[..|log| - 1], from, cfg, life);
    }
  }

  lemma {:induction false} SpanWithinLife(log: seq<Entry>, from: int, cfg: Config, life: nat)
    requires forall i :: 0 <= i < |log| && InSpan(log[i], from, cfg) ==> log[i].life == life
    ensures AcceptedIn(log, from, cfg) <= AcceptedOf(log, life)
    decreases |log|
  {
    if log != [] {
      SpanWithinLife(log[..|log| - 1], from, cfg, life);
    }
  }

  lemma {:induction false} NoneOf(log: seq<Entry>, life: int)
    requires forall i :: 0 <= i < |log| ==> log[i].life != life
    ensures AcceptedOf(log, life) == 0
    decreases |log|
  {
    if log != [] {
      NoneOf(log[..|log| - 1], life);
    }
  }

  // ---------------------------------------------------------------- The invariant

  /** Lifetimes start more than a window apart, and each request lies in its lifetime. */
  ghost predicate InvTimes(s: Sys, cfg: Config) {
    && (forall g :: 0 <= g < |s.starts| ==> s.starts[g] <= s.now)
    && (forall g, h :: 0 <= g < h < |s.starts| ==> s.starts[g] + cfg.window < s.starts[h])
    && (forall i :: 0 <= i < |s.log| ==> InLife(s.log[i], s.starts, s.now))
    && (forall i, j :: 0 <= i < j < |s.log| ==> s.log[i].life <= s.log[j].life)
  }

  /** The request came after the first of its lifetime and before every later lifetime. */
  ghost predicate InLife(e: Entry, starts: seq<int>, now: int) {
    && e.life < |starts| && starts[e.life] <= e.time <= now
    && forall g :: e.life < g < |starts| ==> e.time < starts[g]
  }

  lemma InLifeLater(e: Entry, starts: seq<int>, now: int, next: int)
    requires InLife(e, starts, now) && now <= next && e.time < next
    ensures InLife(e, starts, next) && InLife(e, starts + [next], next)
  {
  }

  /** Only the first request of the current lifetime may still have to send its EXPIRE. */
  ghost predicate InvKey(s: Sys, cfg: Config) {
    && (s.key.None? ==> s.starts == [] && s.pending == {})
    && (s.key.Some? ==> s.starts != [] && s.key.value.count >= 1)
    && (s.key.Some? && s.key.value.expiry.Some? ==>
          s.pending == {} && s.starts[|s.starts| - 1] + cfg.window <= s.key.value.expiry.value)
    && (s.key.Some? && s.key.value.expiry.None? ==> exists p :: s.pending == {p})
    && (s.key.Some? && s.key.value.expiry.Some? ==>
          forall i :: 0 <= i < |s.log| ==> s.log[i].time <= s.key.value.expiry.value)
  }

  ghost predicate InvCounts(s: Sys, cfg: Config) {
    && (forall g: int :: AcceptedOf(s.log, g) <= cfg.limit)
    && (s.key.Some? ==>
          AcceptedOf(s.log, |s.starts| - 1) == if s.key.value.count <= cfg.limit then s.key.value.count else cfg.limit)
  }

  /** Request `i` opened lifetime `g`. */
  ghost predicate Opens(s: Sys, i: int, g: int) {
    0 <= i < |s.log| && 0 <= g < |s.starts| && s.log[i].life == g && s.log[i].time == s.starts[g] && s.log[i].accepted
  }

  ghost predicate HasOpener(s: Sys, g: int) {
    exists i :: Opens(s, i, g)
  }

  ghost predicate InvOpen(s: Sys, cfg: Config) {
    cfg.limit >= 1 ==> forall g :: 0 <= g < |s.starts| ==> HasOpener(s, g)
  }

  ghost predicate Inv(s: Sys, cfg: Config) {
    InvTimes(s, cfg) && InvKey(s, cfg) && InvCounts(s, cfg) && InvOpen(s, cfg)
  }

  /** A request in the current lifetime. */
  lemma TimesCounted(s: Sys, s': Sys, cfg: Config, e: Entry)
    requires InvTimes(s, cfg) && s.starts != [] && s.now <= e.time && e.life == |s.starts| - 1
    requires s'.starts == s.starts && s'.log == s.log + [e] && s'.now == e.time
    ensures InvTimes(s', cfg)
  {
    assert s.starts[e.life] <= s.now;
    assert InLife(e, s'.starts, s'.now);
    forall i | 0 <= i < |s'.log| ensures InLife(s'.log[i], s'.starts, s'.now) {
      assert i < |s.log| ==> s'.log[i] == s.log[i];
    }
  }

  /** A request that starts the next lifetime. */
  lemma TimesFirst(s: Sys, s': Sys, cfg: Config, e: Entry)
    requires InvTimes(s, cfg) && s.now <= e.time && e.life == |s.starts|
    requires s'.starts == s.starts + [e.time] && s'.log == s.log + [e] && s'.now == e.time
    requires forall g :: 0 <= g < |s.starts| ==> s.starts[g] + cfg.window < e.time
    requires forall i :: 0 <= i < |s.log| ==> s.log[i].time < e.time
    ensures InvTimes(s', cfg)
  {
    assert InLife(e, s'.starts, s'.now);
    forall i | 0 <= i < |s'.log| ensures InLife(s'.log[i], s'.starts, s'.now) {
      if i < |s.log| {
        InLifeLater(s.log[i], s.starts, s.now, e.time);
      }
    }
  }

  lemma StepCounted(s: Sys, cfg: Config, a: Action)
    requires Inv(s, cfg) && Enabled(s, a) && a.Incr? && Live(s.key, a.time)
    ensures InvTimes(Next(s, cfg, a), cfg) && InvKey(Next(s, cfg, a), cfg)
  {
    var s' := Next(s, cfg, a);
    TimesCounted(s, s', cfg, s'.log[|s.log|]);
  }

  lemma StepFirst(s: Sys, cfg: Config, a: Action)
    requires Inv(s, cfg) && Enabled(s, a) && a.Incr? && !Live(s.key, a.time)
    ensures InvTimes(Next(s, cfg, a), cfg) && InvKey(Next(s, cfg, a), cfg)
  {
    var s' := Next(s, cfg, a);
    var m := |s.starts|;
    assert s.pending == {} && s'.pending == {a.p};
    forall g | 0 <= g < m ensures s.starts[g] + cfg.window < a.time {
      assert g < m - 1 ==> s.starts[g] + cfg.window < s.starts[m - 1];
    }
    forall i | 0 <= i < |s.log| ensures s.log[i].time < a.time {
      assert InLife(s.log[i], s.starts, s.now);
    }
    TimesFirst(s, s', cfg, s'.log[|s.log|]);
  }

  lemma StepCounts(s: Sys, cfg: Config, a: Action)
    requires Inv(s, cfg) && Enabled(s, a) && a.Incr?
    requires InvKey(Next(s, cfg, a), cfg)
    ensures InvCounts(Next(s, cfg, a), cfg)
  {
    var s' := Next(s, cfg, a);
    assert s'.log[..|s'.log| - 1] == s.log;
    if !Live(s.key, a.time) {
      NoneOf(s.log, |s.starts|);
    }
  }

  lemma StepOpen(s: Sys, cfg: Config, a: Action)
    requires Inv(s, cfg) && Enabled(s, a) && a.Incr?
    ensures InvOpen(Next(s, cfg, a), cfg)
  {
    var s' := Next(s, cfg, a);
    if cfg.limit >= 1 {
      forall g | 0 <= g < |s'.starts| ensures HasOpener(s', g) {
        if g < |s.starts| {
          assert HasOpener(s, g);
          var i :| Opens(s, i, g);
          assert Opens(s', i, g);
        } else {
          assert Opens(s', |s.log|, g);
        }
      }
    }
  }

  lemma StepInv(s: Sys, cfg: Config, a: Action)
    requires Inv(s, cfg) && Enabled(s, a) && cfg.window > 0
    ensures Inv(Next(s, cfg, a), cfg)
  {
    if a.Incr? {
      if Live(s.key, a.time) {
        StepCounted(s, cfg, a);
      } else {
        StepFirst(s, cfg, a);
      }
      StepCounts(s, cfg, a);
      StepOpen(s, cfg, a);
    } else {
      StepQuiet(s, cfg, a);
    }
  }

  /** EXPIRE and a failing INCR count nothing. */
  lemma StepQuiet(s: Sys, cfg: Config, a: Action)
    requires Inv(s, cfg) && Enabled(s, a) && !a.Incr?
    ensures Inv(Next(s, cfg, a), cfg)
  {
    if a.Expire? {
      var p :| s.pending == {p};
      assert s.pending - {a.p} == {};
    }
    forall g | HasOpener(s, g) ensures HasOpener(Next(s, cfg, a), g) {
      var i :| Opens(s, i, g);
      assert Opens(Next(s, cfg, a), i, g);
    }
    forall i | 0 <= i < |s.log| ensures InLife(s.log[i], s.starts, a.time) {
      assert InLife(s.log[i], s.starts, s.now);
    }
  }

  lemma {:induction false} RunInv(s: Sys, cfg: Config, run: seq<Action>)
    requires Inv(s, cfg) && ValidRun(s, cfg, run) && cfg.window > 0
    ensures Inv(Exec(s, cfg, run), cfg)
    decreases |run|
  {
    if run != [] {
      StepInv(s, cfg, run[0]);
      RunInv(Next(s, cfg, run[0]), cfg, run[1..]);
    }
  }

  // ---------------------------------------------------------------- The bounds

  lemma FirstInSpan(log: seq<Entry>, from: int, cfg: Config) returns (k: nat)
    ensures k <= |log| && forall i :: 0 <= i < k ==> !InSpan(log[i], from, cfg)
    ensures k < |log| ==> InSpan(log[k], from, cfg)
  {
    k := 0;
    while k < |log| && !InSpan(log[k], from, cfg)
      invariant k <= |log| && forall i :: 0 <= i < k ==> !InSpan(log[i], from, cfg)
    {
      k := k + 1;
    }
  }

  /** Requests two lifetimes apart are more than a window apart: the lifetime between them lasted that long. */
  lemma LivesApart(s: Sys, cfg: Config, i: nat, j: nat)
    requires InvTimes(s, cfg) && i < |s.log| && j < |s.log| && s.log[i].life + 1 < s.log[j].life
    ensures s.log[i].time + cfg.window < s.log[j].time
  {
    var g := s.log[i].life + 1;
    assert InLife(s.log[i], s.starts, s.now) && InLife(s.log[j], s.starts, s.now);
    assert s.log[i].time < s.starts[g];
    assert s.starts[g] + cfg.window < s.starts[s.log[j].life];
  }

  /** A span that reaches into the next lifetime begins after the request that opened the previous one. */
  lemma SpanMissesOpener(s: Sys, cfg: Config, from: int, life: nat, j: nat)
    requires Inv(s, cfg) && j < |s.log| && InSpan(s.log[j], from, cfg) && s.log[j].life == life + 1 && cfg.limit >= 1
    ensures exists i :: 0 <= i < |s.log| && s.log[i].accepted && s.log[i].life == life && !InSpan(s.log[i], from, cfg)
  {
    assert InLife(s.log[j], s.starts, s.now);
    assert s.starts[life] + cfg.window < s.starts[life + 1];
    assert HasOpener(s, life);
    var i :| Opens(s, i, life);
  }

  lemma BoundFromInv(s: Sys, cfg: Config, from: int)
    requires Inv(s, cfg)
    ensures AcceptedIn(s.log, from, cfg) <= if cfg.limit == 0 then 0 else 2 * cfg.limit - 1
  {
    var k := FirstInSpan(s.log, from, cfg);
    var life := if k < |s.log| then s.log[k].life else 0;
    forall i | 0 <= i < |s.log| && InSpan(s.log[i], from, cfg)
      ensures s.log[i].life == life || s.log[i].life == life + 1
    {
      if s.log[k].life + 1 < s.log[i].life {
        LivesApart(s, cfg, k, i);
      }
    }
    SpanWithinTwoLives(s.log, from, cfg, life);
    if j :| 0 <= j < |s.log| && InSpan(s.log[j], from, cfg) && s.log[j].life == life + 1 && cfg.limit >= 1 {
      SpanMissesOpener(s, cfg, from, life, j);
      var i :| 0 <= i < |s.log| && s.log[i].accepted && s.log[i].life == life && !InSpan(s.log[i], from, cfg);
      SpanMissesOne(s.log, from, cfg, life, i);
    } else if cfg.limit >= 1 {
      SpanWithinLife(s.log, from, cfg, life);
    }
  }

  /**
   Fixed-window bound: in any interleaving of INCR and EXPIRE each lifetime of the key accepts at most
   `limit` requests, and any closed span of one window length fewer than twice as many.
   */
  lemma FixedWindowBound(cfg: Config, now: int, run: seq<Action>, from: int)
    requires ValidRun(Init(now), cfg, run) && cfg.window > 0
    ensures forall g: int :: AcceptedOf(Exec(Init(now), cfg, run).log, g) <= cfg.limit
    ensures AcceptedIn(Exec(Init(now), cfg, run).log, from, cfg) <= if cfg.limit == 0 then 0 else 2 * cfg.limit - 1
  {
    RunInv(Init(now), cfg, run);
    BoundFromInv(Exec(Init(now), cfg, run), cfg, from);
  }

  // ---------------------------------------------------------------- Failing INCR calls

  lemma {:induction false} NothingFree(s: Sys, cfg: Config, run: seq<Action>)
    requires cfg.requireRedis && s.free == [] && ValidRun(s, cfg, run)
    ensures Exec(s, cfg, run).free == []
    decreases |run|
  {
    if run != [] {
      NothingFree(Next(s, cfg, run[0]), cfg, run[1..]);
    }
  }

  /** `k` requests at once while Redis does not answer. */
  function Outage(k: nat): seq<Action> {
    if k == 0 then [] else [IncrFails(0, 0)] + Outage(k - 1)
  }

  lemma {:induction false} OutageAccepted(s: Sys, cfg: Config, k: nat)
    requires !cfg.requireRedis && s.now == 0 && s.pending == {}
    ensures ValidRun(s, cfg, Outage(k))
    ensures FreeIn(Exec(s, cfg, Outage(k)).free, 0, cfg) == FreeIn(s.free, 0, cfg) + k
    decreases k
  {
    if k > 0 {
      var s1 := Next(s, cfg, IncrFails(0, 0));
      assert s1.free[..|s1.free| - 1] == s.free;
      OutageAccepted(s1, cfg, k - 1);
      assert Outage(k)[1..] == Outage(k - 1);
    }
  }

  /** All that is accepted in a span, counted or not, stays below twice the limit in every run. */
  ghost predicate BoundHolds(cfg: Config) {
    forall now, run, from :: ValidRun(Init(now), cfg, run) ==> SpanBounded(Exec(Init(now), cfg, run), from, cfg)
  }

  predicate SpanBounded(s: Sys, from: int, cfg: Config) {
    AcceptedIn(s.log, from, cfg) + FreeIn(s.free, from, cfg) < 2 * cfg.limit
  }

  /** The bound survives failing INCR calls exactly when Redis is required. */
  lemma BoundIffRedisRequired(cfg: Config)
    requires cfg.limit >= 1 && cfg.window >= 1
    ensures BoundHolds(cfg) <==> cfg.requireRedis
  {
    if cfg.requireRedis {
      forall now, run, from | ValidRun(Init(now), cfg, run) ensures SpanBounded(Exec(Init(now), cfg, run), from, cfg) {
        FixedWindowBound(cfg, now, run, from);
        NothingFree(Init(now), cfg, run);
      }
    } else {
      OutageAccepted(Init(0), cfg, 2 * cfg.limit);
      assert !SpanBounded(Exec(Init(0), cfg, Outage(2 * cfg.limit)), 0, cfg);
    }
  }

  // ---------------------------------------------------------------- The bound is reached

  function Burst(k: nat, time: int): seq<Action> {
    if k == 0 then [] else [Incr(1, time)] + Burst(k - 1, time)
  }

  lemma {:induction false} Append(s: Sys, cfg: Config, a: seq<Action>, b: seq<Action>)
    requires ValidRun(s, cfg, a) && ValidRun(Exec(s, cfg, a), cfg, b)
    ensures ValidRun(s, cfg, a + b) && Exec(s, cfg, a + b) == Exec(Exec(s, cfg, a), cfg, b)
    decreases |a|
  {
    if a == [] {
      assert a + b == b;
    } else {
      var s1, rest := Next(s, cfg, a[0]), a[1..] + b;
      assert ValidRun(s1, cfg, a[1..]) && Exec(s, cfg, a) == Exec(s1, cfg, a[1..]);
      Append(s1, cfg, a[1..], b);
      assert (a + b)[0] == a[0] && (a + b)[1..] == rest;
      assert Exec(s, cfg, a + b) == Exec(s1, cfg, rest);
    }
  }

  lemma BurstStep(s: Sys, cfg: Config, time: int, from: int)
    requires Live(s.key, time) && s.now <= time && 1 !in s.pending && from <= time <= from + cfg.window
    requires 1 <= s.key.value.count < cfg.limit
    ensures Enabled(s, Incr(1, time))
    ensures var e := Next(s, cfg, Incr(1, time));
            && AcceptedIn(e.log, from, cfg) == AcceptedIn(s.log, from, cfg) + 1
            && e.key == Some(s.key.value.(count := s.key.value.count + 1)) && e.pending == s.pending && e.now == time
  {
    var e := Next(s, cfg, Incr(1, time));
    assert e.log[..|e.log| - 1] == s.log;
  }

  lemma {:induction false} BurstAccepted(s: Sys, cfg: Config, k: nat, time: int, from: int)
    requires Live(s.key, time) && s.now <= time && 1 !in s.pending && from <= time <= from + cfg.window
    requires 1 <= s.key.value.count && s.key.value.count + k <= cfg.limit
    ensures ValidRun(s, cfg, Burst(k, time))
    ensures var e := Exec(s, cfg, Burst(k, time));
            && AcceptedIn(e.log, from, cfg) == AcceptedIn(s.log, from, cfg) + k
            && e.key == Some(s.key.value.(count := s.key.value.count + k)) && e.pending == s.pending && e.now <= time
    decreases k
  {
    if k > 0 {
      BurstStep(s, cfg, time, from);
      BurstAccepted(Next(s, cfg, Incr(1, time)), cfg, k - 1, time, from);
      assert Burst(k, time)[1..] == Burst(k - 1, time);
    }
  }

  /** A whole window's worth of requests: the first sends its EXPIRE, the others follow at time `later`. */
  function Volley(cfg: Config, time: int, later: int): seq<Action>
    requires cfg.limit >= 1
  {
    [Incr(0, time), Expire(0, time)] + Burst(cfg.limit - 1, later)
  }

  lemma VolleyOpens(s: Sys, cfg: Config, time: int, from: int)
    requires cfg.limit >= 1 && cfg.window >= 1 && time <= from + cfg.window
    requires !Live(s.key, time) && s.now <= time && s.pending == {}
    ensures var first := [Incr(0, time), Expire(0, time)];
            var e := Exec(s, cfg, first);
            && ValidRun(s, cfg, first)
            && AcceptedIn(e.log, from, cfg) == AcceptedIn(s.log, from, cfg) + (if from <= time then 1 else 0)
            && e.key == Some(Counter(1, Some(time + cfg.window))) && e.pending == {} && e.now == time
  {
    var s1 := Next(s, cfg, Incr(0, time));
    assert s1.log[..|s1.log| - 1] == s.log;
    var first := [Incr(0, time), Expire(0, time)];
    assert first[1..] == [Expire(0, time)] && first[1..][1..] == [];
    assert Exec(s1, cfg, first[1..]) == Next(s1, cfg, Expire(0, time));
  }

  lemma VolleyAccepted(s: Sys, cfg: Config, time: int, later: int, from: int)
    requires cfg.limit >= 1 && cfg.window >= 1
    requires from <= later <= from + cfg.window && time <= later <= time + cfg.window
    requires !Live(s.key, time) && s.now <= time && s.pending == {}
    ensures ValidRun(s, cfg, Volley(cfg, time, later))
    ensures var e := Exec(s, cfg, Volley(cfg, time, later));
            && AcceptedIn(e.log, from, cfg) ==
               AcceptedIn(s.log, from, cfg) + cfg.limit - (if from <= time then 0 else 1)
            && e.key == Some(Counter(cfg.limit, Some(time + cfg.window))) && e.pending == {} && e.now <= later
  {
    var first := [Incr(0, time), Expire(0, time)];
    VolleyOpens(s, cfg, time, from);
    BurstAccepted(Exec(s, cfg, first), cfg, cfg.limit - 1, later, from);
    Append(s, cfg, first, Burst(cfg.limit - 1, later));
  }

  /**
   One request opens the first lifetime, the others come just after it, and a full second lifetime follows as
   soon as Redis has dropped the key: the bound is reached for every limit and window.
   */
  lemma FixedWindowBoundReached(cfg: Config)
    requires cfg.limit >= 1 && cfg.window >= 1
    ensures var run := Volley(cfg, 0, 1) + Volley(cfg, cfg.window + 1, cfg.window + 1);
            ValidRun(Init(0), cfg, run) && AcceptedIn(Exec(Init(0), cfg, run).log, 1, cfg) == 2 * cfg.limit - 1
  {
    var next := cfg.window + 1;
    VolleyAccepted(Init(0), cfg, 0, 1, 1);
    VolleyAccepted(Exec(Init(0), cfg, Volley(cfg, 0, 1)), cfg, next, next, 1);
    Append(Init(0), cfg, Volley(cfg, 0, 1), Volley(cfg, next, next));
  }

  // ---------------------------------------------------------------- The limiter, undisturbed

  /** Which of the two calls of a request succeed. */
  datatype Calls = Calls(incrOk: bool, expireOk: bool)

  /** The key after a request, and whether the request is refused. */
  function AfterRequest(key: Option<Counter>, cfg: Config, now: int, calls: Calls): (r: (Option<Counter>, bool)) {
    if !calls.incrOk then (key, cfg.requireRedis)
    else
      var before := if Live(key, now) then key.value else Counter(0, None);
      var count := before.count + 1;
      (Some(Counter(count, if count == 1 && calls.expireOk then Some(now + cfg.window) else before.expiry)),
       if count == 1 && !calls.expireOk then cfg.requireRedis else count > cfg.limit)
  }

  /** The commands of one request that runs undisturbed. */
  function RequestRun(key: Option<Counter>, p: Pid, now: int, calls: Calls): seq<Action> {
    if !calls.incrOk then [IncrFails(p, now)]
    else if calls.expireOk && !(Live(key, now) && key.value.count >= 1) then [Incr(p, now)] + [Expire(p, now)]
    else [Incr(p, now)]
  }

  /** Undisturbed, the interleaved commands do to the key what a request does, and refuse what it refuses. */
  lemma SoloRequest(s: Sys, cfg: Config, p: Pid, now: int, calls: Calls)
    requires s.now <= now && p !in s.pending
    ensures var run := RequestRun(s.key, p, now, calls);
            var (key, exceeded) := AfterRequest(s.key, cfg, now, calls);
            var e := Exec(s, cfg, run);
            && ValidRun(s, cfg, run) && e.key == key
            && (calls.incrOk ==> |e.log| == |s.log| + 1 && e.free == s.free)
            && (calls.incrOk && (calls.expireOk || key.value.count > 1) ==> (exceeded <==> !e.log[|s.log|].accepted))
            && (!calls.incrOk ==> e.log == s.log && e.free == if exceeded then s.free else s.free + [now])
  {
    var run := RequestRun(s.key, p, now, calls);
    var s1 := Next(s, cfg, run[0]);
    if |run| == 2 {
      assert run[1..] == [Expire(p, now)] && run[1..][1..] == [];
      assert ValidRun(s1, cfg, run[1..]) && Exec(s1, cfg, run[1..]) == Next(s1, cfg, Expire(p, now));
    } else {
      assert run[1..] == [];
    }
  }

  /** A request whose call fails is refused exactly if Redis is required; any other exactly if it exceeds the limit. */
  lemma FailuresRefuse(key: Option<Counter>, cfg: Config, now: int, calls: Calls)
    ensures var (next, exceeded) := AfterRequest(key, cfg, now, calls);
            && (!calls.incrOk ==> (exceeded <==> cfg.requireRedis) && next == key)
            && (calls.incrOk && next.value.count == 1 && !calls.expireOk ==>
                  (exceeded <==> cfg.requireRedis) && (Live(key, now) || next.value.expiry == None))
            && (calls.incrOk && (next.value.count > 1 || calls.expireOk) ==>
                  (exceeded <==> next.value.count > cfg.limit))
  {
  }

  class Limiter {
    var key: Option<Counter>

    constructor ()
      ensures key == None
    {
      key := None;
    }

    method IsRateLimitExceeded(cfg: Config, now: int, calls: Calls) returns (exceeded: bool)
      modifies this
      ensures (key, exceeded) == AfterRequest(old(key), cfg, now, calls)
    {
      if !calls.incrOk {
        return cfg.requireRedis;
      }
      if !Live(key, now) {
        key := Some(Counter(0, None));
      }
      key := Some(key.value.(count := key.value.count + 1));
      var requestCount := key.value.count;
      if requestCount == 1 {
        if !calls.expireOk {
          return cfg.requireRedis;
        }
        key := Some(key.value.(expiry := Some(now + cfg.window)));
      }
      exceeded := requestCount > cfg.limit;
    }
  }
}
