/**
 The epoch-versioned response cache: app/redis_client.py and the cache path of `chat_stream` in
 app/api/routes.py, under concurrent chats and document changes of any number of tenants.

 A document change is applied to the stores and then bumps the epoch of its tenant.  A chat reads the
 epoch, looks its key up, and on a miss retrieves (once or twice) and stores its answer under that key.
 */
module ResponseCache {
  import opened Collections

  type Tenant = string
  type Change = nat
  type Rid = nat

  /** The cache key; `rest` stands for user, role, thread and query. */
  datatype Key = Key(tenant: Tenant, epoch: nat, rest: string)

  /**
   Control points of a chat.  History: `base` counts the bumps of the tenant before the epoch was read,
   `seen` is what the retrievals behind an answer saw of the applied changes.
   */
  datatype Chat =
    | Started(key: Key, base: nat)
    | Missed(key: Key, base: nat)
    | Retrieved(key: Key, base: nat, seen: set<Change>)
    | Served(key: Key, base: nat, seen: set<Change>)
    | Closed

  datatype Sys = Sys(
    epochs: map<Tenant, nat>, cache: map<Key, set<Change>>, chats: map<Rid, Chat>,
    applied: map<Tenant, set<Change>>, bumps: map<Tenant, seq<Change>>)

  const INIT := Sys(map[], map[], map[], map[], map[])

  function Applied(s: Sys, t: Tenant): set<Change> {
    if t in s.applied then s.applied[t] else {}
  }

  /** The changes whose bump was executed, in the order of the bumps. */
  function Bumps(s: Sys, t: Tenant): seq<Change> {
    if t in s.bumps then s.bumps[t] else []
  }

  // ---------------------------------------------------------------- Redis commands

  /** GET tenant_ver: a missing key reads as 1. */
  function ReadVersion(epochs: map<Tenant, nat>, t: Tenant): nat {
    if t in epochs then epochs[t] else 1
  }

  /** INCR tenant_ver: a missing key counts as 0. */
  function Incr(epochs: map<Tenant, nat>, t: Tenant): map<Tenant, nat> {
    epochs[t := if t in epochs then epochs[t] + 1 else 1]
  }

  // ---------------------------------------------------------------- Steps

  datatype Action =
    | Apply(t: Tenant, c: Change) | Bump(t: Tenant, c: Change)
    | ReadEpoch(r: Rid, t: Tenant, rest: string) | ReadEpochFails(r: Rid, t: Tenant, rest: string)
    | Lookup(r: Rid) | LookupFails(r: Rid) | Retrieve(r: Rid) | StoreAnswer(r: Rid) | Close(r: Rid)
    | Expire(key: Key)

  predicate Enabled(s: Sys, a: Action) {
    match a
    case Apply(_, _) => true
    case Bump(t, c) => c in Applied(s, t)
    case ReadEpoch(r, _, _) => r !in s.chats
    case ReadEpochFails(r, _, _) => r !in s.chats
    case Lookup(r) => r in s.chats && s.chats[r].Started?
    case LookupFails(r) => r in s.chats && s.chats[r].Started?
    case Retrieve(r) => r in s.chats && (s.chats[r].Missed? || s.chats[r].Retrieved?)
    case StoreAnswer(r) => r in s.chats && s.chats[r].Retrieved?
    case Close(r) => r in s.chats
    case Expire(_) => true
  }

  function Next(s: Sys, a: Action): Sys
    requires Enabled(s, a)
  {
    match a
    case Apply(t, c) => s.(applied := s.applied[t := Applied(s, t) + {c}])
    case Bump(t, c) => s.(epochs := Incr(s.epochs, t), bumps := s.bumps[t := Bumps(s, t) + [c]])
    case ReadEpoch(r, t, rest) =>
      s.(chats := s.chats[r := Started(Key(t, ReadVersion(s.epochs, t), rest), |Bumps(s, t)|)])
    // the exception handler returns 1 as well
    case ReadEpochFails(r, t, rest) => s.(chats := s.chats[r := Started(Key(t, 1, rest), |Bumps(s, t)|)])
    case Lookup(r) =>
      var chat := s.chats[r];
      s.(chats := s.chats[r :=
        if chat.key in s.cache then Served(chat.key, chat.base, s.cache[chat.key]) else Missed(chat.key, chat.base)])
    case LookupFails(r) => s.(chats := s.chats[r := Missed(s.chats[r].key, s.chats[r].base)])
    case Retrieve(r) =>
      var chat := s.chats[r];
      var now := Applied(s, chat.key.tenant);
      s.(chats := s.chats[r := Retrieved(chat.key, chat.base, if chat.Missed? then now else chat.seen * now)])
    case StoreAnswer(r) =>
      s.(cache := s.cache[s.chats[r].key := s.chats[r].seen], chats := s.chats[r := Closed])
    case Close(r) => s.(chats := s.chats[r := Closed])
    case Expire(key) => s.(cache := s.cache - {key})
  }

  predicate ValidRun(s: Sys, run: seq<Action>)
    decreases |run|
  {
    run == [] || (Enabled(s, run[0]) && ValidRun(Next(s, run[0]), run[1..]))
  }

  function Exec(s: Sys, run: seq<Action>): Sys
    requires ValidRun(s, run)
    decreases |run|
  {
    if run == [] then s else Exec(Next(s, run[0]), run[1..])
  }

  // ---------------------------------------------------------------- The invariant

  /** `seen` contains the first `n` bumped changes of tenant `t`. */
  ghost predicate Covers(s: Sys, t: Tenant, seen: set<Change>, n: nat) {
    n <= |Bumps(s, t)| && forall i :: 0 <= i < n ==> Bumps(s, t)[i] in seen
  }

  ghost predicate InvEpochs(s: Sys) {
    forall t :: (t in s.epochs <==> Bumps(s, t) != []) && (t in s.epochs ==> s.epochs[t] == |Bumps(s, t)|)
                && Covers(s, t, Applied(s, t), |Bumps(s, t)|)
  }

  ghost predicate InvCache(s: Sys) {
    forall key :: key in s.cache && key.epoch >= 2 ==> Covers(s, key.tenant, s.cache[key], key.epoch)
  }

  ghost predicate ChatFits(s: Sys, chat: Chat) {
    chat.Closed? ||
    (&& 1 <= chat.key.epoch && (chat.key.epoch >= 2 ==> chat.key.epoch == chat.base)
     && chat.base <= |Bumps(s, chat.key.tenant)|
     && (chat.Retrieved? ==> Covers(s, chat.key.tenant, chat.seen, chat.base))
     && (chat.Served? && chat.key.epoch >= 2 ==> Covers(s, chat.key.tenant, chat.seen, chat.base)))
  }

  ghost predicate InvChats(s: Sys) {
    forall r :: r in s.chats ==> ChatFits(s, s.chats[r])
  }

  ghost predicate Inv(s: Sys) {
    InvEpochs(s) && InvCache(s) && InvChats(s)
  }

  /** More bumps and applied changes keep what was covered. */
  lemma CoversGrow(s: Sys, s': Sys, t: Tenant, seen: set<Change>, n: nat)
    requires Covers(s, t, seen, n) && Bumps(s, t) <= Bumps(s', t)
    ensures Covers(s', t, seen, n)
  {
  }

  ghost predicate Grows(s: Sys, s': Sys) {
    forall t :: Bumps(s, t) <= Bumps(s', t) && Applied(s, t) <= Applied(s', t)
  }

  lemma ChatFitsGrow(s: Sys, s': Sys, chat: Chat)
    requires ChatFits(s, chat) && Grows(s, s')
    ensures ChatFits(s', chat)
  {
    if !chat.Closed? {
      assert Bumps(s, chat.key.tenant) <= Bumps(s', chat.key.tenant);
    }
  }

  /** Steps of documents and of the epoch. */
  lemma StepChange(s: Sys, a: Action)
    requires Inv(s) && Enabled(s, a) && (a.Apply? || a.Bump?)
    ensures Inv(Next(s, a))
  {
    var s' := Next(s, a);
    assert Grows(s, s');
    forall t ensures Covers(s', t, Applied(s', t), |Bumps(s', t)|) {
      assert Covers(s, t, Applied(s, t), |Bumps(s, t)|);
    }
    forall key | key in s'.cache && key.epoch >= 2 ensures Covers(s', key.tenant, s'.cache[key], key.epoch) {
      CoversGrow(s, s', key.tenant, s.cache[key], key.epoch);
    }
    forall r | r in s'.chats ensures ChatFits(s', s'.chats[r]) {
      ChatFitsGrow(s, s', s.chats[r]);
    }
  }

  /** Steps that leave documents and epochs alone, and at most one chat and one key fit anew. */
  lemma StepRequest(s: Sys, s': Sys, r: Rid, key: Key)
    requires Inv(s) && s'.epochs == s.epochs && s'.applied == s.applied && s'.bumps == s.bumps
    requires forall q :: q in s'.chats && q != r ==> q in s.chats && s'.chats[q] == s.chats[q]
    requires forall k :: k in s'.cache && k != key ==> k in s.cache && s'.cache[k] == s.cache[k]
    requires r in s'.chats ==> ChatFits(s, s'.chats[r])
    requires key in s'.cache && key.epoch >= 2 ==> Covers(s, key.tenant, s'.cache[key], key.epoch)
    ensures Inv(s')
  {
    assert forall t :: Bumps(s', t) == Bumps(s, t) && Applied(s', t) == Applied(s, t);
    assert Grows(s, s');
    forall k | k in s'.cache && k.epoch >= 2 ensures Covers(s', k.tenant, s'.cache[k], k.epoch) {
      CoversGrow(s, s', k.tenant, s'.cache[k], k.epoch);
    }
    forall q | q in s'.chats ensures ChatFits(s', s'.chats[q]) {
      ChatFitsGrow(s, s', s'.chats[q]);
    }
  }

  lemma StepInv(s: Sys, a: Action)
    requires Inv(s) && Enabled(s, a)
    ensures Inv(Next(s, a))
  {
    var s' := Next(s, a);
    match a
    case Apply(_, _) => StepChange(s, a);
    case Bump(_, _) => StepChange(s, a);
    case Expire(key) => StepRequest(s, s', 0, key);
    case ReadEpoch(r, t, rest) => StepRead(s, a);
    case ReadEpochFails(r, t, rest) => StepRead(s, a);
    case Retrieve(r) => StepRetrieve(s, r);
    case Close(r) => StepRequest(s, s', r, Key("", 0, ""));
    case _ => StepCacheCall(s, a);
  }

  lemma StepRead(s: Sys, a: Action)
    requires Inv(s) && Enabled(s, a) && (a.ReadEpoch? || a.ReadEpochFails?)
    ensures Inv(Next(s, a))
  {
    assert Covers(s, a.t, Applied(s, a.t), |Bumps(s, a.t)|);
    StepRequest(s, Next(s, a), a.r, Key(a.t, 0, a.rest));
  }

  lemma StepRetrieve(s: Sys, r: Rid)
    requires Inv(s) && Enabled(s, Retrieve(r))
    ensures Inv(Next(s, Retrieve(r)))
  {
    var key := s.chats[r].key;
    assert ChatFits(s, s.chats[r]);
    assert Covers(s, key.tenant, Applied(s, key.tenant), |Bumps(s, key.tenant)|);
    StepRequest(s, Next(s, Retrieve(r)), r, key.(epoch := 0));
  }

  lemma StepCacheCall(s: Sys, a: Action)
    requires Inv(s) && Enabled(s, a) && (a.Lookup? || a.LookupFails? || a.StoreAnswer?)
    ensures Inv(Next(s, a))
  {
    assert ChatFits(s, s.chats[a.r]);
    StepRequest(s, Next(s, a), a.r, s.chats[a.r].key);
  }

  lemma {:induction false} RunInv(s: Sys, run: seq<Action>)
    requires Inv(s) && ValidRun(s, run)
    ensures Inv(Exec(s, run))
    decreases |run|
  {
    if run != [] {
      StepInv(s, run[0]);
      RunInv(Next(s, run[0]), run[1..]);
    }
  }

  // ---------------------------------------------------------------- Freshness

  /** Request `r` was served an answer whose retrieval missed a change bumped before `r` read its epoch. */
  ghost predicate StaleHit(s: Sys, r: Rid) {
    r in s.chats && s.chats[r].Served?
    && exists i :: 0 <= i < s.chats[r].base && i < |Bumps(s, s.chats[r].key.tenant)|
                   && Bumps(s, s.chats[r].key.tenant)[i] !in s.chats[r].seen
  }

  /** Freshness: from epoch 2 on no hit is stale, in any interleaving. */
  lemma HitsAreFresh(run: seq<Action>, r: Rid)
    requires ValidRun(INIT, run) && StaleHit(Exec(INIT, run), r)
    ensures Exec(INIT, run).chats[r].key.epoch == 1
  {
    RunInv(INIT, run);
    assert ChatFits(Exec(INIT, run), Exec(INIT, run).chats[r]);
  }

  /** Reads of the epoch that do not fail see the number of bumps, except that none reads as one. */
  ghost predicate ReadsFit(s: Sys) {
    forall r :: r in s.chats && !s.chats[r].Closed? ==>
      s.chats[r].key.epoch == if s.chats[r].base == 0 then 1 else s.chats[r].base
  }

  ghost predicate NoFailingRead(run: seq<Action>) {
    forall i :: 0 <= i < |run| ==> !run[i].ReadEpochFails?
  }

  lemma ReadsFitStep(s: Sys, a: Action)
    requires InvEpochs(s) && ReadsFit(s) && Enabled(s, a) && !a.ReadEpochFails?
    ensures ReadsFit(Next(s, a))
  {
    if a.ReadEpoch? {
      assert a.t in s.epochs <==> Bumps(s, a.t) != [];
    }
  }

  lemma {:induction false} ReadsFitRun(s: Sys, run: seq<Action>)
    requires Inv(s) && ReadsFit(s) && ValidRun(s, run) && NoFailingRead(run)
    ensures ReadsFit(Exec(s, run))
    decreases |run|
  {
    if run != [] {
      ReadsFitStep(s, run[0]);
      StepInv(s, run[0]);
      assert forall i :: 0 <= i < |run[1..]| ==> run[1..][i] == run[i + 1];
      ReadsFitRun(Next(s, run[0]), run[1..]);
    }
  }

  // ---------------------------------------------------------------- Exactly when a hit can be stale

  lemma {:induction false} Append(s: Sys, a: seq<Action>, b: seq<Action>)
    requires ValidRun(s, a) && ValidRun(Exec(s, a), b)
    ensures ValidRun(s, a + b) && Exec(s, a + b) == Exec(Exec(s, a), b)
    decreases |a|
  {
    if a == [] {
      assert a + b == b;
    } else {
      var rest := a[1..] + b;
      Append(Next(s, a[0]), a[1..], b);
      assert (a + b)[0] == a[0] && (a + b)[1..] == rest;
    }
  }

  lemma One(s: Sys, a: Action)
    requires Enabled(s, a)
    ensures ValidRun(s, [a]) && Exec(s, [a]) == Next(s, a)
  {
    assert [a][1..] == [] && ValidRun(Next(s, a), []);
    assert Exec(Next(s, a), []) == Next(s, a);
  }

  lemma Two(s: Sys, a: Action, b: Action)
    requires Enabled(s, a) && Enabled(Next(s, a), b)
    ensures ValidRun(s, [a, b]) && Exec(s, [a, b]) == Next(Next(s, a), b)
  {
    One(s, a);
    One(Next(s, a), b);
    Append(s, [a], [b]);
    assert [a] + [b] == [a, b];
  }

  /** Document 7 changes `n` times. */
  function ChangeRun(n: nat): seq<Action> {
    if n == 0 then [] else [Apply("t", 7), Bump("t", 7)] + ChangeRun(n - 1)
  }

  lemma {:induction false} Changes(s: Sys, n: nat)
    ensures ValidRun(s, ChangeRun(n)) && NoFailingRead(ChangeRun(n))
    ensures var s' := Exec(s, ChangeRun(n));
            && s'.cache == s.cache && s'.chats == s.chats && Bumps(s', "t") == Bumps(s, "t") + seq(n, _ => 7)
            && ReadVersion(s'.epochs, "t") == (if "t" in s.epochs then s.epochs["t"] + n else if n == 0 then 1 else n)
    decreases n
  {
    if n > 0 {
      var s1 := Next(Next(s, Apply("t", 7)), Bump("t", 7));
      Two(s, Apply("t", 7), Bump("t", 7));
      Changes(s1, n - 1);
      Append(s, [Apply("t", 7), Bump("t", 7)], ChangeRun(n - 1));
    }
  }

  /** Chat 0 answers before the first change. */
  const EARLY := [ReadEpoch(0, "t", "q"), Lookup(0)] + [Retrieve(0), StoreAnswer(0)]

  lemma EarlyAnswer()
    ensures ValidRun(INIT, EARLY) && NoFailingRead(EARLY)
    ensures var s := Exec(INIT, EARLY);
            && s.cache == map[Key("t", 1, "q") := {}] && s.chats == map[0 := Closed]
            && s.epochs == map[] && Bumps(s, "t") == []
  {
    var s2 := Next(Next(INIT, ReadEpoch(0, "t", "q")), Lookup(0));
    Two(INIT, ReadEpoch(0, "t", "q"), Lookup(0));
    Two(s2, Retrieve(0), StoreAnswer(0));
    Append(INIT, [ReadEpoch(0, "t", "q"), Lookup(0)], [Retrieve(0), StoreAnswer(0)]);
  }

  /** Chat 1 asks after `n` changes; with `fails` its read of the epoch raises. */
  function AskRun(n: nat, fails: bool): seq<Action> {
    EARLY + ChangeRun(n) + [if fails then ReadEpochFails(1, "t", "q") else ReadEpoch(1, "t", "q"), Lookup(1)]
  }

  /** A chat that reads epoch 1 after a change and its bump is served the answer from before. */
  lemma StaleAnswer(n: nat, fails: bool)
    requires n >= 1 && (fails || n == 1)
    ensures ValidRun(INIT, AskRun(n, fails)) && StaleHit(Exec(INIT, AskRun(n, fails)), 1)
    ensures Exec(INIT, AskRun(n, fails)).chats[1].key.epoch == 1 && Exec(INIT, AskRun(n, fails)).chats[1].base == n
    ensures !fails ==> NoFailingRead(AskRun(n, fails))
  {
    EarlyAnswer();
    var s := Exec(INIT, EARLY);
    Changes(s, n);
    Append(INIT, EARLY, ChangeRun(n));
    var s2 := Exec(INIT, EARLY + ChangeRun(n));
    var read := if fails then ReadEpochFails(1, "t", "q") else ReadEpoch(1, "t", "q");
    Two(s2, read, Lookup(1));
    Append(INIT, EARLY + ChangeRun(n), [read, Lookup(1)]);
    var end := Next(Next(s2, read), Lookup(1));
    assert end.chats[1] == Served(Key("t", 1, "q"), n, {}) && Bumps(end, "t")[0] !in end.chats[1].seen;
  }

  /** No call fails, and still the chat after the first change and its bump is served the answer from before. */
  lemma FirstBumpIsInvisible()
    ensures ValidRun(INIT, AskRun(1, false)) && StaleHit(Exec(INIT, AskRun(1, false)), 1)
    ensures NoFailingRead(AskRun(1, false)) && Exec(INIT, AskRun(1, false)).chats[1].key.epoch == 1
  {
    StaleAnswer(1, false);
  }

  /**
   Some run serves a stale answer to a chat that read `epoch` after `base` bumps of its tenant; `failing` tells
   whether reads of the epoch may fail.
   */
  ghost predicate StaleHitPossible(failing: bool, epoch: nat, base: nat) {
    exists run, r ::
      && ValidRun(INIT, run) && StaleHit(Exec(INIT, run), r) && (failing || NoFailingRead(run))
      && Exec(INIT, run).chats[r].key.epoch == epoch && Exec(INIT, run).chats[r].base == base
  }

  /**
   A stale answer is possible at epoch 1 only, and there exactly after the first bump, which does not change
   the epoch; or after any later bump if the read of the epoch fails.
   */
  lemma StaleOnlyAtEpochOne(failing: bool, epoch: nat, base: nat)
    ensures StaleHitPossible(failing, epoch, base) <==> epoch == 1 && (base == 1 || (failing && base > 1))
  {
    if StaleHitPossible(failing, epoch, base) {
      var run, r :| && ValidRun(INIT, run) && StaleHit(Exec(INIT, run), r) && (failing || NoFailingRead(run))
                    && Exec(INIT, run).chats[r].key.epoch == epoch && Exec(INIT, run).chats[r].base == base;
      HitsAreFresh(run, r);
      if !failing {
        ReadsFitRun(INIT, run);
      }
    }
    if epoch == 1 && (base == 1 || (failing && base > 1)) {
      StaleAnswer(base, base > 1);
    }
  }

  // ---------------------------------------------------------------- The client functions

  /** Which Redis calls of a chat succeed. */
  datatype Faults = Faults(version: bool, get: bool, put: bool)

  function ChatKey(epochs: map<Tenant, nat>, t: Tenant, rest: string, faults: Faults): Key {
    Key(t, if faults.version then ReadVersion(epochs, t) else 1, rest)
  }

  /** The answer that a chat finds, given by what the retrievals behind it saw. */
  function Found(cache: map<Key, set<Change>>, key: Key, faults: Faults): Option<set<Change>> {
    if faults.get && key in cache then Some(cache[key]) else None
  }

  /** The cache after a chat whose retrievals see `seen`. */
  function CacheAfter(cache: map<Key, set<Change>>, key: Key, seen: set<Change>, faults: Faults)
      : map<Key, set<Change>>
  {
    if Found(cache, key, faults).Some? || !faults.put then cache else cache[key := seen]
  }

  function ChatRun(s: Sys, r: Rid, t: Tenant, rest: string, faults: Faults): seq<Action> {
    [if faults.version then ReadEpoch(r, t, rest) else ReadEpochFails(r, t, rest),
     if faults.get then Lookup(r) else LookupFails(r)]
    + if Found(s.cache, ChatKey(s.epochs, t, rest, faults), faults).Some? then []
      else [Retrieve(r), if faults.put then StoreAnswer(r) else Close(r)]
  }

  /** A chat that runs undisturbed: what it is served and what it leaves in the cache. */
  lemma SoloChat(s: Sys, r: Rid, t: Tenant, rest: string, faults: Faults)
    requires r !in s.chats
    ensures ValidRun(s, ChatRun(s, r, t, rest, faults))
    ensures var s' := Exec(s, ChatRun(s, r, t, rest, faults));
            var key := ChatKey(s.epochs, t, rest, faults);
            var found := Found(s.cache, key, faults);
            && s'.epochs == s.epochs && s'.applied == s.applied && s'.bumps == s.bumps
            && s'.cache == CacheAfter(s.cache, key, Applied(s, t), faults)
            && r in s'.chats && (found.Some? <==> s'.chats[r].Served?)
            && (found.Some? ==> s'.chats[r].seen == found.value)
  {
    var read := if faults.version then ReadEpoch(r, t, rest) else ReadEpochFails(r, t, rest);
    var look := if faults.get then Lookup(r) else LookupFails(r);
    var s2 := Next(Next(s, read), look);
    Two(s, read, look);
    if Found(s.cache, ChatKey(s.epochs, t, rest, faults), faults).Some? {
      assert [read, look] + [] == [read, look];
    } else {
      var store := if faults.put then StoreAnswer(r) else Close(r);
      Two(s2, Retrieve(r), store);
      Append(s, [read, look], [Retrieve(r), store]);
    }
  }

  const TTL_SECONDS := 3600

  function Kept(key: Key, seen: set<Change>, alive: bool): map<Key, set<Change>> {
    if alive then map[key := seen] else map[]
  }

  datatype Entry = Entry(seen: set<Change>, expires: int)

  class EpochCache {
    var epochs: map<Tenant, nat>
    var responses: map<Key, Entry>

    /** The answers that a read at time `now` finds. */
    function Visible(now: int): map<Key, set<Change>>
      reads this
    {
      map key | key in responses && now <= responses[key].expires :: responses[key].seen
    }

    constructor ()
      ensures epochs == map[] && responses == map[]
    {
      epochs, responses := map[], map[];
    }

    method GetTenantCacheVersion(t: Tenant, ok: bool) returns (version: nat)
      ensures version == if ok then ReadVersion(epochs, t) else 1
    {
      version := 1;
      if ok && t in epochs {
        version := epochs[t];
      }
    }

    method BumpTenantCacheVersion(t: Tenant, ok: bool) returns (version: nat)
      modifies this`epochs
      ensures epochs == if ok then Incr(old(epochs), t) else old(epochs)
      ensures version == if ok then epochs[t] else 1
    {
      if !ok {
        return 1;
      }
      version := (if t in epochs then epochs[t] else 0) + 1;
      epochs := epochs[t := version];
    }

    method GetCachedResponse(key: Key, now: int, ok: bool) returns (found: Option<set<Change>>)
      ensures found == if ok && key in Visible(now) then Some(Visible(now)[key]) else None
    {
      found := None;
      if ok && key in responses && now <= responses[key].expires {
        found := Some(responses[key].seen);
      }
    }

    /** For an hour every read finds this answer under its key; other keys and a failing call change nothing. */
    method SetCachedResponse(key: Key, seen: set<Change>, now: int, ok: bool)
      modifies this`responses
      ensures !ok ==> responses == old(responses)
      ensures ok ==> forall later ::
                (Visible(later) == old(Visible(later)) - {key} + Kept(key, seen, later <= now + 3600))
    {
      if ok {
        responses := responses[key := Entry(seen, now + TTL_SECONDS)];
      }
    }

    /** The cache path of `chat_stream`, for retrievals that see `seen`. */
    method ChatStream(t: Tenant, rest: string, seen: set<Change>, now: int, faults: Faults)
        returns (found: Option<set<Change>>)
      modifies this`responses
      ensures found == Found(old(Visible(now)), ChatKey(epochs, t, rest, faults), faults)
      ensures Visible(now) == CacheAfter(old(Visible(now)), ChatKey(epochs, t, rest, faults), seen, faults)
    {
      var version := GetTenantCacheVersion(t, faults.version);
      var key := Key(t, version, rest);
      found := GetCachedResponse(key, now, faults.get);
      if found.None? {
        SetCachedResponse(key, seen, now, faults.put);
      }
    }
  }

  /** Exactly one bump does not change the version a reader sees: the first one. */
  lemma BumpVisibleUnlessFirst(epochs: map<Tenant, nat>, t: Tenant)
    ensures ReadVersion(Incr(epochs, t), t) == ReadVersion(epochs, t) <==> t !in epochs
    ensures forall u :: u != t ==> ReadVersion(Incr(epochs, t), u) == ReadVersion(epochs, u)
  {
  }
}
