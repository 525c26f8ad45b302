/** The account lockout of `authenticate_user` (app/core/auth.py), on one clock. */
module Lockout {
  import opened Collections

  /** MAX_FAILED_LOGIN_ATTEMPTS and ACCOUNT_LOCK_MINUTES, the latter in clock units. */
  datatype Policy = Policy(maxFailed: nat, lockTime: nat)

  ghost predicate ValidPolicy(po: Policy) {
    po.maxFailed >= 1 && po.lockTime >= 1
  }

  datatype Account = Account(failedAttempts: nat, lockedUntil: Option<int>)

  const CLEAN := Account(0, None)

  /** A login at `time`; `correct` is the answer of the password check, should it be made. */
  datatype Login = Login(time: int, correct: bool)

  predicate Locked(a: Account, time: int) {
    a.lockedUntil.Some? && a.lockedUntil.value > time
  }

  /** The row after a failed check: an expired lock keeps the counter, so one more failure locks again. */
  function AfterFailure(po: Policy, a: Account, time: int): Account {
    Account(a.failedAttempts + 1,
            if a.failedAttempts + 1 >= po.maxFailed then Some(time + po.lockTime) else a.lockedUntil)
  }

  function AfterLogin(po: Policy, a: Account, l: Login): Account {
    if Locked(a, l.time) then a else if l.correct then CLEAN else AfterFailure(po, a, l.time)
  }

  /** The login made a password check that failed. */
  predicate FailedCheck(a: Account, l: Login) {
    !Locked(a, l.time) && !l.correct
  }

  ghost predicate Ordered(logins: seq<Login>) {
    forall i, j :: 0 <= i < j < |logins| ==> logins[i].time <= logins[j].time
  }

  ghost predicate During(logins: seq<Login>, from: int, end: int) {
    forall i :: 0 <= i < |logins| ==> from <= logins[i].time <= end
  }

  /** No login of the run succeeds. */
  ghost predicate NoSuccess(po: Policy, a: Account, logins: seq<Login>)
    decreases |logins|
  {
    logins == [] ||
    (&& (Locked(a, logins[0].time) || !logins[0].correct)
     && NoSuccess(po, AfterLogin(po, a, logins[0]), logins[1..]))
  }

  function FailedChecks(po: Policy, a: Account, logins: seq<Login>): nat
    decreases |logins|
  {
    if logins == [] then 0
    else (if FailedCheck(a, logins[0]) then 1 else 0) + FailedChecks(po, AfterLogin(po, a, logins[0]), logins[1..])
  }

  // ---------------------------------------------------------------- The bound

  /** How many whole periods of length `l` fit into `d`. */
  function Periods(d: nat, l: nat): (n: nat)
    requires l >= 1
  {
    if d < l then 0 else 1 + Periods(d - l, l)
  }

  lemma {:induction false} PeriodsMono(a: nat, b: nat, l: nat)
    requires l >= 1 && a <= b
    ensures Periods(a, l) <= Periods(b, l)
  {
    if a >= l {
      PeriodsMono(a - l, b - l, l);
    }
  }

  lemma {:induction false} PeriodsExact(n: nat, rest: nat, l: nat)
    requires rest < l
    ensures n * l >= 0 && Periods(n * l + rest, l) == n
  {
    if n > 0 {
      assert n * l == (n - 1) * l + l;
      PeriodsExact(n - 1, rest, l);
    }
  }

  /** `Periods` is the floor of the quotient. */
  lemma PeriodsIsFloor(d: nat, l: nat)
    requires l >= 1
    ensures Periods(d, l) == d / l
  {
    var q, r := d / l, d % l;
    assert d == q * l + r;
    PeriodsExact(q, r, l);
  }

  /** Once the counter has reached the maximum, the failed checks of a run up to `end` are a lock time apart. */
  lemma {:induction false} LockedPhase(po: Policy, a: Account, logins: seq<Login>, from: int, end: int)
    requires ValidPolicy(po) && Ordered(logins) && NoSuccess(po, a, logins) && from <= end
    requires a.failedAttempts + 1 >= po.maxFailed
    requires During(logins, from, end)
    ensures FailedChecks(po, a, logins) <= 1 + Periods(end - from, po.lockTime)
    ensures (a.lockedUntil.Some? && from <= a.lockedUntil.value <= end) ==>
              FailedChecks(po, a, logins) <= 1 + Periods(end - a.lockedUntil.value, po.lockTime)
    ensures a.lockedUntil.Some? && a.lockedUntil.value > end ==> FailedChecks(po, a, logins) == 0
    decreases |logins|
  {
    if logins != [] {
      var t := logins[0].time;
      var next := AfterLogin(po, a, logins[0]);
      LockedPhase(po, next, logins[1..], t, end);
      PeriodsMono(end - t, end - from, po.lockTime);
      if FailedCheck(a, logins[0]) {
        if a.lockedUntil.Some? && a.lockedUntil.value >= from {
          PeriodsMono(end - t, end - a.lockedUntil.value, po.lockTime);
        }
      }
    }
  }

  /**
   Lockout bound: over any window without a successful login, from whatever state of the account, the failed
   password checks number at most the attempts still free (at least one) plus one per full lock time.
   */
  lemma {:induction false} LockoutBound(po: Policy, a: Account, logins: seq<Login>, from: int, end: int)
    requires ValidPolicy(po) && Ordered(logins) && NoSuccess(po, a, logins) && from <= end
    requires During(logins, from, end)
    ensures FailedChecks(po, a, logins) <=
            (if a.failedAttempts < po.maxFailed then po.maxFailed - a.failedAttempts else 1)
            + Periods(end - from, po.lockTime)
    decreases |logins|
  {
    if a.failedAttempts + 1 >= po.maxFailed {
      LockedPhase(po, a, logins, from, end);
    } else if logins != [] {
      LockoutBound(po, AfterLogin(po, a, logins[0]), logins[1..], from, end);
    }
  }

  // ---------------------------------------------------------------- The bound is reached

  /** `m` guesses at once, then one each time the lock expires. */
  function Patient(po: Policy, m: nat, n: nat, time: int): seq<Login>
    decreases m + n
  {
    if m > 0 then [Login(time, false)] + Patient(po, m - 1, n, time)
    else if n > 0 then [Login(time + po.lockTime, false)] + Patient(po, 0, n - 1, time + po.lockTime)
    else []
  }

  /** Putting one login first. */
  lemma FirstLogin(l: Login, logins: seq<Login>, start: int, end: int)
    requires Ordered(logins) && During(logins, l.time, end) && start <= l.time <= end
    ensures Ordered([l] + logins) && During([l] + logins, start, end)
  {
    forall i | 0 <= i < |[l] + logins| ensures l.time <= ([l] + logins)[i].time <= end {
      assert i > 0 ==> ([l] + logins)[i] == logins[i - 1];
    }
    assert ([l] + logins)[1..] == logins;
  }

  lemma {:induction false} PatientTimes(po: Policy, m: nat, n: nat, time: int)
    ensures Ordered(Patient(po, m, n, time)) && During(Patient(po, m, n, time), time, time + n * po.lockTime)
    decreases m + n
  {
    if m > 0 {
      PatientTimes(po, m - 1, n, time);
      FirstLogin(Login(time, false), Patient(po, m - 1, n, time), time, time + n * po.lockTime);
    } else if n > 0 {
      var later := time + po.lockTime;
      PatientTimes(po, 0, n - 1, later);
      assert time + n * po.lockTime == later + (n - 1) * po.lockTime;
      FirstLogin(Login(later, false), Patient(po, 0, n - 1, later), time, time + n * po.lockTime);
    }
  }

  lemma {:induction false} PatientFails(po: Policy, a: Account, m: nat, n: nat, time: int)
    requires ValidPolicy(po)
    requires m > 0 ==> a.failedAttempts + m == po.maxFailed && (a.lockedUntil.Some? ==> a.lockedUntil.value <= time)
    requires m == 0 ==> a.failedAttempts >= po.maxFailed && a.lockedUntil == Some(time + po.lockTime)
    ensures FailedChecks(po, a, Patient(po, m, n, time)) == m + n && NoSuccess(po, a, Patient(po, m, n, time))
    decreases m + n
  {
    if m > 0 {
      PatientFails(po, AfterFailure(po, a, time), m - 1, n, time);
      assert Patient(po, m, n, time)[1..] == Patient(po, m - 1, n, time);
    } else if n > 0 {
      PatientFails(po, AfterFailure(po, a, time + po.lockTime), 0, n - 1, time + po.lockTime);
      assert Patient(po, 0, n, time)[1..] == Patient(po, 0, n - 1, time + po.lockTime);
    }
  }

  /** From a clean account at most MAX_FAILED + floor(D / lock time) checks fail in a time D, and that many can. */
  lemma CleanAccountBound(po: Policy, start: int, n: nat)
    requires ValidPolicy(po)
    ensures forall logins ::
              Ordered(logins) && NoSuccess(po, CLEAN, logins) && During(logins, start, start + n * po.lockTime) ==>
              FailedChecks(po, CLEAN, logins) <= po.maxFailed + n
    ensures var run := Patient(po, po.maxFailed, n, start);
            && Ordered(run) && NoSuccess(po, CLEAN, run)
            && During(run, start, start + n * po.lockTime)
            && FailedChecks(po, CLEAN, run) == po.maxFailed + n
  {
    PatientTimes(po, po.maxFailed, n, start);
    PatientFails(po, CLEAN, po.maxFailed, n, start);
    PeriodsExact(n, 0, po.lockTime);
    forall logins | Ordered(logins) && NoSuccess(po, CLEAN, logins) && During(logins, start, start + n * po.lockTime)
      ensures FailedChecks(po, CLEAN, logins) <= po.maxFailed + n
    {
      LockoutBound(po, CLEAN, logins, start, start + n * po.lockTime);
    }
  }

  // ---------------------------------------------------------------- Runs with successful logins

  datatype Answer = Refused | Wrong | Right

  datatype Event = Event(time: int, answer: Answer)

  function AnswerTo(a: Account, l: Login): Event {
    Event(l.time, if Locked(a, l.time) then Refused else if l.correct then Right else Wrong)
  }

  function After(po: Policy, a: Account, logins: seq<Login>): Account
    decreases |logins|
  {
    if logins == [] then a else After(po, AfterLogin(po, a, logins[0]), logins[1..])
  }

  /** What the users of the account were answered. */
  function History(po: Policy, a: Account, logins: seq<Login>): seq<Event>
    decreases |logins|
  {
    if logins == [] then [] else [AnswerTo(a, logins[0])] + History(po, AfterLogin(po, a, logins[0]), logins[1..])
  }

  /** The failed checks since the last successful login. */
  function WrongSince(events: seq<Event>): nat
    decreases |events|
  {
    if events == [] then 0
    else
      var n := |events| - 1;
      match events[n].answer
      case Right => 0
      case Wrong => WrongSince(events[..n]) + 1
      case Refused => WrongSince(events[..n])
  }

  /** The time of the last failed check. */
  function LastWrong(events: seq<Event>): int
    decreases |events|
  {
    if events == [] then 0
    else if events[|events| - 1].answer == Wrong then events[|events| - 1].time
    else LastWrong(events[..|events| - 1])
  }

  /** The account that the answers so far call for: locked for the lock time once enough checks in a row failed. */
  function CalledFor(po: Policy, events: seq<Event>): Account {
    var n := WrongSince(events);
    Account(n, if n >= po.maxFailed then Some(LastWrong(events) + po.lockTime) else None)
  }

  lemma {:induction false} HistoryDecides(po: Policy, events: seq<Event>, logins: seq<Login>)
    requires ValidPolicy(po)
    ensures var a := CalledFor(po, events);
            After(po, a, logins) == CalledFor(po, events + History(po, a, logins))
    decreases |logins|
  {
    var a := CalledFor(po, events);
    if logins == [] {
      assert events + [] == events;
    } else {
      var e := AnswerTo(a, logins[0]);
      var events' := events + [e];
      assert events'[..|events'| - 1] == events;
      assert CalledFor(po, events') == AfterLogin(po, a, logins[0]);
      HistoryDecides(po, events', logins[1..]);
      assert events + ([e] + History(po, AfterLogin(po, a, logins[0]), logins[1..]))
             == events' + History(po, AfterLogin(po, a, logins[0]), logins[1..]);
    }
  }

  /**
   In every run from a clean account, successful logins included, the stored row is the one that the answers call
   for: the counter is the number of failed checks since the last success, and the lock runs from the last of them
   exactly if there were enough.
   */
  lemma AccountFromHistory(po: Policy, logins: seq<Login>)
    requires ValidPolicy(po)
    ensures After(po, CLEAN, logins) == CalledFor(po, History(po, CLEAN, logins))
  {
    HistoryDecides(po, [], logins);
    assert [] + History(po, CLEAN, logins) == History(po, CLEAN, logins);
  }

  lemma {:induction false} FewFailuresNoLock(po: Policy, a: Account, logins: seq<Login>)
    requires a.lockedUntil == None && a.failedAttempts + FailedChecks(po, a, logins) < po.maxFailed
    ensures After(po, a, logins).lockedUntil == None
    decreases |logins|
  {
    if logins != [] {
      FewFailuresNoLock(po, AfterLogin(po, a, logins[0]), logins[1..]);
    }
  }

  /**
   A successful login forgives: whatever the account was, afterwards fewer than the maximum of failed checks lock
   nobody out, and the bound of a clean account starts anew.
   */
  lemma SuccessForgives(po: Policy, a: Account, l: Login, rest: seq<Login>, n: nat)
    requires ValidPolicy(po) && !Locked(a, l.time) && l.correct
    ensures var next := AfterLogin(po, a, l);
            && (FailedChecks(po, next, rest) < po.maxFailed ==> forall now :: !Locked(After(po, next, rest), now))
            && (Ordered(rest) && NoSuccess(po, next, rest) && During(rest, l.time, l.time + n * po.lockTime) ==>
                  FailedChecks(po, next, rest) <= po.maxFailed + n)
  {
    CleanAccountBound(po, l.time, n);
    if FailedChecks(po, CLEAN, rest) < po.maxFailed {
      FewFailuresNoLock(po, CLEAN, rest);
    }
  }

  // ---------------------------------------------------------------- The stored account

  class UserRow {
    var failedLoginAttempts: nat
    var lockedUntil: Option<int>
    const isActive: bool

    function View(): Account
      reads this
    {
      Account(failedLoginAttempts, lockedUntil)
    }

    constructor (active: bool)
      ensures View() == CLEAN && isActive == active
    {
      failedLoginAttempts, lockedUntil, isActive := 0, None, active;
    }

    /** Returns whether the user is authenticated and whether the password was checked. */
    method AuthenticateUser(po: Policy, now: int, passwordCorrect: bool) returns (authenticated: bool, checked: bool)
      modifies this
      ensures View() == if isActive then AfterLogin(po, old(View()), Login(now, passwordCorrect)) else old(View())
      ensures checked <==> isActive && !Locked(old(View()), now)
      ensures authenticated <==> checked && passwordCorrect
    {
      if !isActive {
        return false, false;
      }
      if lockedUntil.Some? && lockedUntil.value > now {
        return false, false;
      }
      if !passwordCorrect {
        failedLoginAttempts := failedLoginAttempts + 1;
        if failedLoginAttempts >= po.maxFailed {
          lockedUntil := Some(now + po.lockTime);
        }
        return false, true;
      }
      failedLoginAttempts, lockedUntil := 0, None;
      return true, true;
    }
  }
}
