/** Account lockout of server/auth.py as a state machine over one account, and how
    many password guesses it lets through. */
module Lockout {
  import opened Text

  const MAX_FAILED_ATTEMPTS := 5
  const LOCKOUT_DURATION_S := 1800.0

  datatype Account = Account(failedAttempts: nat, lockedAt: Option<real>, isActive: bool)

  datatype Outcome = LoggedIn | LockedOut | InvalidCredentials

  /** A lock time of zero counts as no lock, being falsy in the source. */
  predicate HasLock(a: Account) {
    a.lockedAt.Some? && a.lockedAt.value != 0.0
  }

  predicate StillLocked(a: Account, now: real) {
    HasLock(a) && now - a.lockedAt.value < LOCKOUT_DURATION_S
  }

  /** The account once an elapsed lock has been lifted. */
  function Lifted(a: Account): Account {
    if HasLock(a) then a.(lockedAt := None, failedAttempts := 0) else a
  }

  /** One login: passwordOk is what the check says if it is made; now and lockTime are
      the two readings of the clock. */
  function Attempted(a: Account, passwordOk: bool, now: real, lockTime: real): Account {
    if StillLocked(a, now) then a
    else
      var b := Lifted(a);
      if !b.isActive then b
      else if passwordOk then b.(failedAttempts := 0)
      else
        var c := b.(failedAttempts := b.failedAttempts + 1);
        if c.failedAttempts >= MAX_FAILED_ATTEMPTS then c.(lockedAt := Some(lockTime)) else c
  }

  function OutcomeOf(a: Account, passwordOk: bool, now: real): Outcome {
    if StillLocked(a, now) then LockedOut
    else if !a.isActive then InvalidCredentials
    else if passwordOk then LoggedIn
    else if Lifted(a).failedAttempts + 1 >= MAX_FAILED_ATTEMPTS then LockedOut
    else InvalidCredentials
  }

  /** The password is checked, and is wrong. */
  predicate FailedCheck(a: Account, passwordOk: bool, now: real) {
    !StillLocked(a, now) && a.isActive && !passwordOk
  }

  function Unlocked(a: Account): Account {
    a.(lockedAt := None, failedAttempts := 0)
  }

  // ----- the invariant -----

  /** Locked iff five failures are on record. */
  ghost predicate Ok(a: Account) {
    && a.failedAttempts <= MAX_FAILED_ATTEMPTS
    && (HasLock(a) <==> a.failedAttempts == MAX_FAILED_ATTEMPTS)
    && (a.lockedAt.Some? ==> HasLock(a))
  }

  lemma AttemptKeepsOk(a: Account, passwordOk: bool, now: real, lockTime: real)
    requires Ok(a) && lockTime > 0.0
    ensures Ok(Attempted(a, passwordOk, now, lockTime))
    ensures Ok(Unlocked(a))
    ensures OutcomeOf(a, passwordOk, now) == LoggedIn ==>
              Attempted(a, passwordOk, now, lockTime) == Account(0, None, true)
  {
  }

  // ----- when an attempt gets through -----

  /** The account is not touched and the password not asked for. */
  ghost predicate Refused(a: Account, now: real) {
    && (forall passwordOk, lockTime :: Attempted(a, passwordOk, now, lockTime) == a)
    && (forall passwordOk :: OutcomeOf(a, passwordOk, now) == LockedOut)
  }

  /** A lock, zero times aside, that thirty minutes have not gone by on. */
  predicate WithinLock(a: Account, now: real) {
    a.lockedAt.Some? && a.lockedAt.value != 0.0 && now < a.lockedAt.value + 1800.0
  }

  lemma RefusedIff(a: Account, now: real)
    ensures Refused(a, now) <==> WithinLock(a, now)
  {
    if Refused(a, now) {
      assert OutcomeOf(a, true, now) == LockedOut;
    }
  }

  /** Otherwise an active account logs in iff the password is right, which clears its
      record. A wrong password is one failure more, or the first after an elapsed lock,
      and the fifth locks. */
  lemma CheckedOtherwise(a: Account, passwordOk: bool, now: real, lockTime: real)
    requires Ok(a) && !WithinLock(a, now) && a.isActive && lockTime > 0.0
    ensures OutcomeOf(a, passwordOk, now) == LoggedIn <==> passwordOk
    ensures passwordOk ==> Attempted(a, passwordOk, now, lockTime) == Account(0, None, true)
    ensures !passwordOk ==>
              var failures := if a.lockedAt.Some? then 1 else a.failedAttempts + 1;
              && Attempted(a, passwordOk, now, lockTime) ==
                   Account(failures, if failures == 5 then Some(lockTime) else None, true)
              && OutcomeOf(a, passwordOk, now) == if failures == 5 then LockedOut else InvalidCredentials
  {
  }

  /** An unlocked account has all five attempts again. */
  lemma UnlockOpens(a: Account, passwordOk: bool, now: real, lockTime: real)
    requires a.isActive
    ensures OutcomeOf(Unlocked(a), passwordOk, now) == if passwordOk then LoggedIn else InvalidCredentials
    ensures Attempted(Unlocked(a), passwordOk, now, lockTime) == Account(if passwordOk then 0 else 1, None, true)
  {
  }

  /** An inactive account never logs in, and no failure is held against it. */
  lemma InactiveNever(a: Account, passwordOk: bool, now: real, lockTime: real)
    requires !a.isActive && !WithinLock(a, now)
    ensures OutcomeOf(a, passwordOk, now) == InvalidCredentials
    ensures Attempted(a, passwordOk, now, lockTime).failedAttempts <= a.failedAttempts
    ensures !Attempted(a, passwordOk, now, lockTime).isActive
  {
  }

  // ----- runs -----

  datatype Attempt = Attempt(passwordOk: bool, now: real, lockTime: real)

  function Failures(a: Account, run: seq<Attempt>): nat
    decreases run
  {
    if run == [] then 0
    else
      var t := run[0];
      (if FailedCheck(a, t.passwordOk, t.now) then 1 else 0)
      + Failures(Attempted(a, t.passwordOk, t.now, t.lockTime), run[1..])
  }

  predicate NoSuccess(a: Account, run: seq<Attempt>)
    decreases run
  {
    run != [] ==>
      var t := run[0];
      OutcomeOf(a, t.passwordOk, t.now) != LoggedIn
      && NoSuccess(Attempted(a, t.passwordOk, t.now, t.lockTime), run[1..])
  }

  /** The clock never goes back between start and end. */
  predicate Timed(run: seq<Attempt>, start: real, end: real)
    decreases run
  {
    if run == [] then start <= end
    else start <= run[0].now <= run[0].lockTime && Timed(run[1..], run[0].lockTime, end)
  }

  /** Within its lockout period a locked account refuses every attempt, right or wrong,
      and is not changed by any. */
  lemma {:induction false} LockHolds(a: Account, run: seq<Attempt>, start: real, end: real)
    requires Timed(run, start, end) && WithinLock(a, end)
    ensures Final(a, run) == a && Failures(a, run) == 0 && NoSuccess(a, run)
    decreases run
  {
    if run != [] {
      TimedOrder(run[1..], run[0].lockTime, end);
      LockHolds(a, run[1..], run[0].lockTime, end);
    }
  }

  function Final(a: Account, run: seq<Attempt>): Account
    decreases run
  {
    if run == [] then a
    else Final(Attempted(a, run[0].passwordOk, run[0].now, run[0].lockTime), run[1..])
  }

  /** After any run, the last lock lies within it. */
  lemma {:induction false} LocksAreRecent(a: Account, run: seq<Attempt>, start: real, end: real)
    requires Timed(run, start, end) && (HasLock(a) ==> a.lockedAt.value <= start)
    ensures var b := Final(a, run); b.isActive == a.isActive && (HasLock(b) ==> b.lockedAt.value <= end)
    decreases run
  {
    TimedOrder(run, start, end);
    if run != [] {
      var t := run[0];
      LocksAreRecent(Attempted(a, t.passwordOk, t.now, t.lockTime), run[1..], t.lockTime, end);
    }
  }

  /** No run of attempts shuts an active account out for good: thirty minutes after the
      last of them the right password logs in. */
  lemma EveryLockEnds(a: Account, run: seq<Attempt>, start: real, end: real, now: real)
    requires a.isActive && Timed(run, start, end) && (HasLock(a) ==> a.lockedAt.value <= start)
    requires now >= end + 1800.0
    ensures OutcomeOf(Final(a, run), true, now) == LoggedIn
  {
    LocksAreRecent(a, run, start, end);
  }

  /** Whole lockout periods in x seconds. */
  function Periods(x: real): int {
    (x / LOCKOUT_DURATION_S).Floor
  }

  lemma PeriodsMonotone(x: real, y: real)
    requires x <= y
    ensures Periods(x) <= Periods(y)
    ensures x >= 0.0 ==> Periods(x) >= 0
  {
  }

  lemma PeriodsShift(x: real)
    ensures Periods(x + LOCKOUT_DURATION_S) == Periods(x) + 1
  {
    assert (x + LOCKOUT_DURATION_S) / LOCKOUT_DURATION_S == x / LOCKOUT_DURATION_S + 1.0;
  }

  /** How many failures an account can still take until end: from its lock on, five
      for every whole period; unlocked, what is left of the present five as well. */
  function Budget(a: Account, now: real, end: real): int {
    if HasLock(a) then 5 * Periods(end - a.lockedAt.value)
    else 5 - a.failedAttempts + 5 * Periods(end - now)
  }

  lemma {:induction false} TimedOrder(run: seq<Attempt>, start: real, end: real)
    requires Timed(run, start, end)
    ensures start <= end
    decreases run
  {
    if run != [] {
      TimedOrder(run[1..], run[0].lockTime, end);
    }
  }

  lemma StepBudget(a: Account, t: Attempt, start: real, end: real)
    requires Ok(a) && 0.0 < start <= t.now <= t.lockTime <= end
    requires HasLock(a) ==> a.lockedAt.value <= start
    requires OutcomeOf(a, t.passwordOk, t.now) != LoggedIn
    ensures var b := Attempted(a, t.passwordOk, t.now, t.lockTime);
            (if FailedCheck(a, t.passwordOk, t.now) then 1 else 0) + Budget(b, t.lockTime, end) <= Budget(a, start, end)
  {
    PeriodsMonotone(end - t.lockTime, end - start);
    if HasLock(a) && !StillLocked(a, t.now) {
      var since := a.lockedAt.value;
      PeriodsShift(end - since - LOCKOUT_DURATION_S);
      PeriodsMonotone(end - t.lockTime, end - since - LOCKOUT_DURATION_S);
    }
  }

  lemma {:induction false} WithinBudget(a: Account, run: seq<Attempt>, start: real, end: real)
    requires Ok(a) && 0.0 < start && Timed(run, start, end) && NoSuccess(a, run)
    requires HasLock(a) ==> a.lockedAt.value <= start
    ensures Failures(a, run) <= Budget(a, start, end)
    decreases run
  {
    TimedOrder(run, start, end);
    if run == [] {
      PeriodsMonotone(0.0, end - start);
      if HasLock(a) {
        PeriodsMonotone(0.0, end - a.lockedAt.value);
      }
    } else {
      var t := run[0];
      var b := Attempted(a, t.passwordOk, t.now, t.lockTime);
      TimedOrder(run[1..], t.lockTime, end);
      AttemptKeepsOk(a, t.passwordOk, t.now, t.lockTime);
      WithinBudget(b, run[1..], t.lockTime, end);
      StepBudget(a, t, start, end);
    }
  }

  /** A locked account takes nothing until its lock has elapsed, so its failures can
      be counted from the window's start as if it were a new one. */
  lemma {:induction false} LockedBudget(a: Account, run: seq<Attempt>, start: real, end: real)
    requires Ok(a) && 0.0 < start && Timed(run, start, end) && NoSuccess(a, run)
    requires HasLock(a) && a.lockedAt.value <= start
    ensures Failures(a, run) <= 5 + 5 * Periods(end - start)
    decreases run
  {
    TimedOrder(run, start, end);
    PeriodsMonotone(0.0, end - start);
    if run != [] {
      var t := run[0];
      TimedOrder(run[1..], t.lockTime, end);
      PeriodsMonotone(end - t.lockTime, end - start);
      if StillLocked(a, t.now) {
        LockedBudget(a, run[1..], t.lockTime, end);
      } else {
        var lifted := Lifted(a);
        assert Attempted(lifted, t.passwordOk, t.now, t.lockTime) == Attempted(a, t.passwordOk, t.now, t.lockTime);
        assert Failures(lifted, run) == Failures(a, run);
        WithinBudget(lifted, run, start, end);
      }
    }
  }

  /** Without a successful login or an unlock, the failed checks of one account within
      a window of T seconds number at most five for each lockout period begun. */
  lemma GuessRate(a: Account, run: seq<Attempt>, start: real, end: real)
    requires Ok(a) && 0.0 < start && Timed(run, start, end) && NoSuccess(a, run)
    requires HasLock(a) ==> a.lockedAt.value <= start
    ensures Failures(a, run) <= 5 * (1 + ((end - start) / 1800.0).Floor)
  {
    if HasLock(a) {
      LockedBudget(a, run, start, end);
    } else {
      WithinBudget(a, run, start, end);
    }
  }
}
