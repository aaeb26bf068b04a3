/** The advisory lockout schedule: how long a failure count blocks, and the merge of two states. */
module Lockout {
  import opened Bytes

  const SECS_PER_MIN: nat := 60
  const MAX_LOCKOUT_MIN: nat := 1440
  const FREE_ATTEMPTS: nat := 3
  const CAP_AT_ATTEMPTS: nat := 11

  function Pow2(n: nat): (p: nat)
    ensures p > 0
  {
    if n == 0 then 1 else 2 * Pow2(n - 1)
  }

  function LockoutMinutes(n: nat): nat {
    if n < FREE_ATTEMPTS then 0
    else if n >= CAP_AT_ATTEMPTS then MAX_LOCKOUT_MIN
    else Min(10 * Pow2(n - FREE_ATTEMPTS), MAX_LOCKOUT_MIN)
  }

  /** Seconds a count of `n` failures blocks for. */
  function Window(n: nat): nat { LockoutMinutes(n) * SECS_PER_MIN }

  datatype LockoutState = LockoutState(counter: u64, lastFailure: i64)

  function Reset(): LockoutState { LockoutState(0, 0) }

  /** Seconds left at `now`, or `None` when not locked. */
  function Remaining(s: LockoutState, now: u64): Option<nat> {
    if Window(s.counter) == 0 || s.lastFailure <= 0 then None
    else
      var unlockAt := Min(s.lastFailure + Window(s.counter), U64_MAX);
      if now >= unlockAt then None
      else if now < s.lastFailure then Some(Window(s.counter))
      else Some(unlockAt - now)
  }

  function Stamp(now: u64): i64 { Min(now, I64_MAX) }

  function AfterFailure(s: LockoutState, now: u64): LockoutState {
    LockoutState(Min(s.counter + 1, U64_MAX), Stamp(now))
  }

  /** The per-field maximum of the on-disk and the in-process state. */
  function Merge(a: LockoutState, b: LockoutState): LockoutState {
    LockoutState(Max(a.counter, b.counter), Max(a.lastFailure, b.lastFailure))
  }

  predicate Below(a: LockoutState, b: LockoutState) { a.counter <= b.counter && a.lastFailure <= b.lastFailure }

  function Left(s: LockoutState, now: u64): nat { if Remaining(s, now).Some? then Remaining(s, now).value else 0 }

  // ----- The schedule ------------------------------------------------------------------

  lemma {:induction false} Pow2Monotone(m: nat, n: nat)
    requires m <= n
    ensures Pow2(m) <= Pow2(n)
  {
    if m < n {
      Pow2Monotone(m, n - 1);
    }
  }

  /** Nothing for two failures, ten minutes at the third, doubling with each one up to a day. */
  lemma ScheduleDoubles(n: nat)
    ensures n < 3 ==> LockoutMinutes(n) == 0
    ensures LockoutMinutes(3) == 10
    ensures n >= 3 ==> LockoutMinutes(n + 1) == Min(2 * LockoutMinutes(n), MAX_LOCKOUT_MIN)
  {
    assert Pow2(0) == 1 && Pow2(3) == 2 * (2 * Pow2(1)) && Pow2(5) == 2 * (2 * Pow2(3)) && Pow2(7) == 2 * (2 * Pow2(5));
    if 3 <= n < CAP_AT_ATTEMPTS {
      assert Pow2(n + 1 - FREE_ATTEMPTS) == 2 * Pow2(n - FREE_ATTEMPTS);
    }
  }

  lemma ScheduleMonotone(m: nat, n: nat)
    requires m <= n
    ensures LockoutMinutes(m) <= LockoutMinutes(n) && Window(m) <= Window(n)
  {
    if FREE_ATTEMPTS <= m && n < CAP_AT_ATTEMPTS {
      Pow2Monotone(m - FREE_ATTEMPTS, n - FREE_ATTEMPTS);
    }
  }

  /** In seconds: ten minutes doubled for each failure past the third, a day from the eleventh on. */
  lemma WindowInSeconds(n: nat)
    ensures Window(n) == if n < 3 then 0 else if n < 11 then 600 * Pow2(n - 3) else 86_400
    ensures Pow2(0) == 1 && forall k: nat :: Pow2(k + 1) == 2 * Pow2(k)
  {
    assert Pow2(3) == 2 * (2 * Pow2(1)) && Pow2(5) == 2 * (2 * Pow2(3)) && Pow2(7) == 2 * (2 * Pow2(5));
    if 3 <= n < 11 {
      Pow2Monotone(n - 3, 7);
    }
  }

  // ----- Remaining time -------------------------------------------------------------------

  /** While locked, the time left is the window or the distance to its end, whichever is smaller. */
  lemma RemainingIs(s: LockoutState, now: u64)
    ensures Remaining(s, now).Some? <==> s.counter >= 3 && s.lastFailure > 0 && now < s.lastFailure + Window(s.counter)
    ensures Remaining(s, now).Some? ==>
              Remaining(s, now).value == Min(Window(s.counter), s.lastFailure + Window(s.counter) - now)
  {
    if s.counter >= 3 {
      ScheduleDoubles(3);
      ScheduleMonotone(3, s.counter);
    }
    assert Window(s.counter) <= MAX_LOCKOUT_MIN * SECS_PER_MIN;
  }

  /** Raising either field never shortens a lockout. */
  lemma RemainingMonotone(a: LockoutState, b: LockoutState, now: u64)
    requires Below(a, b)
    ensures Left(a, now) <= Left(b, now)
    ensures Remaining(a, now).Some? ==> Remaining(b, now).Some?
  {
    hide LockoutMinutes, Window, Remaining;
    ScheduleMonotone(a.counter, b.counter);
    RemainingIs(a, now);
    RemainingIs(b, now);
  }

  /** Merging is the least state at or above both, so it never shortens either lockout. */
  lemma MergeIsFailSafe(a: LockoutState, b: LockoutState, now: u64)
    ensures Below(a, Merge(a, b)) && Below(b, Merge(a, b))
    ensures forall c :: Below(a, c) && Below(b, c) ==> Below(Merge(a, b), c)
    ensures Left(Merge(a, b), now) >= Max(Left(a, now), Left(b, now))
  {
    hide Remaining;
    RemainingMonotone(a, Merge(a, b), now);
    RemainingMonotone(b, Merge(a, b), now);
  }

  /** The failure that `AfterFailure` records blocks the next attempt exactly while its stamp is positive. */
  lemma NextAttemptBlockedIff(s: LockoutState, t: u64, now: u64)
    requires s.counter >= 2
    ensures Remaining(AfterFailure(s, t), now).Some? <==>
            t > 0 && now < Stamp(t) + Window(Min(s.counter + 1, U64_MAX))
  {
    hide Window, Remaining;
    RemainingIs(AfterFailure(s, t), now);
  }
}
