/**
 * The throttle counts exactly: neither more nor less than the failures since the last
 * success, and an attempt is refused by the timer exactly while their window runs.
 */
module Throttle {
  import opened Bytes
  import opened Errors
  import opened Primitives
  import opened VaultModel
  import opened VaultCodec
  import opened Kdf
  import opened Lockout
  import opened Storage
  import opened AppModel
  import opened AppRuns
  import opened Keys

  // ----- What an attempt leaves ---------------------------------------------------------------

  /** A granted attempt clears the record in memory, and in the file if it held one and the write lands. */
  lemma SuccessClears(P: Prims, allowed: bool, a: AppData, q: Attempt)
    requires UnlockSpec(P, allowed, a, q).1.Ok?
    ensures LoadVault(a.file).Ok?
    ensures var b, v := UnlockSpec(P, allowed, a, q).0, LoadVault(a.file).value;
            var clear := v.(rlCounter := 0, rlLast := 0);
            && b.mem == LockoutState(0, 0)
            && b.file == (if v == clear then a.file else Written(a.file, Serialize(clear), q.faults))
  {
    hide LoadVault, Refusal, VerifyTotp, VerifyProbe, OpenIndex, DeriveMaster, RecordFailure, Serialize, Written;
  }

  lemma ClearedLevel(P: Prims, allowed: bool, a: AppData, q: Attempt)
    requires UnlockSpec(P, allowed, a, q).1.Ok? && WriteLands(LoadVault(a.file).value, q)
    ensures var b := UnlockSpec(P, allowed, a, q).0;
            && LoadVault(b.file).Ok? && DiskState(LoadVault(b.file).value) == Reset() && Level(b) == Reset()
  {
    SuccessClears(P, allowed, a, q);
    hide LoadVault, UnlockSpec, Serialize, Succeeds;
    var v := LoadVault(a.file).value;
    assert v.(rlCounter := 0, rlLast := 0) == WithRateLimit(v, Reset());
    WrittenLoads(a.file, v, Reset(), q.faults);
    LandedClears(v, q);
  }

  lemma LandedClears(v: VaultData, q: Attempt)
    requires WriteLands(v, q)
    ensures Succeeds(q.faults, Serialize(WithRateLimit(v, Reset())))
  {
    hide Serialize, Succeeds;
  }

  // ----- Runs ---------------------------------------------------------------------------------

  /** The record of these failures: how many, and the last stamp. */
  function RecordOf(log: seq<i64>): LockoutState {
    LockoutState(Min(|log|, U64_MAX), if log == [] then 0 else log[|log| - 1])
  }

  predicate NotNegative(log: seq<i64>) { forall i :: 0 <= i < |log| ==> log[i] >= 0 }

  /** The file records exactly these failures, and memory the same or nothing yet. */
  predicate Exact(a: AppData, log: seq<i64>) {
    && LoadVault(a.file).Ok? && DiskState(LoadVault(a.file).value) == RecordOf(log)
    && (a.mem == RecordOf(log) || a.mem == Reset())
  }

  lemma ExactLevel(a: AppData, log: seq<i64>)
    requires Exact(a, log) && NotNegative(log)
    ensures Level(a) == RecordOf(log)
  {
    hide LoadVault;
  }

  lemma OneMore(log: seq<i64>, now: u64)
    requires NotNegative(log)
    ensures AfterFailure(RecordOf(log), now) == RecordOf(log + [Stamp(now)]) && NotNegative(log + [Stamp(now)])
  {
  }

  /** Every attempt's write lands, and what others write leaves the record as it is. */
  ghost predicate Undisturbed(P: Prims, allowed: bool, a: AppData, es: seq<Event>)
    decreases |es|
  {
    es == [] ||
    (&& (es[0].Replace? ==> SameRecord(a, es[0].file))
     && (es[0].TryUnlock? && LoadVault(a.file).Ok? ==> WriteLands(LoadVault(a.file).value, es[0].q))
     && Undisturbed(P, allowed, Next(P, allowed, a, es[0]), es[1..]))
  }

  predicate SameRecord(a: AppData, file: Option<bytes>) {
    LoadVault(a.file).Ok? ==>
      LoadVault(file).Ok? && DiskState(LoadVault(file).value) == DiskState(LoadVault(a.file).value)
  }

  lemma AttemptIsExact(P: Prims, allowed: bool, a: AppData, log: seq<i64>, q: Attempt)
    requires Exact(a, log) && NotNegative(log) && WriteLands(LoadVault(a.file).value, q)
    ensures var log' := Failures(P, allowed, a, log, TryUnlock(q));
            Exact(Next(P, allowed, a, TryUnlock(q)), log') && NotNegative(log')
  {
    ExactLevel(a, log);
    AttemptEffect(P, allowed, a, q);
    AttemptOnDisk(P, allowed, a, q);
    SucceededIsGranted(P, allowed, a, q);
    hide UnlockSpec, AttemptOutcome, LoadVault, Remaining, WriteLands, Level, AfterFailure, RecordOf, NotNegative;
    if AttemptOutcome(P, allowed, a, q).FailedAt? {
      OneMore(log, q.now);
    } else if AttemptOutcome(P, allowed, a, q).Succeeded? {
      ClearedLevel(P, allowed, a, q);
      NoFailures();
    }
  }

  lemma NoFailures()
    ensures RecordOf([]) == Reset() && NotNegative([])
  {
  }

  lemma SucceededIsGranted(P: Prims, allowed: bool, a: AppData, q: Attempt)
    ensures AttemptOutcome(P, allowed, a, q) == Succeeded <==> UnlockSpec(P, allowed, a, q).1.Ok?
  {
    hide LoadVault, Refusal, VerifyTotp, VerifyProbe, OpenIndex, DeriveMaster, RecordFailure, RecordSuccess, UnwrapBoth;
  }

  lemma EventIsExact(P: Prims, allowed: bool, a: AppData, log: seq<i64>, e: Event)
    requires Exact(a, log) && NotNegative(log)
    requires e.Replace? ==> SameRecord(a, e.file)
    requires e.TryUnlock? ==> WriteLands(LoadVault(a.file).value, e.q)
    ensures var log' := Failures(P, allowed, a, log, e);
            Exact(Next(P, allowed, a, e), log') && NotNegative(log')
  {
    hide UnlockSpec, AttemptOutcome, LoadVault, WriteLands, RecordOf, NotNegative, VerifyTotp;
    if e.TryUnlock? {
      AttemptIsExact(P, allowed, a, log, e.q);
    }
  }

  /** Over any run with restarts, whatever the clock does, file and memory record exactly the failures since success. */
  lemma {:induction false} RunIsExact(P: Prims, allowed: bool, a: AppData, log: seq<i64>, es: seq<Event>)
    requires Undisturbed(P, allowed, a, es) && Exact(a, log) && NotNegative(log)
    ensures var (b, log') := RunFailures(P, allowed, a, log, es); Exact(b, log') && NotNegative(log')
    decreases |es|
  {
    hide Next, Failures, WriteLands, SameRecord, NotNegative, RecordOf, LoadVault;
    if es != [] {
      EventIsExact(P, allowed, a, log, es[0]);
      RunIsExact(P, allowed, Next(P, allowed, a, es[0]), Failures(P, allowed, a, log, es[0]), es[1..]);
    }
  }

  // ----- When the timer refuses ------------------------------------------------------------

  /** Ten minutes after the third failure, doubling up to a day. */
  function WindowOf(n: nat): nat { if n < 3 then 0 else if n < 11 then 600 * Pow2(n - 3) else 86_400 }

  /** The last window still runs. */
  predicate Running(log: seq<i64>, now: u64) {
    |log| >= 3 && log[|log| - 1] > 0 && now < log[|log| - 1] + WindowOf(|log|)
  }

  /** The rest of the window, or all of it if the clock was turned back. */
  function LeftOf(log: seq<i64>, now: u64): nat
    requires Running(log, now)
  {
    Min(WindowOf(|log|), log[|log| - 1] + WindowOf(|log|) - now)
  }

  lemma RunningIff(log: seq<i64>, now: u64)
    ensures Remaining(RecordOf(log), now).Some? <==> Running(log, now)
    ensures Running(log, now) ==> Remaining(RecordOf(log), now).value == LeftOf(log, now)
  {
    hide Window, Remaining, LockoutMinutes;
    RemainingIs(RecordOf(log), now);
    WindowInSeconds(|log|);
    WindowInSeconds(RecordOf(log).counter);
  }

  // ----- Which refusal ----------------------------------------------------------------------

  /** Where each hardware failure sends the user. */
  function Routed(e: HsmError): UnlockError {
    if e.UserCancelled? then Cancelled
    else if e.Transient? then Retryable
    else if e.OtherFailure? then HsmFailed
    else RouteToRecovery
  }

  /** The first gate that is closed names the refusal; wrong code, cost and password look the same. */
  ghost function RefusedFor(P: Prims, allowed: bool, a: AppData, q: Attempt): Option<UnlockError> {
    if !allowed then Some(SoftwareHsmRefused)
    else if LoadVault(a.file).Err? then Some(MalformedVault(LoadVault(a.file).error))
    else
      var v := LoadVault(a.file).value;
      var left := Remaining(Level(a), q.now);
      if !Affordable(v.kdf, None) then Some(MalformedVault(Error.Kdf))
      else if q.deviceLock.Some? then
        Some(LockedOut(if q.deviceLock.value.Some? then q.deviceLock.value.value
                       else if left.Some? then left.value else 60))
      else if left.Some? then Some(LockedOut(left.value))
      else if q.key(v.kHsmBlob).Err? then Some(Routed(q.key(v.kHsmBlob).error))
      else if q.seed(v.totpBlob).Err? then Some(Routed(q.seed(v.totpBlob).error))
      else
        var kHsm := q.key(v.kHsmBlob).value;
        var k := MasterOf(P, q.password, v.salt, v.kdf, kHsm);
        if !CodeTaken(P, Verifier(a), q.seed(v.totpBlob).value, q.code, q.codeNow)
          || |kHsm| != 32 || !Affordable(v.kdf, q.available) || !ProbeSealed(P, v, k) then Some(BadCredentials)
        else if OpenIndex(P, v, k).Err? then Some(MalformedVault(OpenIndex(P, v, k).error))
        else None
  }

  lemma RefusedExactly(P: Prims, allowed: bool, a: AppData, q: Attempt)
    ensures match RefusedFor(P, allowed, a, q)
            case Some(e) => UnlockSpec(P, allowed, a, q).1 == Err(e)
            case None => UnlockSpec(P, allowed, a, q).1.Ok?
  {
    hide LoadVault, Remaining, VerifyTotp, VerifyProbe, OpenIndex, DeriveMaster, RecordFailure, RecordSuccess,
         Affordable, WithinLimits, MasterOf, ProbeSealed, CodeTaken, CodeAcceptable;
    if LoadVault(a.file).Ok? {
      var v := LoadVault(a.file).value;
      AffordableIff(v.kdf, None);
      if q.key(v.kHsmBlob).Ok? && q.seed(v.totpBlob).Ok? {
        var seed, kHsm := q.seed(v.totpBlob).value, q.key(v.kHsmBlob).value;
        VerifyTotpIff(P, a.(mem := Merge(DiskState(v), a.mem)), seed, q.code, q.codeNow);
        CodeTakenIff(P, Verifier(a), seed, q.code, q.codeNow);
        MasterIs(P, q.password, v.salt, v.kdf, kHsm, q.available);
        ProbeIff(P, v, MasterOf(P, q.password, v.salt, v.kdf, kHsm));
      }
    }
  }

  /** Refused for a wrong code, or for a wrong password once its key could be derived. */
  ghost predicate Counted(P: Prims, allowed: bool, a: AppData, q: Attempt) {
    && RefusedFor(P, allowed, a, q) == Some(BadCredentials) && LoadVault(a.file).Ok?
    && var v := LoadVault(a.file).value;
    && q.key(v.kHsmBlob).Ok? && q.seed(v.totpBlob).Ok?
    && (CodeTaken(P, Verifier(a), q.seed(v.totpBlob).value, q.code, q.codeNow) ==>
          |q.key(v.kHsmBlob).value| == 32 && Affordable(v.kdf, q.available))
  }

  /** Exactly these attempts are counted, and exactly a granted one clears the count. */
  lemma CountedExactly(P: Prims, allowed: bool, a: AppData, q: Attempt)
    ensures AttemptOutcome(P, allowed, a, q)
         == if RefusedFor(P, allowed, a, q) == None then Succeeded
            else if Counted(P, allowed, a, q) then FailedAt(Stamp(q.now))
            else Neither
  {
    RefusedExactly(P, allowed, a, q);
    SucceededIsGranted(P, allowed, a, q);
    hide LoadVault, Remaining, VerifyTotp, VerifyProbe, OpenIndex, DeriveMaster, RecordFailure, RecordSuccess,
         Affordable, WithinLimits, MasterOf, ProbeSealed, CodeTaken, CodeAcceptable;
    if LoadVault(a.file).Ok? {
      var v := LoadVault(a.file).value;
      AffordableIff(v.kdf, None);
      if q.key(v.kHsmBlob).Ok? && q.seed(v.totpBlob).Ok? {
        var seed, kHsm := q.seed(v.totpBlob).value, q.key(v.kHsmBlob).value;
        VerifyTotpIff(P, a.(mem := Merge(DiskState(v), a.mem)), seed, q.code, q.codeNow);
        CodeTakenIff(P, Verifier(a), seed, q.code, q.codeNow);
        MasterIs(P, q.password, v.salt, v.kdf, kHsm, q.available);
        ProbeIff(P, v, MasterOf(P, q.password, v.salt, v.kdf, kHsm));
      }
    }
  }

  lemma TimerGate(P: Prims, allowed: bool, a: AppData, q: Attempt)
    requires allowed && LoadVault(a.file).Ok? && Affordable(LoadVault(a.file).value.kdf, None) && q.deviceLock.None?
    ensures var left, r := Remaining(Level(a), q.now), RefusedFor(P, allowed, a, q);
            if left.Some? then r == Some(LockedOut(left.value)) else r.Some? ==> !r.value.LockedOut?
  {
    hide LoadVault, Remaining, Level, Affordable, MasterOf, ProbeSealed, CodeTaken, OpenIndex;
  }

  /**
   * With exactly these failures on record, an attempt that the device and the header let
   * through is refused by the timer exactly while the last window runs, for the rest of it.
   */
  lemma TimerExactly(P: Prims, allowed: bool, a: AppData, log: seq<i64>, q: Attempt)
    requires Exact(a, log) && NotNegative(log) && q.deviceLock.None?
    requires allowed && Affordable(LoadVault(a.file).value.kdf, None)
    ensures var r := RefusedFor(P, allowed, a, q);
            if Running(log, q.now) then r == Some(LockedOut(LeftOf(log, q.now))) else r.Some? ==> !r.value.LockedOut?
  {
    ExactLevel(a, log);
    RunningIff(log, q.now);
    hide RefusedFor, LoadVault, Remaining, Level, RecordOf, Running, LeftOf, Affordable;
    TimerGate(P, allowed, a, q);
  }
}
