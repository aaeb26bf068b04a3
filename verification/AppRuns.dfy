/** Whole runs of unlock attempts: the lockout schedule and TOTP replay, whatever clocks and writes do. */
module AppRuns {
  import opened Bytes
  import opened Types
  import opened Primitives
  import opened VaultModel
  import opened VaultCodec
  import opened Kdf
  import opened Lockout
  import opened Totp
  import opened Storage
  import opened AppModel

  datatype Event =
    | TryUnlock(q: Attempt)
    /** Export re-authentication and in-session confirmation. */
    | CheckCode(seed: bytes, code: bytes, now: u64)
    /** Creating a vault or importing a backup. */
    | Reconfigure(config: Config)
    | Restart
    /** Any other write of the vault file, by this process or not. */
    | Replace(file: Option<bytes>)

  ghost function Next(P: Prims, allowed: bool, a: AppData, e: Event): AppData {
    match e
    case TryUnlock(q) => UnlockSpec(P, allowed, a, q).0
    case CheckCode(seed, code, now) => VerifyTotp(P, a, seed, code, now).0
    case Reconfigure(c) => SetTotpConfig(a, c)
    case Restart => AppData(a.file, Reset(), DefaultConfig(), None)
    case Replace(f) => a.(file := f)
  }

  /** A restart keeps the file and forgets the rest: failures, configuration and replay cache. */
  lemma RestartIs(P: Prims, allowed: bool, a: AppData)
    ensures Next(P, allowed, a, Restart) == AppData(a.file, LockoutState(0, 0), Config(Sha1, 6, 30, 1), None)
  {
    hide UnlockSpec, VerifyTotp;
  }

  // ----- What unlocking requires ------------------------------------------------------------

  /** The code belongs to some step within the skew that no accepted step has reached yet. */
  ghost predicate CodeAcceptable(P: Prims, v: VerifierState, seed: bytes, code: bytes, now: u64) {
    exists s: u64 :: InWindow(v.config, now, s) && Beyond(v.cache, s) && CodeAt(P, v.config, seed, s) == code
  }

  lemma VerifyTotpIff(P: Prims, a: AppData, seed: bytes, code: bytes, now: u64)
    ensures var (b, ok) := VerifyTotp(P, a, seed, code, now);
            && (ok <==> CodeAcceptable(P, Verifier(a), seed, code, now))
            && (!ok ==> Verifier(b) == Verifier(a))
  {
    hide VerifySpec, InWindow, Beyond, CodeAt;
    var v := Verifier(a);
    AcceptIff(P, v.config, v.cache, seed, code, now);
    CacheAfter(P, v.config, v.cache, seed, code, now);
  }

  /** Everything `unlock` asks for, in one condition. */
  ghost predicate Grantable(P: Prims, allowed: bool, a: AppData, q: Attempt) {
    && allowed && LoadVault(a.file).Ok?
    && var v := LoadVault(a.file).value;
    && WithinLimits(v.kdf) && q.deviceLock.None? && Remaining(Level(a), q.now).None?
    && q.key(v.kHsmBlob).Ok? && q.seed(v.totpBlob).Ok?
    && CodeAcceptable(P, Verifier(a), q.seed(v.totpBlob).value, q.code, q.codeNow)
    && var k := DeriveMaster(P, q.password, v.salt, v.kdf, q.key(v.kHsmBlob).value, q.available);
    && k.Ok? && VerifyProbe(P, v, k.value).Ok? && OpenIndex(P, v, k.value).Ok?
  }

  /** A session is granted exactly when every factor and every gate agrees. */
  lemma GrantedIff(P: Prims, allowed: bool, a: AppData, q: Attempt)
    ensures UnlockSpec(P, allowed, a, q).1.Ok? <==> Grantable(P, allowed, a, q)
    ensures UnlockSpec(P, allowed, a, q).1.Ok? ==> AttemptOutcome(P, allowed, a, q) == Succeeded
  {
    hide LoadVault, Remaining, VerifyTotp, VerifyProbe, OpenIndex, DeriveMaster, CodeAcceptable, RecordFailure,
         RecordSuccess;
    if allowed && LoadVault(a.file).Ok? {
      var v := LoadVault(a.file).value;
      var m := a.(mem := Merge(DiskState(v), a.mem));
      if q.seed(v.totpBlob).Ok? {
        VerifyTotpIff(P, m, q.seed(v.totpBlob).value, q.code, q.codeNow);
      }
    }
  }

  /** `BadCredentials` is recorded exactly when the code or the probe was wrong, not for a failed derivation. */
  lemma BadCredentialsRecordedIff(P: Prims, allowed: bool, a: AppData, q: Attempt)
    requires UnlockSpec(P, allowed, a, q).1 == Result.Err(BadCredentials)
    ensures var v := LoadVault(a.file).value;
            LoadVault(a.file).Ok? && q.key(v.kHsmBlob).Ok? && q.seed(v.totpBlob).Ok?
            && (AttemptOutcome(P, allowed, a, q) == FailedAt(Stamp(q.now)) <==>
                  !CodeAcceptable(P, Verifier(a), q.seed(v.totpBlob).value, q.code, q.codeNow)
                  || DeriveMaster(P, q.password, v.salt, v.kdf, q.key(v.kHsmBlob).value, q.available).Ok?)
  {
    hide LoadVault, Remaining, VerifyTotp, VerifyProbe, OpenIndex, DeriveMaster, CodeAcceptable, RecordFailure,
         RecordSuccess;
    var v := LoadVault(a.file).value;
    var m := a.(mem := Merge(DiskState(v), a.mem));
    VerifyTotpIff(P, m, q.seed(v.totpBlob).value, q.code, q.codeNow);
  }

  // ----- The throttle ------------------------------------------------------------------

  /** What an attempt does to the record: one more failure, a clean slate, or nothing. */
  datatype Outcome = FailedAt(stamp: i64) | Succeeded | Neither

  ghost function AttemptOutcome(P: Prims, allowed: bool, a: AppData, q: Attempt): Outcome {
    match Admit(allowed, a)
    case Err(_) => Neither
    case Ok(v) =>
      var m := Merge(DiskState(v), a.mem);
      if Refusal(m, q).Some? || UnwrapBoth(v, q).Err? then Neither
      else
        var (kHsm, seed) := UnwrapBoth(v, q).value;
        match Judge(P, v, VerifyTotp(P, a.(mem := m), seed, q.code, q.codeNow).1, kHsm, q)
        case WrongCode => FailedAt(Stamp(q.now))
        case WrongPassword => FailedAt(Stamp(q.now))
        case Granted(_, _) => Succeeded
        case _ => Neither
  }

  /** The stamps of the failures recorded since the last success. */
  ghost function Failures(P: Prims, allowed: bool, a: AppData, log: seq<i64>, e: Event): seq<i64> {
    if !e.TryUnlock? then log
    else
      match AttemptOutcome(P, allowed, a, e.q)
      case FailedAt(s) => log + [s]
      case Succeeded => []
      case Neither => log
  }

  /** The throttle state a fresh look at disk and memory gives. */
  function Level(a: AppData): LockoutState {
    Merge(if LoadVault(a.file).Ok? then DiskState(LoadVault(a.file).value) else Reset(), a.mem)
  }

  predicate Remembers(s: LockoutState, log: seq<i64>) {
    s.counter >= Min(|log|, U64_MAX) && (log != [] ==> s.lastFailure >= log[|log| - 1])
  }

  /** From the third failure on, each next stamp is a full window after the one before. */
  predicate Scheduled(log: seq<i64>) {
    forall i :: 2 <= i < |log| - 1 ==> log[i + 1] >= Min(I64_MAX, log[i] + Window(i + 1))
  }

  predicate Positive(log: seq<i64>) { forall i :: 0 <= i < |log| ==> log[i] > 0 }

  predicate ClocksPositive(es: seq<Event>) {
    forall i :: 0 <= i < |es| && es[i].TryUnlock? ==> es[i].q.now > 0
  }

  /** A recorded failure was let past a timer that had run out. */
  lemma RecordedIsScheduled(m: LockoutState, log: seq<i64>, now: u64)
    requires Remembers(m, log) && Scheduled(log) && Positive(log) && now > 0 && Remaining(m, now).None?
    ensures Remembers(AfterFailure(m, now), log + [Stamp(now)])
    ensures Scheduled(log + [Stamp(now)]) && Positive(log + [Stamp(now)])
  {
    hide Window, Remaining;
    RemainingIs(m, now);
    var n := |log|;
    if n >= 3 {
      WindowSaturates(n, m.counter);
      assert now >= m.lastFailure + Window(m.counter);
    }
  }

  /** The saturated counter blocks as long as the true number of failures would. */
  lemma WindowSaturates(n: nat, counter: u64)
    requires counter >= Min(n, U64_MAX)
    ensures Window(counter) >= Window(n)
  {
    if counter >= n {
      ScheduleMonotone(n, counter);
    }
  }

  /** The record and the in-process state after an attempt. */
  lemma AttemptEffect(P: Prims, allowed: bool, a: AppData, q: Attempt)
    ensures var b := UnlockSpec(P, allowed, a, q).0;
            match AttemptOutcome(P, allowed, a, q)
            case FailedAt(s) =>
              && s == Stamp(q.now) && b.mem == AfterFailure(Level(a), q.now)
              && Remaining(Level(a), q.now).None?
            case Succeeded => b.mem == Reset()
            case Neither => b.file == a.file && (b.mem == a.mem || b.mem == Level(a))
    ensures AttemptOutcome(P, allowed, a, q).FailedAt? ==>
              && LoadVault(a.file).Ok?
              && var b := UnlockSpec(P, allowed, a, q).0;
              b.file == Written(a.file, Serialize(WithRateLimit(LoadVault(a.file).value, b.mem)), q.faults)
  {
    hide LoadVault, Judge, VerifyTotp, Remaining, Written, Serialize;
    match Admit(allowed, a)
    case Err(_) =>
    case Ok(v) =>
      var m := Merge(DiskState(v), a.mem);
      assert m == Level(a);
  }

  lemma AttemptKeeps(P: Prims, allowed: bool, a: AppData, log: seq<i64>, q: Attempt)
    requires Scheduled(log) && Positive(log) && q.now > 0
    ensures var b := Next(P, allowed, a, TryUnlock(q));
            var log' := Failures(P, allowed, a, log, TryUnlock(q));
            && (Remembers(Level(a), log) ==> Scheduled(log') && Positive(log') && Remembers(Level(b), log'))
            && (Remembers(a.mem, log) ==> Remembers(b.mem, log'))
  {
    AttemptEffect(P, allowed, a, q);
    var b := Next(P, allowed, a, TryUnlock(q));
    var log' := Failures(P, allowed, a, log, TryUnlock(q));
    NothingRemembered(Reset());
    if Remembers(a.mem, log) { MemoryIsBelowLevel(a, log); }
    hide UnlockSpec, AttemptOutcome, Remaining, Scheduled, Positive, Remembers, Level, AfterFailure;
    if Remembers(Level(a), log) {
      if Remaining(Level(a), q.now).None? { RecordedIsScheduled(Level(a), log, q.now); }
      if Remembers(b.mem, log') { MemoryIsBelowLevel(b, log'); }
      SameLevel(a, b);
    }
  }

  lemma SameLevel(a: AppData, b: AppData)
    ensures b.file == a.file && b.mem == a.mem ==> Level(b) == Level(a)
  {
  }

  lemma NothingRemembered(s: LockoutState)
    ensures Remembers(s, []) && Scheduled([]) && Positive([])
  {
  }

  /** No restart or outside write lowers what disk and memory together show. */
  ghost predicate NothingLost(P: Prims, allowed: bool, a: AppData, es: seq<Event>)
    decreases |es|
  {
    es == [] ||
    var b := Next(P, allowed, a, es[0]);
    (es[0].Restart? || es[0].Replace? ==> Below(Level(a), Level(b))) && NothingLost(P, allowed, b, es[1..])
  }

  lemma RemembersMonotone(s: LockoutState, t: LockoutState, log: seq<i64>)
    requires Remembers(s, log) && Below(s, t)
    ensures Remembers(t, log)
  {
  }

  ghost function RunFailures(P: Prims, allowed: bool, a: AppData, log: seq<i64>, es: seq<Event>): (AppData, seq<i64>)
    decreases |es|
  {
    if es == [] then (a, log)
    else RunFailures(P, allowed, Next(P, allowed, a, es[0]), Failures(P, allowed, a, log, es[0]), es[1..])
  }

  /** No run of attempts beats the schedule, as long as restarts and outside writes lose nothing. */
  lemma {:induction false} RunIsScheduled(P: Prims, allowed: bool, a: AppData, log: seq<i64>, es: seq<Event>)
    requires ClocksPositive(es) && NothingLost(P, allowed, a, es)
    requires Scheduled(log) && Positive(log) && Remembers(Level(a), log)
    ensures var (b, log') := RunFailures(P, allowed, a, log, es);
            Scheduled(log') && Remembers(Level(b), log')
    decreases |es|
  {
    hide Scheduled, Positive, Remembers, Level, Next, Failures;
    if es != [] {
      var b, log' := Next(P, allowed, a, es[0]), Failures(P, allowed, a, log, es[0]);
      StepKeeps(P, allowed, a, log, es[0]);
      if Below(Level(a), Level(b)) { RemembersMonotone(Level(a), Level(b), log); }
      RunIsScheduled(P, allowed, b, log', es[1..]);
    }
  }

  lemma StepKeeps(P: Prims, allowed: bool, a: AppData, log: seq<i64>, e: Event)
    requires Scheduled(log) && Positive(log) && (e.TryUnlock? ==> e.q.now > 0)
    ensures var b, log' := Next(P, allowed, a, e), Failures(P, allowed, a, log, e);
            && (Remembers(Level(a), log) && !e.Restart? && !e.Replace? ==>
                  Scheduled(log') && Positive(log') && Remembers(Level(b), log'))
            && (Remembers(a.mem, log) && !e.Restart? ==> Remembers(b.mem, log'))
            && (!e.TryUnlock? ==> log' == log)
  {
    hide Scheduled, Positive, Remembers, UnlockSpec, AttemptOutcome, LoadVault;
    if e.TryUnlock? {
      AttemptKeeps(P, allowed, a, log, e.q);
    }
  }

  predicate NoRestart(es: seq<Event>) { forall i :: 0 <= i < |es| ==> !es[i].Restart? }

  /**
   * Within one process the in-memory counter never drops below the failures since the last
   * success and the schedule holds, whichever writes fail and whatever happens to the file.
   */
  lemma {:induction false} InProcessSchedule(P: Prims, allowed: bool, a: AppData, log: seq<i64>, es: seq<Event>)
    requires ClocksPositive(es) && NoRestart(es)
    requires Scheduled(log) && Positive(log) && Remembers(a.mem, log)
    ensures var (b, log') := RunFailures(P, allowed, a, log, es);
            Scheduled(log') && Remembers(b.mem, log')
    decreases |es|
  {
    hide Scheduled, Positive, Remembers, Level, Next, Failures;
    if es != [] {
      var b, log' := Next(P, allowed, a, es[0]), Failures(P, allowed, a, log, es[0]);
      MemoryIsBelowLevel(a, log);
      StepKeeps(P, allowed, a, log, es[0]);
      InProcessSchedule(P, allowed, b, log', es[1..]);
    }
  }

  lemma MemoryIsBelowLevel(a: AppData, log: seq<i64>)
    requires Remembers(a.mem, log)
    ensures Remembers(Level(a), log)
  {
    hide LoadVault;
  }

  function SumWindows(k: nat, n: nat): nat
    decreases n - k
  {
    if k >= n then 0 else Window(k) + SumWindows(k + 1, n)
  }

  lemma {:induction false} SumWindowsSplit(k: nat, n: nat)
    requires k <= n
    ensures SumWindows(k, n + 1) == SumWindows(k, n) + Window(n)
    decreases n - k
  {
    if k < n {
      SumWindowsSplit(k + 1, n);
    } else {
      assert SumWindows(k + 1, n + 1) == 0;
    }
  }

  /** The n-th failure comes no earlier than all windows from the third on have passed. */
  lemma {:induction false} NthFailureBound(log: seq<i64>, n: nat)
    requires Scheduled(log) && 3 <= n <= |log|
    ensures log[n - 1] >= Min(I64_MAX, log[2] + SumWindows(3, n))
  {
    hide Window;
    if n > 3 {
      NthFailureBound(log, n - 1);
      SumWindowsSplit(3, n - 1);
      assert log[n - 2 + 1] >= Min(I64_MAX, log[n - 2] + Window(n - 2 + 1));
    }
  }

  // ----- The throttle across processes --------------------------------------------------------

  lemma RateLimitWellFormed(v: VaultData, s: LockoutState)
    requires WellFormed(v)
    ensures WellFormed(WithRateLimit(v, s))
  {
    hide GoodEnvelopes;
  }

  lemma RateLimitLen(v: VaultData, s: LockoutState)
    ensures |Serialize(WithRateLimit(v, s))| == |Serialize(v)|
  {
    hide HeaderBytes, BlobBytes, IndexBytes, EntriesBytes, LE;
  }

  /** A header update never makes a file unreadable: it loads as updated or as it was. */
  lemma WrittenLoads(file: Option<bytes>, v: VaultData, s: LockoutState, f: Faults)
    requires LoadVault(file) == Result.Ok(v)
    ensures var w := WithRateLimit(v, s);
            LoadVault(Written(file, Serialize(w), f)) == Result.Ok(if Succeeds(f, Serialize(w)) then w else v)
  {
    hide Parse, SerializeWith, WellFormed, Succeeds;
    var b := file.value;
    SerializeOfParse(b);
    SerializeLen(v, RawExport(StateCursor(b)));
    RateLimitLen(v, s);
    RateLimitWellFormed(v, s);
    CodecRoundTrip(WithRateLimit(v, s));
  }

  /** A recorded failure whose write lands is what the next process starts from. */
  lemma FailureSurvivesRestart(v: VaultData, a: AppData, s: LockoutState, q: Attempt)
    requires LoadVault(a.file) == Result.Ok(v)
    requires Succeeds(q.faults, Serialize(WithRateLimit(v, AfterFailure(s, q.now))))
    ensures LoadVault(RecordFailure(a, v, s, q).file).Ok?
    ensures DiskState(LoadVault(RecordFailure(a, v, s, q).file).value) == AfterFailure(s, q.now)
  {
    hide LoadVault, Serialize, Succeeds, AfterFailure, Written;
    WrittenLoads(a.file, v, AfterFailure(s, q.now), q.faults);
  }

  /** Whichever state an attempt records, writing it succeeds. */
  ghost predicate WriteLands(v: VaultData, q: Attempt) {
    forall s: LockoutState :: Succeeds(q.faults, Serialize(WithRateLimit(v, s)))
  }

  /** An outside write that leaves a readable file readable and does not lower the record in it. */
  predicate KeepsRecord(a: AppData, file: Option<bytes>) {
    LoadVault(a.file).Ok? ==>
      LoadVault(file).Ok? && Below(DiskState(LoadVault(a.file).value), DiskState(LoadVault(file).value))
  }

  /** Every attempt's write lands, and no outside write lowers the record. */
  ghost predicate WritesLand(P: Prims, allowed: bool, a: AppData, es: seq<Event>)
    decreases |es|
  {
    es == [] ||
    (&& (es[0].Replace? ==> KeepsRecord(a, es[0].file))
     && (es[0].TryUnlock? && LoadVault(a.file).Ok? ==> WriteLands(LoadVault(a.file).value, es[0].q))
     && WritesLand(P, allowed, Next(P, allowed, a, es[0]), es[1..]))
  }

  predicate OnDisk(a: AppData, log: seq<i64>) {
    LoadVault(a.file).Ok? && Remembers(DiskState(LoadVault(a.file).value), log)
  }

  lemma SuccessStaysReadable(v: VaultData, a: AppData, q: Attempt)
    requires LoadVault(a.file) == Result.Ok(v)
    ensures LoadVault(RecordSuccess(a, v, q).file).Ok?
  {
    hide LoadVault, Serialize, Succeeds, Written;
    WrittenLoads(a.file, v, Reset(), q.faults);
  }

  /** What an attempt leaves on disk when its write lands. */
  lemma AttemptOnDisk(P: Prims, allowed: bool, a: AppData, q: Attempt)
    requires LoadVault(a.file).Ok? && WriteLands(LoadVault(a.file).value, q)
    ensures var b := UnlockSpec(P, allowed, a, q).0;
            && LoadVault(b.file).Ok?
            && (AttemptOutcome(P, allowed, a, q).FailedAt? ==> DiskState(LoadVault(b.file).value) == b.mem)
            && (AttemptOutcome(P, allowed, a, q).Neither? ==> b.file == a.file)
  {
    hide LoadVault, WriteLands, Judge, VerifyTotp, Remaining, RecordFailure, RecordSuccess, UnwrapBoth;
    if Admit(allowed, a).Ok? {
      var v := LoadVault(a.file).value;
      var m := Merge(DiskState(v), a.mem);
      if UnwrapBoth(v, q).Ok? {
        var b := VerifyTotp(P, a.(mem := m), UnwrapBoth(v, q).value.1, q.code, q.codeNow).0;
        FailureLands(v, b, m, q);
        SuccessStaysReadable(v, b, q);
      }
    }
  }

  lemma FailureLands(v: VaultData, a: AppData, s: LockoutState, q: Attempt)
    requires LoadVault(a.file) == Result.Ok(v) && WriteLands(v, q)
    ensures var b := RecordFailure(a, v, s, q);
            LoadVault(b.file).Ok? && DiskState(LoadVault(b.file).value) == b.mem
  {
    FailureSurvivesRestart(v, a, s, q);
    hide LoadVault, Serialize, Succeeds, AfterFailure;
  }

  /**
   * When every attempt's write lands, the schedule holds across any number of restarts and
   * outside writes: the file alone remembers all failures since the last success.
   */
  lemma {:induction false} ScheduleAcrossRestarts(P: Prims, allowed: bool, a: AppData, log: seq<i64>, es: seq<Event>)
    requires ClocksPositive(es) && WritesLand(P, allowed, a, es)
    requires Scheduled(log) && Positive(log) && OnDisk(a, log)
    ensures var (b, log') := RunFailures(P, allowed, a, log, es);
            Scheduled(log') && OnDisk(b, log')
    decreases |es|
  {
    hide Scheduled, Positive, OnDisk, Next, Failures, WriteLands;
    if es != [] {
      var b, log' := Next(P, allowed, a, es[0]), Failures(P, allowed, a, log, es[0]);
      assert es[0].TryUnlock? ==> WriteLands(LoadVault(a.file).value, es[0].q) by { OnDiskLoads(a, log); }
      StepOnDisk(P, allowed, a, log, es[0]);
      ScheduleAcrossRestarts(P, allowed, b, log', es[1..]);
    }
  }

  lemma OnDiskLoads(a: AppData, log: seq<i64>)
    requires OnDisk(a, log)
    ensures LoadVault(a.file).Ok? && Remembers(Level(a), log)
  {
    hide LoadVault;
  }

  lemma StepOnDisk(P: Prims, allowed: bool, a: AppData, log: seq<i64>, e: Event)
    requires Scheduled(log) && Positive(log) && OnDisk(a, log)
    requires e.Replace? ==> KeepsRecord(a, e.file)
    requires e.TryUnlock? ==> e.q.now > 0 && LoadVault(a.file).Ok? && WriteLands(LoadVault(a.file).value, e.q)
    ensures var b, log' := Next(P, allowed, a, e), Failures(P, allowed, a, log, e);
            Scheduled(log') && Positive(log') && OnDisk(b, log')
  {
    hide UnlockSpec, AttemptOutcome, LoadVault, WriteLands, Scheduled, Positive, AfterFailure, Remaining;
    NothingRemembered(Reset());
    if e.TryUnlock? {
      OnDiskLoads(a, log);
      AttemptEffect(P, allowed, a, e.q);
      AttemptOnDisk(P, allowed, a, e.q);
      if AttemptOutcome(P, allowed, a, e.q).FailedAt? {
        RecordedIsScheduled(Level(a), log, e.q.now);
      }
    } else if e.Replace? {
      RemembersMonotone(DiskState(LoadVault(a.file).value), DiskState(LoadVault(e.file).value), log);
    }
  }

  // ----- A clock at zero ------------------------------------------------------------------------

  /** A wrong code, tried while the clock reads zero and the device itself is not locked. */
  ghost predicate WrongAtZero(P: Prims, v: VaultData, w: VerifierState, q: Attempt) {
    q.now == 0 && q.deviceLock.None? && UnwrapBoth(v, q).Ok?
    && !CodeAcceptable(P, w, UnwrapBoth(v, q).value.1, q.code, q.codeNow)
  }

  lemma WrongCodeIsJudged(P: Prims, v: VaultData, kHsm: bytes, q: Attempt)
    ensures Judge(P, v, false, kHsm, q) == WrongCode
  {
  }

  lemma NoWaitAtZero(s: LockoutState, q: Attempt)
    requires s.lastFailure <= 0 && q.deviceLock.None?
    ensures Refusal(s, q).None?
  {
    hide Window;
  }

  lemma ZeroClockFails(P: Prims, allowed: bool, a: AppData, v: VaultData, q: Attempt)
    requires Admit(allowed, a) == Result.Ok(v) && Level(a).lastFailure <= 0 && WrongAtZero(P, v, Verifier(a), q)
    ensures AttemptOutcome(P, allowed, a, q) == FailedAt(0)
    ensures Verifier(UnlockSpec(P, allowed, a, q).0) == Verifier(a)
  {
    AttemptVerifier(P, allowed, a, q);
    hide LoadVault, Refusal, VerifyTotp, UnwrapBoth, Judge, CodeAcceptable, UnlockSpec;
    var m := Merge(DiskState(v), a.mem);
    NoWaitAtZero(m, q);
    var (kHsm, seed) := UnwrapBoth(v, q).value;
    VerifyTotpIff(P, a.(mem := m), seed, q.code, q.codeNow);
    WrongCodeIsJudged(P, v, kHsm, q);
  }

  /** The header a wrong code leaves, whether or not its write lands. */
  lemma ZeroClockStep(P: Prims, allowed: bool, a: AppData, v: VaultData, q: Attempt)
    requires Admit(allowed, a) == Result.Ok(v) && Level(a).lastFailure <= 0 && WrongAtZero(P, v, Verifier(a), q)
    ensures var b := Next(P, allowed, a, TryUnlock(q));
            && Admit(allowed, b).Ok?
            && Admit(allowed, b).value == WithRateLimit(v, DiskState(Admit(allowed, b).value))
            && Level(b).lastFailure <= 0
  {
    hide LoadVault, UnlockSpec, AttemptOutcome, WrongAtZero, Serialize, Succeeds, Written;
    ZeroClockFails(P, allowed, a, v, q);
    AttemptEffect(P, allowed, a, q);
    var b := Next(P, allowed, a, TryUnlock(q));
    WrittenLoads(a.file, v, b.mem, q.faults);
  }

  lemma SameSlots(P: Prims, v: VaultData, w: VaultData, z: VerifierState, q: Attempt)
    requires w == WithRateLimit(v, DiskState(w)) && WrongAtZero(P, v, z, q)
    ensures WrongAtZero(P, w, z, q)
  {
    hide CodeAcceptable;
  }

  function Tries(qs: seq<Attempt>): (es: seq<Event>)
    ensures |es| == |qs|
  {
    if qs == [] then [] else [TryUnlock(qs[0])] + Tries(qs[1..])
  }

  function ZeroStamps(n: nat): (log: seq<i64>)
    ensures |log| == n && forall i :: 0 <= i < n ==> log[i] == 0
  {
    if n == 0 then [] else [0] + ZeroStamps(n - 1)
  }

  /** With the clock at zero the schedule fails: each of any number of wrong codes is let through and recorded. */
  lemma {:induction false} ZeroClockIsNeverLocked(P: Prims, allowed: bool, a: AppData, v: VaultData, log: seq<i64>,
                                                  qs: seq<Attempt>)
    requires Admit(allowed, a) == Result.Ok(v) && Level(a).lastFailure <= 0
    requires forall i :: 0 <= i < |qs| ==> WrongAtZero(P, v, Verifier(a), qs[i])
    ensures RunFailures(P, allowed, a, log, Tries(qs)).1 == log + ZeroStamps(|qs|)
    decreases |qs|
  {
    hide WrongAtZero, AttemptOutcome, Admit, Level, UnlockSpec;
    if qs == [] {
      assert log + [] == log;
    } else {
      ZeroClockFails(P, allowed, a, v, qs[0]);
      ZeroClockStep(P, allowed, a, v, qs[0]);
      var b := Next(P, allowed, a, TryUnlock(qs[0]));
      var w := Admit(allowed, b).value;
      forall i | 0 <= i < |qs[1..]| ensures WrongAtZero(P, w, Verifier(b), qs[1..][i]) {
        SameSlots(P, v, w, Verifier(a), qs[i + 1]);
      }
      ZeroClockIsNeverLocked(P, allowed, b, w, log + [0], qs[1..]);
      assert Tries(qs)[1..] == Tries(qs[1..]);
      assert log + ZeroStamps(|qs|) == log + [0] + ZeroStamps(|qs[1..]|);
    }
  }

  // ----- TOTP replay ----------------------------------------------------------------------

  /** The time step accepted by an event, if one is. */
  ghost function AcceptedStep(P: Prims, allowed: bool, a: AppData, e: Event): Option<u64> {
    if e.CheckCode? then
      var (b, ok) := VerifyTotp(P, a, e.seed, e.code, e.now);
      if ok then b.verifier.value.cache else None
    else if e.TryUnlock? && Admit(allowed, a).Ok? then
      var v := Admit(allowed, a).value;
      var m := Merge(DiskState(v), a.mem);
      if Refusal(m, e.q).Some? || UnwrapBoth(v, e.q).Err? then None
      else
        var (b, ok) := VerifyTotp(P, a.(mem := m), UnwrapBoth(v, e.q).value.1, e.q.code, e.q.codeNow);
        if ok then b.verifier.value.cache else None
    else None
  }

  /** The steps accepted since the verifier was last replaced. */
  ghost function Accepted(P: Prims, allowed: bool, a: AppData, log: seq<u64>, e: Event): seq<u64> {
    if e.Restart? || e.Reconfigure? then []
    else
      match AcceptedStep(P, allowed, a, e)
      case None => log
      case Some(s) => log + [s]
  }

  ghost function RunAccepted(P: Prims, allowed: bool, a: AppData, log: seq<u64>, es: seq<Event>): (AppData, seq<u64>)
    decreases |es|
  {
    if es == [] then (a, log)
    else RunAccepted(P, allowed, Next(P, allowed, a, es[0]), Accepted(P, allowed, a, log, es[0]), es[1..])
  }

  predicate Increasing(log: seq<u64>) { forall i, j :: 0 <= i < j < |log| ==> log[i] < log[j] }

  predicate CacheIsLast(a: AppData, log: seq<u64>) {
    log != [] ==> a.verifier.Some? && a.verifier.value.cache == Some(log[|log| - 1])
  }

  lemma VerifyAdvances(P: Prims, a: AppData, log: seq<u64>, seed: bytes, code: bytes, now: u64)
    requires Increasing(log) && CacheIsLast(a, log)
    ensures var (b, ok) := VerifyTotp(P, a, seed, code, now);
            && (ok ==> b.verifier.value.cache.Some? && Increasing(log + [b.verifier.value.cache.value]))
            && CacheIsLast(b, if ok then log + [b.verifier.value.cache.value] else log)
  {
    hide VerifySpec;
    var v := Verifier(a);
    CacheAfter(P, v.config, v.cache, seed, code, now);
    var (after, r) := VerifySpec(P, v.config, v.cache, seed, code, now);
    if r.Ok? {
      AppendIncreasing(log, after.value);
    }
  }

  lemma AppendIncreasing(log: seq<u64>, s: u64)
    requires Increasing(log) && (log != [] ==> log[|log| - 1] < s)
    ensures Increasing(log + [s])
  {
    forall i | 0 <= i < |log| ensures log[i] < s {
      assert log[i] <= log[|log| - 1];
    }
  }

  /** An attempt changes the verifier only through the code check, if it gets there. */
  lemma AttemptVerifier(P: Prims, allowed: bool, a: AppData, q: Attempt)
    ensures var b := UnlockSpec(P, allowed, a, q).0;
            match Admit(allowed, a)
            case Err(_) => b.verifier == a.verifier
            case Ok(v) =>
              var m := Merge(DiskState(v), a.mem);
              if Refusal(m, q).Some? || UnwrapBoth(v, q).Err? then b.verifier == a.verifier
              else b.verifier == VerifyTotp(P, a.(mem := m), UnwrapBoth(v, q).value.1, q.code, q.codeNow).0.verifier
  {
    hide VerifyTotp, Judge, Admit, UnwrapBoth, Refusal, Written;
  }

  lemma AttemptAdvances(P: Prims, allowed: bool, a: AppData, log: seq<u64>, q: Attempt)
    requires Increasing(log) && CacheIsLast(a, log)
    ensures var log' := Accepted(P, allowed, a, log, TryUnlock(q));
            Increasing(log') && CacheIsLast(UnlockSpec(P, allowed, a, q).0, log')
  {
    AttemptVerifier(P, allowed, a, q);
    hide VerifyTotp, Increasing, Admit, UnwrapBoth, Refusal, UnlockSpec;
    if Admit(allowed, a).Ok? {
      var v := Admit(allowed, a).value;
      var m := a.(mem := Merge(DiskState(v), a.mem));
      if UnwrapBoth(v, q).Ok? {
        VerifyAdvances(P, m, log, UnwrapBoth(v, q).value.1, q.code, q.codeNow);
      }
    }
  }

  lemma AcceptedAdvances(P: Prims, allowed: bool, a: AppData, log: seq<u64>, e: Event)
    requires Increasing(log) && CacheIsLast(a, log)
    ensures var log' := Accepted(P, allowed, a, log, e);
            Increasing(log') && CacheIsLast(Next(P, allowed, a, e), log')
  {
    EmptyIncreases();
    hide VerifyTotp, Increasing, UnlockSpec;
    match e
    case CheckCode(seed, code, now) => VerifyAdvances(P, a, log, seed, code, now);
    case TryUnlock(q) => AttemptAdvances(P, allowed, a, log, q);
    case _ =>
  }

  lemma EmptyIncreases()
    ensures Increasing([])
  {
  }

  /**
   * Over any run, with clocks moving either way, the steps accepted by unlocking, export
   * re-authentication and confirmation strictly increase until the verifier is replaced.
   */
  lemma {:induction false} ReplayFree(P: Prims, allowed: bool, a: AppData, log: seq<u64>, es: seq<Event>)
    requires Increasing(log) && CacheIsLast(a, log)
    ensures var (b, log') := RunAccepted(P, allowed, a, log, es);
            Increasing(log') && CacheIsLast(b, log')
    decreases |es|
  {
    hide Increasing, CacheIsLast, Next, Accepted;
    if es != [] {
      AcceptedAdvances(P, allowed, a, log, es[0]);
      ReplayFree(P, allowed, Next(P, allowed, a, es[0]), Accepted(P, allowed, a, log, es[0]), es[1..]);
    }
  }
}
