/**
 * The locked application as a value: the vault file, the in-process throttle state and
 * the TOTP verifier, and what an unlock attempt does to them.
 */
module AppModel {
  import opened Bytes
  import opened Errors
  import opened Types
  import opened Primitives
  import opened VaultModel
  import opened VaultCodec
  import opened Kdf
  import opened Lockout
  import opened Totp
  import opened Storage

  const HSM_LOCKOUT_FALLBACK: nat := 60
  const SESSION_SECS: nat := 120

  datatype HsmError = UserCancelled | Transient | PermanentlyInvalidated | HardwareAbsent | OtherFailure

  datatype UnlockError =
    | Cancelled
    | Retryable
    | RouteToRecovery
    | BadCredentials
    | LockedOut(remaining: nat)
    | HsmFailed
    | MalformedVault(cause: Error)
    | SoftwareHsmRefused

  /** What a verifier is: the configuration it was built with and its replay cache. */
  datatype VerifierState = VerifierState(config: Config, cache: Option<u64>)

  datatype AppData = AppData(file: Option<bytes>, mem: LockoutState, config: Config, verifier: Option<VerifierState>)

  /** The hardware's answer to unwrapping each blob. */
  type Unwrap = bytes -> Result<bytes, HsmError>

  /** An unlock attempt: what the user typed, what the clock and the hardware say, whether a write lands. */
  datatype Attempt = Attempt(password: Text, code: bytes, now: u64, codeNow: u64, sessionNow: u64,
                             deviceLock: Option<Option<nat>>, key: Unwrap, seed: Unwrap,
                             available: Option<u64>, faults: Faults)

  datatype Session = Session(kMaster: Key, seed: bytes, rows: seq<Row>, expiry: u64)

  function MapHsmUnlock(e: HsmError): UnlockError {
    match e
    case UserCancelled => Cancelled
    case Transient => Retryable
    case PermanentlyInvalidated => RouteToRecovery
    case HardwareAbsent => RouteToRecovery
    case OtherFailure => HsmFailed
  }

  function LoadVault(file: Option<bytes>): Result<VaultData, Error> {
    var b :- ReadSpec(file);
    Parse(b)
  }

  function FileLen(a: AppData): nat { if a.file.Some? then |a.file.value| else 0 }

  function Written(file: Option<bytes>, data: bytes, f: Faults): Option<bytes> {
    if Succeeds(f, data) then Some(data) else file
  }

  function DiskState(v: VaultData): LockoutState { LockoutState(v.rlCounter, v.rlLast) }

  // ----- TOTP ---------------------------------------------------------------------------

  /** The verifier in place, or the one that would be built. */
  function Verifier(a: AppData): VerifierState {
    if a.verifier.Some? then a.verifier.value else VerifierState(a.config, None)
  }

  /** `verify_totp`: the verifier is built on first use and keeps its cache across attempts. */
  function VerifyTotp(P: Prims, a: AppData, seed: bytes, code: bytes, now: u64): (r: (AppData, bool))
    ensures r.0 == a.(verifier := r.0.verifier) && r.0.verifier.Some?
  {
    var v := Verifier(a);
    var (cache, r) := VerifySpec(P, v.config, v.cache, seed, code, now);
    (a.(verifier := Some(v.(cache := cache))), r.Ok?)
  }

  function SetTotpConfig(a: AppData, config: Config): AppData { a.(config := config, verifier := None) }

  // ----- Unlocking ----------------------------------------------------------------------

  /** The header is parsed and its KDF cost admitted. */
  function Admit(allowed: bool, a: AppData): Result<VaultData, UnlockError> {
    if !allowed then Err(SoftwareHsmRefused)
    else
      match LoadVault(a.file)
      case Err(e) => Err(MalformedVault(e))
      case Ok(v) => if WithinLimits(v.kdf) then Ok(v) else Err(MalformedVault(Error.Kdf))
  }

  /** The device's own lockout comes first, then the advisory timer. */
  function Refusal(s: LockoutState, q: Attempt): Option<nat> {
    if q.deviceLock.Some? then
      Some(if q.deviceLock.value.Some? then q.deviceLock.value.value
           else if Remaining(s, q.now).Some? then Remaining(s, q.now).value
           else HSM_LOCKOUT_FALLBACK)
    else Remaining(s, q.now)
  }

  function UnwrapBoth(v: VaultData, q: Attempt): Result<(bytes, bytes), UnlockError> {
    match q.key(v.kHsmBlob)
    case Err(e) => Err(MapHsmUnlock(e))
    case Ok(kHsm) =>
      match q.seed(v.totpBlob)
      case Err(e) => Err(MapHsmUnlock(e))
      case Ok(seed) => Ok((kHsm, seed))
  }

  function WithRateLimit(v: VaultData, s: LockoutState): VaultData {
    v.(rlCounter := s.counter, rlLast := s.lastFailure)
  }

  function RecordFailure(a: AppData, v: VaultData, s: LockoutState, q: Attempt): AppData {
    var s' := AfterFailure(s, q.now);
    a.(mem := s', file := Written(a.file, Serialize(WithRateLimit(v, s')), q.faults))
  }

  /** The counter reset is written only when the header carries one. */
  function RecordSuccess(a: AppData, v: VaultData, q: Attempt): AppData {
    var cleared := Serialize(WithRateLimit(v, Reset()));
    a.(mem := Reset(), file := if v.rlCounter != 0 || v.rlLast != 0 then Written(a.file, cleared, q.faults) else a.file)
  }

  /** What an admitted attempt that was not refused and whose slots unwrapped comes to. */
  datatype Verdict =
    | WrongCode
    | KdfFailed
    | WrongPassword
    | Corrupt(cause: Error)
    | Granted(kMaster: Key, rows: seq<Row>)

  ghost function Judge(P: Prims, v: VaultData, codeOk: bool, kHsm: bytes, q: Attempt): Verdict {
    if !codeOk then WrongCode
    else
      match DeriveMaster(P, q.password, v.salt, v.kdf, kHsm, q.available)
      case Err(_) => KdfFailed
      case Ok(k) =>
        if VerifyProbe(P, v, k).Err? then WrongPassword
        else
          match OpenIndex(P, v, k)
          case Err(e) => Corrupt(e)
          case Ok(rows) => Granted(k, rows)
  }

  ghost function Conclude(a: AppData, v: VaultData, s: LockoutState, seed: bytes, verdict: Verdict, q: Attempt)
    : (AppData, Result<Session, UnlockError>)
  {
    match verdict
    case WrongCode => (RecordFailure(a, v, s, q), Err(BadCredentials))
    case KdfFailed => (a, Err(BadCredentials))
    case WrongPassword => (RecordFailure(a, v, s, q), Err(BadCredentials))
    case Corrupt(e) => (a, Err(MalformedVault(e)))
    case Granted(k, rows) =>
      (RecordSuccess(a, v, q), Ok(Session(k, seed, rows, Min(q.sessionNow + SESSION_SECS, U64_MAX))))
  }

  /** The part of `unlock` after the vault was admitted; `a.mem` already holds the merged state. */
  ghost function Try(P: Prims, a: AppData, v: VaultData, q: Attempt): (AppData, Result<Session, UnlockError>) {
    if Refusal(a.mem, q).Some? then (a, Err(LockedOut(Refusal(a.mem, q).value)))
    else
      match UnwrapBoth(v, q)
      case Err(e) => (a, Err(e))
      case Ok((kHsm, seed)) =>
        var (b, codeOk) := VerifyTotp(P, a, seed, q.code, q.codeNow);
        Conclude(b, v, a.mem, seed, Judge(P, v, codeOk, kHsm, q), q)
  }

  ghost function UnlockSpec(P: Prims, allowed: bool, a: AppData, q: Attempt): (AppData, Result<Session, UnlockError>) {
    match Admit(allowed, a)
    case Err(e) => (a, Err(e))
    case Ok(v) => Try(P, a.(mem := Merge(DiskState(v), a.mem)), v, q)
  }
}
