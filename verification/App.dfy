/** The locked application object, proved against the application model. */
module App {
  import opened Bytes
  import opened Errors
  import opened Types
  import opened Primitives
  import opened VaultModel
  import opened Kdf
  import opened Lockout
  import opened Totp
  import opened Storage
  import opened RecoveryModel
  import opened Rebuild
  import opened AppModel
  import Recovery
  import V = Vault

  /** Enrolling the two hardware slots may fail; everything random is in `minted`. */
  datatype Enrolment = Enrolment(keyEnrolled: bool, seedEnrolled: bool, minted: Fresh, seed: Seed,
                                 importAvailable: Option<u64>, available: Option<u64>, now: i64, sessionNow: u64,
                                 faults: Faults)

  ghost function Provisioned(P: Prims, a: AppData, built: Result<Restored, Error>, config: Config, e: Enrolment)
    : (AppData, Result<Session, Error>)
  {
    match built
    case Err(err) => (a, Err(err))
    case Ok(r) =>
      if !Succeeds(e.faults, VaultCodec.Serialize(r.vault)) then (a, Err(Io))
      else
        var b := SetTotpConfig(a.(file := Some(VaultCodec.Serialize(r.vault))), config);
        match OpenIndex(P, r.vault, r.kMaster)
        case Err(err) => (b, Err(err))
        case Ok(rows) => (b, Ok(Session(r.kMaster, r.seed, rows, Min(e.sessionNow + SESSION_SECS, U64_MAX))))
  }

  function BuildNew(P: Prims, password: Text, kdf: KdfParams, e: Enrolment): Result<Restored, Error> {
    var k :- DeriveMaster(P, password, e.minted.vaultSalt, kdf, e.minted.kHsm, e.available);
    var v :- Create(P, kdf, e.minted.vaultSalt, e.minted.kHsmBlob, e.minted.seedBlob, Metadata(e.now, None), k,
                    e.minted.probeNonce, e.minted.indexNonce);
    Ok(Restored(v, k, e.seed))
  }

  ghost function CreateVaultSpec(P: Prims, allowed: bool, a: AppData, password: Text, kdf: KdfParams, config: Config,
                                 e: Enrolment)
    : (AppData, Result<Session, Error>)
  {
    if !allowed then (a, Err(BackendRefused))
    else if !e.keyEnrolled || !e.seedEnrolled then (a, Err(Hsm))
    else Provisioned(P, a, BuildNew(P, password, kdf, e), config, e)
  }

  ghost function ImportSpec(P: Prims, allowed: bool, a: AppData, file: bytes, password: Text, kdf: KdfParams,
                            config: Config, e: Enrolment)
    : (AppData, Result<Session, Error>)
  {
    if !allowed then (a, Err(BackendRefused))
    else
      match ImportFile(P, file, password, e.importAvailable)
      case Err(err) => (a, Err(err))
      case Ok(_) =>
        if !e.keyEnrolled || !e.seedEnrolled then (a, Err(Hsm))
        else
          var built := Restore(P, file, password, kdf, e.importAvailable, e.available, e.now, e.minted);
          Provisioned(P, a, built, config, e)
  }

  class App {
    const P: Prims
    const allowed: bool
    const store: Store
    var totpConfig: Config
    var verifier: TotpVerifier?
    var lockoutMem: LockoutState

    ghost predicate Valid()
      reads this, verifier
    {
      verifier != null ==> verifier.P == P
    }

    ghost function View(): AppData
      reads this, verifier, store
    {
      AppData(Seen(store.disk), lockoutMem, totpConfig,
              if verifier == null then None else Some(VerifierState(verifier.config, verifier.lastAcceptedStep)))
    }

    ghost function Frame(): set<object>
      reads this
    {
      {this, store} + if verifier == null then {} else {verifier}
    }

    constructor (P: Prims, allowed: bool, store: Store)
      ensures Valid() && this.P == P && this.allowed == allowed && this.store == store
      ensures View() == AppData(Seen(store.disk), Reset(), DefaultConfig(), None)
    {
      this.P, this.allowed, this.store := P, allowed, store;
      totpConfig, verifier, lockoutMem := DefaultConfig(), null, Reset();
    }

    method MergeLockout(disk: LockoutState) returns (merged: LockoutState)
      requires Valid()
      modifies this`lockoutMem
      ensures Valid() && merged == Merge(disk, old(lockoutMem)) && View() == old(View()).(mem := merged)
    {
      merged := LockoutState(Max(disk.counter, lockoutMem.counter), Max(disk.lastFailure, lockoutMem.lastFailure));
      lockoutMem := merged;
    }

    method VerifyTotp(seed: bytes, code: bytes, now: u64) returns (ok: bool)
      requires Valid()
      modifies this`verifier, verifier
      ensures Valid() && fresh(Frame() - old(Frame()))
      ensures (View(), ok) == AppModel.VerifyTotp(P, old(View()), seed, code, now)
    {
      hide VerifySpec;
      if verifier == null {
        verifier := new TotpVerifier(P, totpConfig);
      }
      var r := verifier.Verify(seed, code, now);
      return r.Ok?;
    }

    method SetTotpConfig(config: Config)
      requires Valid()
      modifies this
      ensures Valid() && fresh(Frame() - old(Frame())) && lockoutMem == old(lockoutMem)
      ensures View() == AppModel.SetTotpConfig(old(View()), config)
    {
      totpConfig, verifier := config, null;
    }

    /** Bumps the state, keeps the in-process copy in step, and writes it best-effort. */
    method RecordFailure(vault: V.Vault, state: LockoutState, q: Attempt)
      requires Valid()
      modifies this`lockoutMem, vault, store
      ensures Valid()
      ensures View() == AppModel.RecordFailure(old(View()), old(vault.View()), state, q)
    {
      hide VaultCodec.Serialize, AfterFailure;
      var next := AfterFailure(state, q.now);
      vault.SetRateLimit(next.counter, next.lastFailure);
      lockoutMem := next;
      var data := vault.ToBytes();
      var _ := store.AtomicWrite(data, q.faults);
    }

    method RecordSuccess(vault: V.Vault, q: Attempt)
      requires Valid()
      modifies this`lockoutMem, vault, store
      ensures Valid()
      ensures View() == AppModel.RecordSuccess(old(View()), old(vault.View()), q)
    {
      hide VaultCodec.Serialize;
      lockoutMem := Reset();
      if vault.rlCounter != 0 || vault.rlLastFailure != 0 {
        vault.SetRateLimit(0, 0);
        var data := vault.ToBytes();
        var _ := store.AtomicWrite(data, q.faults);
      }
    }

    method LoadFile() returns (r: Result<V.Vault, Error>)
      ensures match LoadVault(Seen(store.disk))
              case Ok(d) => r.Ok? && fresh(r.value) && r.value.View() == d && r.value.P == P
              case Err(e) => r == Err(e)
    {
      var b :- store.Read();
      r := V.Vault.FromBytes(P, b);
    }

    method AdmitVault() returns (r: Result<V.Vault, UnlockError>)
      ensures match Admit(allowed, View())
              case Ok(d) => r.Ok? && fresh(r.value) && r.value.View() == d && r.value.P == P
              case Err(e) => r == Err(e)
    {
      hide LoadVault;
      if !allowed { return Err(SoftwareHsmRefused); }
      var loaded := LoadFile();
      if loaded.Err? { return Err(MalformedVault(loaded.error)); }
      if !WithinLimits(loaded.value.kdfParams) { return Err(MalformedVault(Error.Kdf)); }
      return Ok(loaded.value);
    }

    /** Unwraps both slots; the first failure is routed. */
    static method UnwrapSlots(vault: V.Vault, q: Attempt) returns (r: Result<(bytes, bytes), UnlockError>)
      ensures r == UnwrapBoth(vault.View(), q)
    {
      var kHsm := q.key(vault.kHsmWrapBlob);
      if kHsm.Err? { return Err(MapHsmUnlock(kHsm.error)); }
      var seed := q.seed(vault.totpSeedWrapBlob);
      if seed.Err? { return Err(MapHsmUnlock(seed.error)); }
      return Ok((kHsm.value, seed.value));
    }

    method Unlock(q: Attempt) returns (r: Result<Session, UnlockError>)
      requires Valid()
      modifies Frame()
      ensures Valid() && fresh(Frame() - old(Frame()))
      ensures (View(), r) == UnlockSpec(P, allowed, old(View()), q)
    {
      hide Admit, UnwrapBoth, AppModel.VerifyTotp, Conclude, Judge, Remaining;
      var vault :- AdmitVault();
      var state := MergeLockout(LockoutState(vault.rlCounter, vault.rlLastFailure));

      if q.deviceLock.Some? {
        var advisory := Remaining(state, q.now);
        return Err(LockedOut(if q.deviceLock.value.Some? then q.deviceLock.value.value
                             else if advisory.Some? then advisory.value
                             else HSM_LOCKOUT_FALLBACK));
      }
      var advisory := Remaining(state, q.now);
      if advisory.Some? { return Err(LockedOut(advisory.value)); }

      var slots :- UnwrapSlots(vault, q);
      r := TryCredentials(vault, state, slots.0, slots.1, q);
    }

    /** The code first, then the key derivation and the probe, then the index. */
    method TryCredentials(vault: V.Vault, state: LockoutState, kHsm: bytes, seed: bytes, q: Attempt)
      returns (r: Result<Session, UnlockError>)
      requires Valid() && vault.P == P
      modifies Frame(), vault
      ensures Valid() && fresh(Frame() - old(Frame()))
      ensures var (b, codeOk) := AppModel.VerifyTotp(P, old(View()), seed, q.code, q.codeNow);
              var verdict := Judge(P, old(vault.View()), codeOk, kHsm, q);
              (View(), r) == Conclude(b, old(vault.View()), state, seed, verdict, q)
    {
      hide AppModel.VerifyTotp, AppModel.RecordFailure, AppModel.RecordSuccess, VerifyProbe, OpenIndex, DeriveMaster;
      var codeOk := VerifyTotp(seed, q.code, q.codeNow);
      if !codeOk {
        RecordFailure(vault, state, q);
        return Err(BadCredentials);
      }

      var derived := DeriveMaster(P, q.password, vault.salt, vault.kdfParams, kHsm, q.available);
      if derived.Err? { return Err(BadCredentials); }
      var kMaster := derived.value;

      var probe := vault.CheckProbe(kMaster);
      if probe.Err? {
        RecordFailure(vault, state, q);
        return Err(BadCredentials);
      }
      var index := vault.OpenTheIndex(kMaster);
      if index.Err? { return Err(MalformedVault(index.error)); }
      var rows := index.value.rows;
      RecordSuccess(vault, q);
      return Ok(Session(kMaster, seed, rows, Min(q.sessionNow + SESSION_SECS, U64_MAX)));
    }

    /** Writes a new vault, records the configuration and opens the session. */
    method Provision(vault: V.Vault, kMaster: Key, seed: Seed, config: Config,
                     e: Enrolment) returns (r: Result<Session, Error>)
      requires Valid() && vault.P == P
      modifies this, store
      ensures Valid() && fresh(Frame() - old(Frame())) && lockoutMem == old(lockoutMem)
      ensures (View(), r) == Provisioned(P, old(View()), Ok(Restored(old(vault.View()), kMaster, seed)), config, e)
    {
      hide OpenIndex, VaultCodec.Serialize;
      var data := vault.ToBytes();
      var _ :- store.AtomicWrite(data, e.faults);
      SetTotpConfig(config);
      var index :- vault.OpenTheIndex(kMaster);
      return Ok(Session(kMaster, seed, index.rows, Min(e.sessionNow + SESSION_SECS, U64_MAX)));
    }

    method CreateVault(password: Text, kdf: KdfParams, config: Config, e: Enrolment) returns (r: Result<Session, Error>)
      requires Valid()
      modifies this, store
      ensures Valid() && fresh(Frame() - old(Frame()))
      ensures (View(), r) == CreateVaultSpec(P, allowed, old(View()), password, kdf, config, e)
    {
      hide OpenIndex, VaultCodec.Serialize, Create, DeriveMaster;
      if !allowed { return Err(BackendRefused); }
      if !e.keyEnrolled || !e.seedEnrolled { return Err(Hsm); }
      var f := e.minted;
      var kMaster :- DeriveMaster(P, password, f.vaultSalt, kdf, f.kHsm, e.available);
      var vault :- V.Vault.Create(P, kdf, f.vaultSalt, f.kHsmBlob, f.seedBlob, Metadata(e.now, None), kMaster,
                                  f.probeNonce, f.indexNonce);
      r := Provision(vault, kMaster, e.seed, config, e);
    }

    /** The loop of `import_recovery`. */
    method AddImported(vault: V.Vault, kMaster: Key, es: seq<RecoveryEntry>, rng: Rng) returns (r: Result<(), Error>)
      requires vault.P == P
      modifies vault
      ensures match ImportEntries(P, old(vault.View()), kMaster, es, 0, rng)
              case Ok(d) => r.Ok? && vault.View() == d
              case Err(err) => r == Err(err)
    {
      hide AddOrUpdate, ImportEntryParts;
      for i := 0 to |es|
        invariant ImportEntries(P, old(vault.View()), kMaster, es, 0, rng)
                  == ImportEntries(P, vault.View(), kMaster, es, i, rng)
      {
        var parts :- ImportEntryParts(P, es[i]);
        var (row, record) := parts;
        var _ :- vault.AddOrUpdateEntry(kMaster, row.id, row.body, record, rng(i).0, rng(i).1);
      }
      return Ok(());
    }

    method ImportRecovery(file: bytes, password: Text, kdf: KdfParams, config: Config, e: Enrolment)
      returns (r: Result<Session, Error>)
      requires Valid()
      modifies this, store
      ensures Valid() && fresh(Frame() - old(Frame()))
      ensures (View(), r) == ImportSpec(P, allowed, old(View()), file, password, kdf, config, e)
    {
      hide OpenIndex, VaultCodec.Serialize, Create, DeriveMaster, ImportFile, ImportEntries;
      if !allowed { return Err(BackendRefused); }
      var payload :- Recovery.ImportWithinMemory(P, file, password, e.importAvailable);
      if !e.keyEnrolled || !e.seedEnrolled { return Err(Hsm); }
      var f := e.minted;
      var kMaster :- DeriveMaster(P, password, f.vaultSalt, kdf, f.kHsm, e.available);
      var vault :- V.Vault.Create(P, kdf, f.vaultSalt, f.kHsmBlob, f.seedBlob, Metadata(e.now, None), kMaster,
                                  f.probeNonce, f.indexNonce);
      var _ :- AddImported(vault, kMaster, payload.entries, f.rng);
      r := Provision(vault, kMaster, payload.totpSeed, config, e);
    }
  }
}
