/**
 * Whole lives of a vault: through failed and granted unlocks, restarts, sessions, password
 * changes and new vaults, the file holds exactly the edits that were reported as done, and
 * the password in force still derives the key it is sealed under.
 */
module Lives {
  import opened Bytes
  import opened Types
  import opened Primitives
  import opened VaultModel
  import opened VaultCodec
  import opened Kdf
  import opened Lockout
  import opened Totp
  import opened Storage
  import opened RecoveryModel
  import opened Rebuild
  import opened App
  import opened AppModel
  import opened AppRuns
  import opened SessionModel
  import opened SessionRuns
  import opened SessionEvents
  import opened Transfer
  import R = VaultRuns

  // ----- The password in force ----------------------------------------------------------

  /** The password in force, and what the hardware keeps behind the file's blob. */
  datatype Secret = Secret(password: Text, kHsm: bytes)

  /** The secret derives, from the file's salt and parameters, the key of the session. */
  ghost predicate Derives(P: Prims, x: Live, k: Secret) {
    && x.app.file.Some? && Parse(x.app.file.value).Ok?
    && var v := Parse(x.app.file.value).value;
    DeriveMaster(P, k.password, v.salt, v.kdf, k.kHsm, None) == Ok(x.s.kMaster)
  }

  /** The hardware, if it answers, still answers the same. */
  predicate Answers(key: Unwrap, file: Option<bytes>, k: Secret) {
    LoadVault(file).Ok? && key(LoadVault(file).value.kHsmBlob).Ok? ==>
      key(LoadVault(file).value.kHsmBlob).value == k.kHsm
  }

  predicate OpAnswers(x: Live, op: Op, k: Secret) {
    (op.ChangePassword? || op.Export?) ==> Answers(op.key, x.app.file, k)
  }

  ghost function SecretAfter(P: Prims, x: Live, op: Op, k: Secret): Secret {
    if op.ChangePassword? && Apply(P, x, op).1.Ok? then k.(password := op.new_) else k
  }

  /** How much memory is free decides whether a key is derived, not which. */
  lemma DerivesTheSame(P: Prims, password: Text, salt: Salt, kdf: KdfParams, kHsm: bytes, available: Option<u64>)
    requires DeriveMaster(P, password, salt, kdf, kHsm, available).Ok?
    ensures DeriveMaster(P, password, salt, kdf, kHsm, None) == DeriveMaster(P, password, salt, kdf, kHsm, available)
  {
  }

  lemma LoadedParses(file: Option<bytes>)
    requires LoadVault(file).Ok?
    ensures file.Some? && Parse(file.value) == LoadVault(file)
  {
    hide Parse;
  }

  lemma ChangeReads(P: Prims, x: Live, op: Op)
    requires op.ChangePassword? && Apply(P, x, op).1.Ok?
    ensures LoadVault(x.app.file).Ok?
  {
    hide LoadVault, Rekeyed, Persist, Serialize, Succeeds, Upsert, UpdateSpec, RemoveSpec, RevealSpec, CopySpec,
         ConfirmSpec, ExportSpec;
  }

  /** Every operation keeps the secret deriving the session's key, a password change with the new password. */
  lemma OpKeepsSecret(P: Prims, x: Live, op: Op, k: Secret)
    requires InSync(P, x) && Fits(P, x) && Fits(P, Apply(P, x, op).0)
    requires Derives(P, x, k) && OpAnswers(x, op, k)
    ensures Derives(P, Apply(P, x, op).0, SecretAfter(P, x, op, k))
  {
    hide InSync, Fits, Apply, Parse, LoadVault, DeriveMaster, Stored, Edited, Reopens;
    OpKeepsSync(P, x, op);
    if op.ChangePassword? && Apply(P, x, op).1.Ok? {
      ChangeReads(P, x, op);
      LoadedParses(x.app.file);
      DerivesTheSame(P, op.new_, op.salt, op.kdf, k.kHsm, op.newAvailable);
    }
  }

  ghost predicate RunAnswers(P: Prims, x: Live, ops: seq<Op>, k: Secret)
    decreases |ops|
  {
    ops == [] ||
    (OpAnswers(x, ops[0], k) && RunAnswers(P, Apply(P, x, ops[0]).0, ops[1..], SecretAfter(P, x, ops[0], k)))
  }

  ghost function RunSecret(P: Prims, x: Live, ops: seq<Op>, k: Secret): Secret
    decreases |ops|
  {
    if ops == [] then k else RunSecret(P, Apply(P, x, ops[0]).0, ops[1..], SecretAfter(P, x, ops[0], k))
  }

  lemma {:induction false} RunKeepsSecret(P: Prims, x: Live, ops: seq<Op>, k: Secret)
    requires InSync(P, x) && StaysFit(P, x, ops) && Derives(P, x, k) && RunAnswers(P, x, ops, k)
    ensures Derives(P, Run(P, x, ops), RunSecret(P, x, ops, k))
    decreases |ops|
  {
    hide InSync, Fits, Apply, Derives, OpAnswers, SecretAfter, Stored, Edited, KeyKept, Reopens;
    if ops != [] {
      var y := Apply(P, x, ops[0]).0;
      assert StaysFit(P, y, ops[1..]);
      OpKeepsSync(P, x, ops[0]);
      OpKeepsSecret(P, x, ops[0], k);
      RunKeepsSecret(P, y, ops[1..], SecretAfter(P, x, ops[0], k));
    }
  }

  // ----- Unlocking ------------------------------------------------------------------------

  /** The secret an attempt uses: what was typed, and what the hardware answers for the file. */
  function Typed(q: Attempt, v: VaultData): Secret
    requires q.key(v.kHsmBlob).Ok?
  {
    Secret(q.password, q.key(v.kHsmBlob).value)
  }

  /** A granted session's key is the one its own password derives. */
  lemma GrantedKey(P: Prims, allowed: bool, a: AppData, q: Attempt)
    requires UnlockSpec(P, allowed, a, q).1.Ok?
    ensures LoadVault(a.file).Ok?
    ensures var v := LoadVault(a.file).value;
            && q.key(v.kHsmBlob).Ok?
            && DeriveMaster(P, q.password, v.salt, v.kdf, Typed(q, v).kHsm, None)
               == Ok(UnlockSpec(P, allowed, a, q).1.value.kMaster)
  {
    hide LoadVault, Refusal, VerifyTotp, VerifyProbe, OpenIndex, DeriveMaster, RecordFailure, RecordSuccess;
    var v := LoadVault(a.file).value;
    DerivesTheSame(P, q.password, v.salt, v.kdf, Typed(q, v).kHsm, q.available);
  }

  /** An attempt writes nothing but the throttle fields of the header. */
  lemma AttemptWrites(P: Prims, allowed: bool, a: AppData, q: Attempt) returns (s: LockoutState)
    ensures var b := UnlockSpec(P, allowed, a, q).0;
            || b.file == a.file
            || (LoadVault(a.file).Ok? && b.file == Some(Serialize(WithRateLimit(LoadVault(a.file).value, s))))
  {
    hide LoadVault, Refusal, VerifyTotp, Judge, Serialize, Succeeds, UnwrapBoth;
    var b := UnlockSpec(P, allowed, a, q).0;
    s := b.mem;
  }

  /** Writing the throttle fields leaves everything else in the file as it was. */
  lemma ThrottleKeeps(P: Prims, x: Live, y: Live, k: Secret, s: LockoutState)
    requires InSync(P, x) && Derives(P, x, k) && y.s == x.s
    requires y.app.file == x.app.file
             || (LoadVault(x.app.file).Ok?
                 && y.app.file == Some(Serialize(WithRateLimit(LoadVault(x.app.file).value, s))))
    ensures InSync(P, y) && Stored(P, y) == Stored(P, x) && Derives(P, y, k)
  {
    hide Parse, OpenIndex, Serialize, LoadVault, WellFormed, DeriveMaster, Holds;
    if y.app.file != x.app.file {
      LoadedParses(x.app.file);
      var v := LoadVault(x.app.file).value;
      SerializeOfParse(x.app.file.value);
      RateLimitWellFormed(v, s);
      CodecRoundTrip(WithRateLimit(v, s));
      R.SameSealedHoldsSame(P, x.s.kMaster, v, WithRateLimit(v, s));
    }
  }

  /** What holds of the file, the session last granted, the edits reported and the secret in force. */
  ghost predicate Kept(P: Prims, x: Live, c: Contents, k: Secret) {
    InSync(P, x) && Stored(P, x) == c && Derives(P, x, k)
  }

  /** A granted unlock used the password in force, and the hardware answered as before. */
  ghost predicate OwnGrant(P: Prims, allowed: bool, a: AppData, q: Attempt, k: Secret) {
    UnlockSpec(P, allowed, a, q).1.Ok? ==> q.password == k.password && Answers(q.key, a.file, k)
  }

  /** An attempt, granted or not, keeps all of it. */
  lemma AttemptKeepsAll(P: Prims, allowed: bool, x: Live, c: Contents, k: Secret, q: Attempt)
    requires Kept(P, x, c, k) && OwnGrant(P, allowed, x.app, q, k)
    ensures Kept(P, Moved(P, allowed, x, Outside(TryUnlock(q))), c, k)
  {
    hide UnlockSpec, InSync, Stored, Derives;
    var b := UnlockSpec(P, allowed, x.app, q).0;
    var s := AttemptWrites(P, allowed, x.app, q);
    var y := Live(b, x.s);
    ThrottleKeeps(P, x, y, k, s);
    if UnlockSpec(P, allowed, x.app, q).1.Ok? {
      UnlockedInSync(P, allowed, x.app, q);
      SameKeySameSession(P, allowed, x, y, k, q);
    }
  }

  /** The key granted to the password in force is the one in force. */
  lemma SameKeySameSession(P: Prims, allowed: bool, x: Live, y: Live, k: Secret, q: Attempt)
    requires UnlockSpec(P, allowed, x.app, q).1.Ok? && OwnGrant(P, allowed, x.app, q, k)
    requires Derives(P, x, k) && InSync(P, y) && Derives(P, y, k) && y.s == x.s
    requires y.app == UnlockSpec(P, allowed, x.app, q).0
    requires InSync(P, Live(y.app, UnlockSpec(P, allowed, x.app, q).1.value))
    ensures var z := Live(y.app, UnlockSpec(P, allowed, x.app, q).1.value);
            Stored(P, z) == Stored(P, y) && Derives(P, z, k)
  {
    hide UnlockSpec, Parse, OpenIndex, LoadVault, DeriveMaster, Holds;
    GrantedKey(P, allowed, x.app, q);
    LoadedParses(x.app.file);
  }

  // ----- New vaults -------------------------------------------------------------------------

  /** What a new vault was built with derives its key. */
  lemma BuiltDerives(P: Prims, allowed: bool, m: Move)
    requires IsNew(m) && Built(P, allowed, m).Ok?
    ensures var r, f := Built(P, allowed, m).value, m.enrolment.minted;
            && r.vault.salt == f.vaultSalt && r.vault.kdf == m.kdf
            && DeriveMaster(P, m.password, f.vaultSalt, m.kdf, f.kHsm, None) == Ok(r.kMaster)
  {
    hide DeriveMaster, ImportFile, ImportEntries, SealProbe, SealIndex;
    var r, f, e := Built(P, allowed, m).value, m.enrolment.minted, m.enrolment;
    DerivesTheSame(P, m.password, f.vaultSalt, m.kdf, f.kHsm, e.available);
    if m.ImportBackup? {
      var payload := ImportFile(P, m.backup, m.password, e.importAvailable).value;
      var dst := Create(P, m.kdf, f.vaultSalt, f.kHsmBlob, f.seedBlob, Metadata(e.now, None), r.kMaster,
                        f.probeNonce, f.indexNonce).value;
      ImportHeader(P, dst, r.kMaster, payload.entries, 0, f.rng);
    }
  }

  /** What a new vault holds. */
  ghost function NewContents(P: Prims, allowed: bool, m: Move): Contents
    requires IsNew(m)
  {
    var r := Built(P, allowed, m);
    if m.ImportBackup? && r.Ok? && OpenIndex(P, r.value.vault, r.value.kMaster).Ok? then
      Holds(P, r.value.vault, r.value.kMaster)
    else Contents([], map[])
  }

  lemma BuiltWellFormed(P: Prims, allowed: bool, m: Move)
    requires IsNew(m) && Built(P, allowed, m).Ok? && R.Small(Built(P, allowed, m).value.vault)
    ensures WellFormed(Built(P, allowed, m).value.vault)
    ensures var r := Built(P, allowed, m).value;
            m.CreateNew? ==>
              OpenIndex(P, r.vault, r.kMaster).Ok? && Holds(P, r.vault, r.kMaster) == Contents([], map[])
  {
    hide R.Small, WellFormed, DeriveMaster, Restore, ImportFile, Create, OpenIndex, Holds;
    var r, f, e := Built(P, allowed, m).value, m.enrolment.minted, m.enrolment;
    if m.CreateNew? {
      R.CreatedIsSound(P, m.kdf, f.vaultSalt, f.kHsmBlob, f.seedBlob, Metadata(e.now, None), r.kMaster,
                       f.probeNonce, f.indexNonce);
    } else {
      RestoredWellFormed(P, m.backup, m.password, m.kdf, e.importAvailable, e.available, e.now, f);
    }
  }

  /** A new vault that was written and opened holds what it was built to hold, under its own secret. */
  lemma ProvisionedKeeps(P: Prims, a: AppData, r: Restored, config: Config, e: Enrolment)
    requires Provisioned(P, a, Result.Ok(r), config, e).1.Ok? && WellFormed(r.vault)
    ensures var (b, s) := Provisioned(P, a, Result.Ok(r), config, e);
            && b.file == Some(Serialize(r.vault)) && Parse(Serialize(r.vault)) == Ok(r.vault)
            && s.value.kMaster == r.kMaster && OpenIndex(P, r.vault, r.kMaster).Ok?
  {
    hide Parse, OpenIndex, Serialize, WellFormed, Succeeds;
    CodecRoundTrip(r.vault);
  }

  lemma NewKeepsAll(P: Prims, allowed: bool, x: Live, m: Move)
    requires IsNew(m) && Made(P, allowed, x.app, m).1.Ok? && FileLen(Made(P, allowed, x.app, m).0) <= U32_MAX
    ensures Kept(P, Moved(P, allowed, x, m), NewContents(P, allowed, m),
                 Secret(m.password, m.enrolment.minted.kHsm))
  {
    hide Made, Built, Provisioned, WellFormed, Parse, OpenIndex, Serialize, DeriveMaster, Holds, InSync, Stored,
         R.Small;
    NewIsProvisioned(P, allowed, x.app, m);
    if Built(P, allowed, m).Err? {
      FailedProvision(P, x.app, Built(P, allowed, m).error, m.config, m.enrolment);
    } else {
      var r := Built(P, allowed, m).value;
      ProvisionedIsSmall(P, x.app, r, m.config, m.enrolment);
      BuiltWellFormed(P, allowed, m);
      BuiltDerives(P, allowed, m);
      ProvisionedInSync(P, x.app, r, m.config, m.enrolment);
      ProvisionedKeeps(P, x.app, r, m.config, m.enrolment);
    }
  }

  lemma ProvisionedIsSmall(P: Prims, a: AppData, r: Restored, config: Config, e: Enrolment)
    requires Provisioned(P, a, Result.Ok(r), config, e).1.Ok?
    requires FileLen(Provisioned(P, a, Result.Ok(r), config, e).0) <= U32_MAX
    ensures R.Small(r.vault)
  {
    hide OpenIndex, Serialize, Succeeds;
  }

  /** A created vault that is written opens. */
  lemma CreatedOpens(P: Prims, allowed: bool, a: AppData, m: Move)
    requires m.CreateNew? && Writes(P, allowed, m) && R.Small(Built(P, allowed, m).value.vault)
    ensures Made(P, allowed, a, m).1.Ok?
  {
    hide Made, Built, OpenIndex, Serialize, Succeeds, R.Small, WellFormed, Holds;
    NewIsProvisioned(P, allowed, a, m);
    BuiltWellFormed(P, allowed, m);
  }

  // ----- Whole lives ------------------------------------------------------------------------

  /** The edits reported as done: those of the session, starting afresh with each new vault. */
  ghost function Ledger(P: Prims, allowed: bool, x: Live, c: Contents, m: Move): Contents {
    match m
    case Outside(_) => c
    case Within(op) => Edited(c, op, Apply(P, x, op).1.Ok?)
    case _ => if Writes(P, allowed, m) then NewContents(P, allowed, m) else c
  }

  ghost function SecretMoved(P: Prims, allowed: bool, x: Live, m: Move, k: Secret): Secret {
    match m
    case Outside(_) => k
    case Within(op) => SecretAfter(P, x, op, k)
    case _ => if Writes(P, allowed, m) then Secret(m.password, m.enrolment.minted.kHsm) else k
  }

  /** No outside write, unlocks granted to the owner only, and an imported vault that is written opens. */
  ghost predicate StepProper(P: Prims, allowed: bool, x: Live, m: Move, k: Secret) {
    match m
    case Outside(e) => !e.Replace? && (e.TryUnlock? ==> OwnGrant(P, allowed, x.app, e.q, k))
    case Within(op) => OpAnswers(x, op, k)
    case _ => m.ImportBackup? && Writes(P, allowed, m) ==> Made(P, allowed, x.app, m).1.Ok?
  }

  ghost predicate Proper(P: Prims, allowed: bool, x: Live, ms: seq<Move>, k: Secret)
    decreases |ms|
  {
    && Fits(P, x)
    && (ms == []
        || (StepProper(P, allowed, x, ms[0], k)
            && Proper(P, allowed, Moved(P, allowed, x, ms[0]), ms[1..], SecretMoved(P, allowed, x, ms[0], k))))
  }

  ghost function LifeLedger(P: Prims, allowed: bool, x: Live, c: Contents, ms: seq<Move>): Contents
    decreases |ms|
  {
    if ms == [] then c
    else LifeLedger(P, allowed, Moved(P, allowed, x, ms[0]), Ledger(P, allowed, x, c, ms[0]), ms[1..])
  }

  ghost function LifeSecret(P: Prims, allowed: bool, x: Live, ms: seq<Move>, k: Secret): Secret
    decreases |ms|
  {
    if ms == [] then k
    else LifeSecret(P, allowed, Moved(P, allowed, x, ms[0]), ms[1..], SecretMoved(P, allowed, x, ms[0], k))
  }

  lemma SameFileKeeps(P: Prims, x: Live, y: Live, c: Contents, k: Secret)
    requires Kept(P, x, c, k) && y.app.file == x.app.file && y.s == x.s
    ensures Kept(P, y, c, k)
  {
    hide Parse, OpenIndex, Holds, DeriveMaster;
  }

  lemma EventKeepsAll(P: Prims, allowed: bool, x: Live, c: Contents, k: Secret, e: Event)
    requires Kept(P, x, c, k) && StepProper(P, allowed, x, Outside(e), k)
    ensures Kept(P, Moved(P, allowed, x, Outside(e)), c, k)
  {
    hide Kept, UnlockSpec, VerifyTotp, OwnGrant;
    if e.TryUnlock? {
      AttemptKeepsAll(P, allowed, x, c, k, e.q);
    } else {
      SameFileKeeps(P, x, Moved(P, allowed, x, Outside(e)), c, k);
    }
  }

  lemma OpKeepsAll(P: Prims, x: Live, c: Contents, k: Secret, op: Op)
    requires Kept(P, x, c, k) && OpAnswers(x, op, k) && Fits(P, x) && Fits(P, Apply(P, x, op).0)
    ensures Kept(P, Apply(P, x, op).0, Edited(c, op, Apply(P, x, op).1.Ok?), SecretAfter(P, x, op, k))
  {
    hide InSync, Stored, Derives, Fits, Apply, Edited, OpAnswers, KeyKept, Reopens, SecretAfter;
    OpKeepsSync(P, x, op);
    OpKeepsSecret(P, x, op, k);
  }

  lemma MoveKeepsAll(P: Prims, allowed: bool, x: Live, c: Contents, k: Secret, m: Move)
    requires Kept(P, x, c, k) && StepProper(P, allowed, x, m, k) && Fits(P, x) && Fits(P, Moved(P, allowed, x, m))
    ensures Kept(P, Moved(P, allowed, x, m), Ledger(P, allowed, x, c, m), SecretMoved(P, allowed, x, m, k))
  {
    hide Kept, Apply, Made, Writes, Next, Edited, NewContents, SecretAfter, OpAnswers, OwnGrant, SessionAfter;
    match m
    case Outside(e) => EventKeepsAll(P, allowed, x, c, k, e);
    case Within(op) => OpKeepsAll(P, x, c, k, op);
    case _ =>
      NewWrites(P, allowed, x.app, m);
      if Writes(P, allowed, m) {
        if m.CreateNew? { WrittenCreateOpens(P, allowed, x, m); }
        NewKeepsAll(P, allowed, x, m);
      } else {
        SameFileKeeps(P, x, Moved(P, allowed, x, m), c, k);
      }
  }

  lemma WrittenCreateOpens(P: Prims, allowed: bool, x: Live, m: Move)
    requires m.CreateNew? && Writes(P, allowed, m) && Fits(P, Moved(P, allowed, x, m))
    ensures Made(P, allowed, x.app, m).1.Ok?
  {
    hide Made, Built, Serialize, Succeeds, IndexFits, SetTotpConfig, Provisioned;
    NewIsProvisioned(P, allowed, x.app, m);
    ProvisionedLeaves(P, x.app, Built(P, allowed, m).value, m.config, m.enrolment);
    ConfigKeepsFile(x.app.(file := Some(Serialize(Built(P, allowed, m).value.vault))), m.config);
    CreatedOpens(P, allowed, x.app, m);
  }

  lemma ConfigKeepsFile(a: AppData, config: Config)
    ensures SetTotpConfig(a, config).file == a.file
  {
  }

  /**
   * Over any life without outside writes, whichever attempts fail, writes are lost or sessions
   * expire, the file holds exactly the edits reported as done since the vault in place was
   * made, and the password in force derives the key it is sealed under.
   */
  lemma {:induction false} LifeKeeps(P: Prims, allowed: bool, x: Live, c: Contents, k: Secret, ms: seq<Move>)
    requires Kept(P, x, c, k) && Proper(P, allowed, x, ms, k)
    ensures var y := MovedAll(P, allowed, x, ms);
            && Kept(P, y, LifeLedger(P, allowed, x, c, ms), LifeSecret(P, allowed, x, ms, k))
            && (Reopens(P, y.app.file, y.s.kMaster, y.s.rows) <==> FileLen(y.app) <= MAX_VAULT_BYTES)
    decreases |ms|
  {
    hide InSync, Stored, Derives, Fits, Moved, StepProper, Ledger, SecretMoved, Reopens;
    ReopensIff(P, x);
    if ms != [] {
      var y := Moved(P, allowed, x, ms[0]);
      assert Fits(P, y);
      MoveKeepsAll(P, allowed, x, c, k, ms[0]);
      LifeKeeps(P, allowed, y, Ledger(P, allowed, x, c, ms[0]), SecretMoved(P, allowed, x, ms[0], k), ms[1..]);
    }
  }

  lemma CreateKeepsAll(P: Prims, allowed: bool, x: Live, m: Move)
    requires m.CreateNew? && Made(P, allowed, x.app, m).1.Ok? && Fits(P, Moved(P, allowed, x, m))
    ensures Kept(P, Moved(P, allowed, x, m), Contents([], map[]), Secret(m.password, m.enrolment.minted.kHsm))
  {
    hide Kept, Made, Fits, NewContents, Apply, Next, SessionAfter;
    FitsLength(P, Moved(P, allowed, x, m));
    NewKeepsAll(P, allowed, x, m);
    CreatedHoldsNothing(P, allowed, m);
  }

  lemma FitsLength(P: Prims, x: Live)
    requires Fits(P, x)
    ensures FileLen(x.app) <= U32_MAX
  {
    hide IndexFits;
  }

  lemma CreatedHoldsNothing(P: Prims, allowed: bool, m: Move)
    requires m.CreateNew?
    ensures NewContents(P, allowed, m) == Contents([], map[])
  {
    hide Built, OpenIndex;
  }

  /** In particular from the creation of the vault on. */
  lemma LifeFromCreate(P: Prims, allowed: bool, x: Live, m: Move, ms: seq<Move>)
    requires m.CreateNew? && Made(P, allowed, x.app, m).1.Ok?
    requires Proper(P, allowed, Moved(P, allowed, x, m), ms, Secret(m.password, m.enrolment.minted.kHsm))
    ensures var x0, k := Moved(P, allowed, x, m), Secret(m.password, m.enrolment.minted.kHsm);
            Kept(P, MovedAll(P, allowed, x0, ms), LifeLedger(P, allowed, x0, Contents([], map[]), ms),
                 LifeSecret(P, allowed, x0, ms, k))
  {
    hide Kept, Made, Moved, MovedAll, LifeLedger, LifeSecret, StepProper, SecretMoved, Fits, Reopens;
    var k := Secret(m.password, m.enrolment.minted.kHsm);
    CreateKeepsAll(P, allowed, x, m);
    LifeKeeps(P, allowed, Moved(P, allowed, x, m), Contents([], map[]), k, ms);
  }

  // ----- Backups by the owner -----------------------------------------------------------------

  /**
   * A backup exported with the password in force, and imported elsewhere under that password,
   * restores exactly the edits reported as done since the session was granted.
   */
  lemma OwnBackupRestores(P: Prims, x: Live, c: Contents, k: Secret, ops: seq<Op>, op: Op, file: bytes, a: AppData,
                          kdf: KdfParams, config: Config, e: Enrolment)
    requires Kept(P, x, c, k) && StaysFit(P, x, ops) && RunAnswers(P, x, ops, k)
    requires var y := Run(P, x, ops);
             && op.Export? && Apply(P, y, op).1 == Ok(File(file)) && |file| <= U32_MAX
             && op.master == RunSecret(P, x, ops, k).password && OpAnswers(y, op, RunSecret(P, x, ops, k))
    requires Fits(P, Run(P, x, ops)) && ImportGoesThrough(op, kdf, e)
    requires var built := ImportBuilds(P, file, op.master, kdf, e);
             built.Ok? ==> Succeeds(e.faults, Serialize(built.value.vault)) && R.Small(built.value.vault)
    ensures var (b, r) := ImportSpec(P, true, a, file, op.master, kdf, config, e);
            && r.Ok? && r.value.rows == Run(P, x, ops).s.rows
            && InSync(P, Live(b, r.value))
            && Stored(P, Live(b, r.value)) == RunEdited(P, x, c, ops)
  {
    hide InSync, Stored, Fits, Apply, Derives, Edited, Reopens, ImportSpec, ImportBuilds, Succeeds, Serialize, R.Small,
         ImportGoesThrough, ExportedUnder, ContentsOf, ReadAlike, OpAnswers, SecretAfter, DeriveMaster;
    RunKeepsSync(P, x, ops);
    RunKeepsSecret(P, x, ops, k);
    var y := Run(P, x, ops);
    var v, seed, key := ExportThenImport(P, y, op, file, a, kdf, config, e);
    OwnKey(P, y, op, v, seed, key, file, RunSecret(P, x, ops, k));
  }

  /** The owner's password re-derives the session's key. */
  lemma OwnKey(P: Prims, y: Live, op: Op, v: VaultData, seed: Seed, key: Key, file: bytes, k: Secret)
    requires op.Export? && ExportedUnder(P, y, op, v, seed, key, file)
    requires Derives(P, y, k) && op.master == k.password && OpAnswers(y, op, k)
    ensures key == y.s.kMaster
  {
    hide LoadVault, Parse, DeriveMaster, VerifyProbe, BackupOf;
    LoadedParses(y.app.file);
    DerivesTheSame(P, op.master, v.salt, v.kdf, k.kHsm, op.available);
  }

  /** Every granted session starts out that way, with what its file holds and what was typed. */
  lemma GrantedKept(P: Prims, allowed: bool, a: AppData, q: Attempt)
    requires UnlockSpec(P, allowed, a, q).1.Ok?
    ensures LoadVault(a.file).Ok? && q.key(LoadVault(a.file).value.kHsmBlob).Ok?
    ensures var (b, r) := UnlockSpec(P, allowed, a, q);
            var x := Live(b, r.value);
            InSync(P, x) && Kept(P, x, Stored(P, x), Typed(q, LoadVault(a.file).value))
  {
    hide UnlockSpec, InSync, Stored, Parse, LoadVault, DeriveMaster, Serialize, WellFormed;
    GrantedKey(P, allowed, a, q);
    UnlockedInSync(P, allowed, a, q);
    LoadedParses(a.file);
    var s := AttemptWrites(P, allowed, a, q);
    var v := LoadVault(a.file).value;
    SerializeOfParse(a.file.value);
    RateLimitWellFormed(v, s);
    CodecRoundTrip(WithRateLimit(v, s));
  }
}
