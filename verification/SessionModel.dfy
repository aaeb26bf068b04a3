/**
 * The unlocked session as a value: every operation on the session and the vault file,
 * and what whole runs of them keep.
 */
module SessionModel {
  import opened Bytes
  import opened Errors
  import opened Types
  import opened Primitives
  import opened KeyedLists
  import opened Records
  import opened VaultModel
  import opened VaultCodec
  import opened Kdf
  import opened Storage
  import opened Rebuild
  import opened AppModel

  const POST_COPY_SECS: nat := 30

  datatype RevealField = Username | Password | Url | Notes

  /** An open session and the application it borrows. */
  datatype Live = Live(app: AppData, s: Session)

  datatype Reply =
    | Done
    | Revealed(record: EntryRecord)
    | Copied(text: Text)
    | ExportStale(stale: bool)
    | File(file: bytes)
    | Valid(ok: bool)

  /** Every operation carries the clock readings, random values and outside answers it meets. */
  datatype Op =
    | Add(now: u64, id: Id, body: RowBody, record: EntryRecord, entryNonce: Nonce, indexNonce: Nonce, faults: Faults)
    | Update(now: u64, id: Id, body: RowBody, record: EntryRecord, entryNonce: Nonce, indexNonce: Nonce, faults: Faults)
    | Remove(now: u64, id: Id, indexNonce: Nonce, faults: Faults)
    | Reveal(now: u64, id: Id)
    | Copy(now: u64, id: Id, field: RevealField, pasted: bool, after: u64)
    | Confirm(code: bytes, codeNow: u64)
    | ChangePassword(now: u64, old_: Text, new_: Text, kdf: KdfParams, key: Unwrap,
                     oldAvailable: Option<u64>, newAvailable: Option<u64>,
                     salt: Salt, changed: i64, probeNonce: Nonce, indexNonce: Nonce, rng: Rng, faults: Faults)
    | Export(now: u64, strong: bool, master: Text, code: bytes, codeNow: u64, preset: RecoveryPreset, key: Unwrap,
             seed: Unwrap, available: Option<u64>, exportAvailable: Option<u64>,
             exportSalt: Salt, exportNonce: Nonce, exported: i64, faults: Faults)

  function FieldOf(r: EntryRecord, f: RevealField): Text {
    match f
    case Username => r.username
    case Password => r.password
    case Url => r.url
    case Notes => r.notes
  }

  /** `persist_and_refresh`: write, then reopen the index from the vault just written. */
  ghost function Persist(P: Prims, x: Live, v: VaultData, faults: Faults): (Live, Result<Reply, Error>) {
    if !Succeeds(faults, Serialize(v)) then (x, Err(Io))
    else
      var y := x.(app := x.app.(file := Some(Serialize(v))));
      match OpenIndex(P, v, x.s.kMaster)
      case Err(e) => (y, Err(e))
      case Ok(rows) => (y.(s := x.s.(rows := rows)), Ok(Done))
  }

  ghost function Upsert(P: Prims, x: Live, op: Op): (Live, Result<Reply, Error>)
    requires op.Add? || op.Update?
  {
    match LoadVault(x.app.file)
    case Err(e) => (x, Err(e))
    case Ok(v) =>
      var (w, r) := AddOrUpdate(P, v, x.s.kMaster, op.id, op.body, op.record, op.entryNonce, op.indexNonce);
      if r.Err? then (x, Err(r.error)) else Persist(P, x, w, op.faults)
  }

  ghost function RemoveSpec(P: Prims, x: Live, op: Op): (Live, Result<Reply, Error>)
    requires op.Remove?
  {
    match LoadVault(x.app.file)
    case Err(e) => (x, Err(e))
    case Ok(v) =>
      var (w, r) := VaultModel.Remove(P, v, x.s.kMaster, op.id, op.indexNonce);
      if r.Err? then (x, Err(r.error)) else Persist(P, x, w, op.faults)
  }

  function ReadRecord(P: Prims, x: Live, id: Id): Result<EntryRecord, Error> {
    var v :- LoadVault(x.app.file);
    DecryptEntry(P, v, x.s.kMaster, id)
  }

  function CopySpec(P: Prims, x: Live, op: Op): (Live, Result<Reply, Error>)
    requires op.Copy?
  {
    match ReadRecord(P, x, op.id)
    case Err(e) => (x, Err(e))
    case Ok(record) =>
      if !op.pasted then (x, Err(Io))
      else
        (x.(s := x.s.(expiry := Min(x.s.expiry, Min(op.after + POST_COPY_SECS, U64_MAX)))),
         Ok(Copied(FieldOf(record, op.field))))
  }

  function UnwrapCore(answer: Result<bytes, HsmError>): Result<bytes, Error> {
    match answer
    case Err(_) => Err(Hsm)
    case Ok(b) => Ok(b)
  }

  /** The rebuilt vault and the new key, once the old password has verified. */
  ghost function Rekeyed(P: Prims, x: Live, v: VaultData, op: Op): Result<(VaultData, Key), Error>
    requires op.ChangePassword?
  {
    var kHsm :- UnwrapCore(op.key(v.kHsmBlob));
    var old_ :- DeriveMaster(P, op.old_, v.salt, v.kdf, kHsm, op.oldAvailable);
    var _ :- VerifyProbe(P, v, old_);
    var k :- DeriveMaster(P, op.new_, op.salt, op.kdf, kHsm, op.newAvailable);
    var w :- Reencrypt(P, v, x.s.kMaster, x.s.rows, op.salt, op.kdf, k,
                       op.changed, op.probeNonce, op.indexNonce, op.rng);
    Ok((w, k))
  }

  ghost function ChangeSpec(P: Prims, x: Live, op: Op): (Live, Result<Reply, Error>)
    requires op.ChangePassword?
  {
    match LoadVault(x.app.file)
    case Err(e) => (x, Err(e))
    case Ok(v) =>
      match Rekeyed(P, x, v, op)
      case Err(e) => (x, Err(e))
      case Ok((w, k)) =>
        var y := x.(s := x.s.(kMaster := k));
        var (z, r) := Persist(P, y, w, op.faults);
        if !Succeeds(op.faults, Serialize(w)) then (x, Err(Io))
        else (z, if r.Ok? then Ok(ExportStale(v.meta.lastExportAt.Some?)) else r)
  }

  /** What an export produces after fresh re-authentication with code `codeOk`. */
  function Exported(P: Prims, x: Live, v: VaultData, kHsm: bytes, seed: bytes, codeOk: bool, op: Op)
    : Result<bytes, Error>
    requires op.Export?
  {
    if !codeOk then Err(AeadAuth)
    else
      var k :- DeriveMaster(P, op.master, v.salt, v.kdf, kHsm, op.available);
      var _ :- VerifyProbe(P, v, k);
      if |seed| != 32 then Err(Hsm)
      else Backup(P, v, k, x.s.rows, seed, op.master, op.preset, op.exportAvailable, op.exportSalt, op.exportNonce)
  }

  function UnwrapCores(v: VaultData, key: Unwrap, seed: Unwrap): Result<(bytes, bytes), Error> {
    var kHsm :- UnwrapCore(key(v.kHsmBlob));
    var s :- UnwrapCore(seed(v.totpBlob));
    Ok((kHsm, s))
  }

  function ExportSpec(P: Prims, x: Live, op: Op): (Live, Result<Reply, Error>)
    requires op.Export?
  {
    match LoadVault(x.app.file)
    case Err(e) => (x, Err(e))
    case Ok(v) =>
      if !op.strong then (x, Err(WeakPasswordForExport))
      else
        match UnwrapCores(v, op.key, op.seed)
        case Err(e) => (x, Err(e))
        case Ok((kHsm, seed)) =>
          var (a, codeOk) := VerifyTotp(P, x.app, seed, op.code, op.codeNow);
          var y := x.(app := a);
          match Exported(P, x, v, kHsm, seed, codeOk, op)
          case Err(e) => (y, Err(e))
          case Ok(file) =>
            var w := v.(meta := v.meta.(lastExportAt := Some(op.exported)));
            if !Succeeds(op.faults, Serialize(w)) then (y, Err(Io))
            else (y.(app := a.(file := Some(Serialize(w)))), Ok(File(file)))
  }

  ghost function UpdateSpec(P: Prims, x: Live, op: Op): (Live, Result<Reply, Error>)
    requires op.Update?
  {
    if Find(x.s.rows, op.id).None? then (x, Err(EntryNotFound)) else Upsert(P, x, op)
  }

  function RevealSpec(P: Prims, x: Live, op: Op): (Live, Result<Reply, Error>)
    requires op.Reveal?
  {
    match ReadRecord(P, x, op.id)
    case Err(e) => (x, Err(e))
    case Ok(record) => (x, Ok(Revealed(record)))
  }

  function ConfirmSpec(P: Prims, x: Live, op: Op): (Live, Result<Reply, Error>)
    requires op.Confirm?
  {
    var (a, ok) := VerifyTotp(P, x.app, x.s.seed, op.code, op.codeNow);
    (x.(app := a), Ok(Valid(ok)))
  }

  /** The operation itself, the expiry check having passed. */
  ghost function Perform(P: Prims, x: Live, op: Op): (Live, Result<Reply, Error>) {
    if op.Add? then Upsert(P, x, op)
    else if op.Update? then UpdateSpec(P, x, op)
    else if op.Remove? then RemoveSpec(P, x, op)
    else if op.Reveal? then RevealSpec(P, x, op)
    else if op.Copy? then CopySpec(P, x, op)
    else if op.Confirm? then ConfirmSpec(P, x, op)
    else if op.ChangePassword? then ChangeSpec(P, x, op)
    else ExportSpec(P, x, op)
  }

  /** `ensure_unlocked` guards everything but the code confirmation. */
  predicate Expired(x: Live, op: Op) { !op.Confirm? && op.now >= x.s.expiry }

  ghost function Apply(P: Prims, x: Live, op: Op): (Live, Result<Reply, Error>) {
    if Expired(x, op) then (x, Err(SessionLocked)) else Perform(P, x, op)
  }
}
