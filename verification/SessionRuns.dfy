/**
 * What every run of session operations keeps: the index in memory is the one the file
 * opens to, the file holds exactly the successful edits, and the session only gets shorter.
 */
module SessionRuns {
  import opened Bytes
  import opened Errors
  import opened Types
  import opened Primitives
  import opened KeyedLists
  import opened Records
  import opened VaultModel
  import opened VaultCodec
  import opened Kdf
  import opened Storage
  import opened Lockout
  import opened Rebuild
  import opened AppModel
  import AppRuns
  import opened SessionModel
  import R = VaultRuns

  // ----- The cached index ------------------------------------------------------------

  /** The vault file parses and opens, under the session's key, to the session's index. */
  ghost predicate InSync(P: Prims, x: Live) {
    x.app.file.Some? && Parse(x.app.file.value).Ok?
    && OpenIndex(P, Parse(x.app.file.value).value, x.s.kMaster) == Ok(x.s.rows)
  }

  /** The file as the code reads it, size limit included, opens under `k` to `rows`. */
  ghost predicate Reopens(P: Prims, file: Option<bytes>, k: Key, rows: seq<Row>) {
    LoadVault(file).Ok? && OpenIndex(P, LoadVault(file).value, k) == Ok(rows)
  }

  /** A file in step with its session is read back by the code exactly when it is at most 64 MiB. */
  lemma ReopensIff(P: Prims, x: Live)
    requires InSync(P, x)
    ensures Reopens(P, x.app.file, x.s.kMaster, x.s.rows) <==> FileLen(x.app) <= MAX_VAULT_BYTES
    ensures LoadVault(x.app.file).Ok? <==> FileLen(x.app) <= MAX_VAULT_BYTES
  {
    hide Parse, OpenIndex;
  }

  /** What the vault file holds. */
  ghost function Stored(P: Prims, x: Live): Contents
    requires InSync(P, x)
  {
    Holds(P, Parse(x.app.file.value).value, x.s.kMaster)
  }

  /** The file and the index plaintext fit the format's 32-bit lengths. */
  predicate Fits(P: Prims, x: Live) {
    x.app.file.Some? && |x.app.file.value| <= U32_MAX && IndexFits(P, FORMAT_VERSION, x.s.rows)
  }

  /** The key and what it is derived from stay, but for a successful password change, which replaces them. */
  ghost predicate KeyKept(P: Prims, x: Live, op: Op, y: Live, ok: bool) {
    && x.app.file.Some? && Parse(x.app.file.value).Ok? && y.app.file.Some? && Parse(y.app.file.value).Ok?
    && var v, w := Parse(x.app.file.value).value, Parse(y.app.file.value).value;
    && w.kHsmBlob == v.kHsmBlob
    && if op.ChangePassword? && ok then KeyRenewed(P, v, w, op, y.s.kMaster)
       else w.salt == v.salt && w.kdf == v.kdf && y.s.kMaster == x.s.kMaster
  }

  predicate KeyRenewed(P: Prims, v: VaultData, w: VaultData, op: Op, k: Key)
    requires op.ChangePassword?
  {
    && w.salt == op.salt && w.kdf == op.kdf && op.key(v.kHsmBlob).Ok?
    && DeriveMaster(P, op.new_, op.salt, op.kdf, op.key(v.kHsmBlob).value, op.newAvailable) == Ok(k)
  }

  lemma LoadedIsSound(P: Prims, x: Live)
    requires InSync(P, x) && LoadVault(x.app.file).Ok?
    ensures var v := LoadVault(x.app.file).value;
            && Parse(x.app.file.value) == Ok(v) && R.Sound(P, x.s.kMaster, v) && R.Small(v)
            && OpenIndex(P, v, x.s.kMaster) == Ok(x.s.rows)
  {
    hide Parse, OpenIndex, SerializeWith, WellFormed;
    var b := x.app.file.value;
    var v := LoadVault(x.app.file).value;
    SerializeOfParse(b);
    SerializeLen(v, RawExport(StateCursor(b)));
  }

  /** Writing a sound vault small enough to parse keeps file, key and index in step. */
  lemma PersistSound(P: Prims, x: Live, w: VaultData, faults: Faults)
    requires R.Sound(P, x.s.kMaster, w) && Succeeds(faults, Serialize(w))
    ensures var (y, r) := Persist(P, x, w, faults);
            && r == Ok(Done) && InSync(P, y) && Stored(P, y) == Holds(P, w, x.s.kMaster)
            && y.s.kMaster == x.s.kMaster && y.app.file == Some(Serialize(w)) && Parse(Serialize(w)) == Ok(w)
  {
    hide Parse, OpenIndex, Serialize, WellFormed, Succeeds, Holds;
    CodecRoundTrip(w);
  }

  /** The map a successful edit leaves; every other operation leaves it as it is. */
  function Edited(c: Contents, op: Op, ok: bool): Contents {
    if !ok then c
    else if op.Add? || op.Update? then PutEntry(c, op.id, Entry(op.body.name, op.body.policy, Result.Ok(op.record)))
    else if op.Remove? then DropEntry(c, op.id)
    else c
  }

  lemma UpsertKeeps(P: Prims, x: Live, op: Op)
    requires op.Add? || op.Update?
    requires InSync(P, x) && Fits(P, Upsert(P, x, op).0)
    ensures var (y, r) := Upsert(P, x, op);
            InSync(P, y) && Stored(P, y) == Edited(Stored(P, x), op, r.Ok?) && KeyKept(P, x, op, y, r.Ok?)
  {
    hide InSync, Parse, OpenIndex, Serialize, Succeeds, R.Sound, Stored, AddOrUpdate, LoadVault, Holds, PutEntry;
    InSyncParses(P, x);
    if LoadVault(x.app.file).Ok? {
      LoadedIsSound(P, x);
      var v := LoadVault(x.app.file).value;
      var add := R.Add(op.id, op.body, op.record, op.entryNonce, op.indexNonce);
      var (w, r) := AddOrUpdate(P, v, x.s.kMaster, op.id, op.body, op.record, op.entryNonce, op.indexNonce);
      if r.Ok? && Succeeds(op.faults, Serialize(w)) {
        EditedFileIsSmall(P, x, w, op.faults);
        R.StepAdd(P, x.s.kMaster, v, add);
        PersistSound(P, x, w, op.faults);
        StoredIs(P, x, v);
      }
    }
  }

  lemma InSyncParses(P: Prims, x: Live)
    requires InSync(P, x)
    ensures x.app.file.Some? && Parse(x.app.file.value).Ok?
  {
    hide Parse, OpenIndex;
  }

  lemma StoredIs(P: Prims, x: Live, v: VaultData)
    requires InSync(P, x) && Parse(x.app.file.value) == Ok(v)
    ensures OpenIndex(P, v, x.s.kMaster).Ok? && Stored(P, x) == Holds(P, v, x.s.kMaster)
  {
    hide Parse, OpenIndex, Holds;
  }

  lemma EditedFileIsSmall(P: Prims, x: Live, w: VaultData, faults: Faults)
    requires Succeeds(faults, Serialize(w)) && Fits(P, Persist(P, x, w, faults).0)
    ensures R.Small(w)
  {
    hide OpenIndex, Serialize, IndexFits, Succeeds;
  }

  lemma RemoveKeeps(P: Prims, x: Live, op: Op)
    requires op.Remove? && InSync(P, x) && Fits(P, RemoveSpec(P, x, op).0)
    ensures var (y, r) := RemoveSpec(P, x, op);
            InSync(P, y) && Stored(P, y) == Edited(Stored(P, x), op, r.Ok?) && KeyKept(P, x, op, y, r.Ok?)
  {
    hide InSync, Parse, OpenIndex, Serialize, Succeeds, R.Sound, Stored, VaultModel.Remove, LoadVault, Holds, DropEntry;
    InSyncParses(P, x);
    if LoadVault(x.app.file).Ok? {
      LoadedIsSound(P, x);
      var v := LoadVault(x.app.file).value;
      var drop := R.Drop(op.id, op.indexNonce);
      var (w, r) := VaultModel.Remove(P, v, x.s.kMaster, op.id, op.indexNonce);
      if r.Ok? && Succeeds(op.faults, Serialize(w)) {
        EditedFileIsSmall(P, x, w, op.faults);
        R.StepDrop(P, x.s.kMaster, v, drop);
        PersistSound(P, x, w, op.faults);
        StoredIs(P, x, v);
      }
    }
  }

  /** A password change keeps the stored map, under the new key. */
  lemma ChangeKeeps(P: Prims, x: Live, op: Op)
    requires op.ChangePassword? && InSync(P, x) && Fits(P, x) && Fits(P, ChangeSpec(P, x, op).0)
    ensures var (y, r) := ChangeSpec(P, x, op);
            InSync(P, y) && Stored(P, y) == Stored(P, x) && KeyKept(P, x, op, y, r.Ok?)
  {
    hide InSync, Parse, OpenIndex, Serialize, Succeeds, Stored, LoadVault, Holds, Rekeyed, IndexFits, R.Sound,
         KeyRenewed;
    InSyncParses(P, x);
    if LoadVault(x.app.file).Ok? {
      LoadedIsSound(P, x);
      var v := LoadVault(x.app.file).value;
      if Rekeyed(P, x, v, op).Ok? {
        var (w, k) := Rekeyed(P, x, v, op).value;
        if Succeeds(op.faults, Serialize(w)) {
          var y := x.(s := x.s.(kMaster := k));
          EditedFileIsSmall(P, y, w, op.faults);
          RekeyedIsSound(P, x, v, op);
          PersistSound(P, y, w, op.faults);
          StoredIs(P, x, v);
        }
      }
    }
  }

  lemma RekeyedIsReencrypted(P: Prims, x: Live, v: VaultData, op: Op)
    requires op.ChangePassword? && Rekeyed(P, x, v, op).Ok?
    ensures var (w, k) := Rekeyed(P, x, v, op).value;
            && Ok(w) == Reencrypt(P, v, x.s.kMaster, x.s.rows, op.salt, op.kdf, k,
                                  op.changed, op.probeNonce, op.indexNonce, op.rng)
            && op.key(v.kHsmBlob).Ok?
            && DeriveMaster(P, op.new_, op.salt, op.kdf, op.key(v.kHsmBlob).value, op.newAvailable) == Ok(k)
  {
    hide Reencrypt, VerifyProbe, DeriveMaster;
  }

  lemma RekeyedIsSound(P: Prims, x: Live, v: VaultData, op: Op)
    requires op.ChangePassword? && R.Sound(P, x.s.kMaster, v) && OpenIndex(P, v, x.s.kMaster) == Ok(x.s.rows)
    requires IndexFits(P, FORMAT_VERSION, x.s.rows) && Rekeyed(P, x, v, op).Ok? && R.Small(Rekeyed(P, x, v, op).value.0)
    ensures var (w, k) := Rekeyed(P, x, v, op).value;
            R.Sound(P, k, w) && Holds(P, w, k) == Holds(P, v, x.s.kMaster) && w.kHsmBlob == v.kHsmBlob
            && KeyRenewed(P, v, w, op, k)
  {
    hide OpenIndex, Rekeyed, Parse, Holds, IndexFits, Reencrypt, VerifyProbe, Readable, R.Small, GoodEnvelopes,
         Serialize, DeriveMaster;
    var (w, k) := Rekeyed(P, x, v, op).value;
    RekeyedIsReencrypted(P, x, v, op);
    ReencryptPreserves(P, v, x.s.kMaster, x.s.rows, op.salt, op.kdf, k,
                       op.changed, op.probeNonce, op.indexNonce, op.rng);
    ReencryptedReparses(P, v, x.s.kMaster, x.s.rows, op.salt, op.kdf, k,
                        op.changed, op.probeNonce, op.indexNonce, op.rng);
  }

  lemma ExportWrites(P: Prims, x: Live, op: Op)
    requires op.Export?
    ensures var y := ExportSpec(P, x, op).0;
            && y.s == x.s
            && (y.app.file == x.app.file
                || (LoadVault(x.app.file).Ok?
                    && var v := LoadVault(x.app.file).value;
                    y.app.file == Some(Serialize(v.(meta := v.meta.(lastExportAt := Some(op.exported)))))))
  {
    hide Serialize, Succeeds, LoadVault, Exported, VerifyTotp, UnwrapCores;
  }

  /** An export changes the recorded export date and nothing else in the file. */
  lemma ExportKeeps(P: Prims, x: Live, op: Op)
    requires op.Export? && InSync(P, x)
    ensures var (y, r) := ExportSpec(P, x, op);
            InSync(P, y) && Stored(P, y) == Stored(P, x) && KeyKept(P, x, op, y, r.Ok?)
  {
    hide InSync, Parse, OpenIndex, Serialize, Stored, LoadVault, Holds, ExportSpec, R.Sound;
    InSyncParses(P, x);
    ExportWrites(P, x, op);
    var y := ExportSpec(P, x, op).0;
    if y.app.file == x.app.file {
      SameFile(P, x, y);
    } else {
      LoadedIsSound(P, x);
      var v := LoadVault(x.app.file).value;
      var meta := v.meta.(lastExportAt := Some(op.exported));
      var w := v.(meta := meta);
      R.StepHeader(P, x.s.kMaster, v, R.SetMetadata(meta));
      R.SameSealedHoldsSame(P, x.s.kMaster, v, w);
      WrittenInSync(P, x, y, w);
      StoredIs(P, x, v);
    }
  }

  lemma WrittenInSync(P: Prims, x: Live, y: Live, w: VaultData)
    requires R.Sound(P, y.s.kMaster, w) && OpenIndex(P, w, y.s.kMaster) == Ok(y.s.rows)
    requires y.app.file == Some(Serialize(w))
    ensures InSync(P, y) && Stored(P, y) == Holds(P, w, y.s.kMaster) && Parse(Serialize(w)) == Ok(w)
  {
    hide Parse, OpenIndex, Serialize, WellFormed, Holds;
    CodecRoundTrip(w);
  }

  lemma SameFile(P: Prims, x: Live, y: Live)
    requires InSync(P, x) && y.app.file == x.app.file && y.s.kMaster == x.s.kMaster && y.s.rows == x.s.rows
    ensures InSync(P, y) && Stored(P, y) == Stored(P, x)
  {
    hide Parse, OpenIndex, Holds;
  }

  /** After every operation the index in memory is the one the file opens to, and the file holds the edit. */
  lemma OpKeepsSync(P: Prims, x: Live, op: Op)
    requires InSync(P, x) && Fits(P, x) && Fits(P, Apply(P, x, op).0)
    ensures var (y, r) := Apply(P, x, op);
            && InSync(P, y) && Stored(P, y) == Edited(Stored(P, x), op, r.Ok?) && KeyKept(P, x, op, y, r.Ok?)
            && (Reopens(P, y.app.file, y.s.kMaster, y.s.rows) <==> FileLen(y.app) <= MAX_VAULT_BYTES)
  {
    hide Reopens, InSync, Parse, Fits, Stored, KeyRenewed, Upsert, RemoveSpec, ChangeSpec, ExportSpec, ReadRecord,
         VerifyTotp, PutEntry, DropEntry, Find;
    InSyncParses(P, x);
    var (y, r) := Apply(P, x, op);
    if !Expired(x, op) {
      if op.Add? { UpsertKeeps(P, x, op); }
      else if op.Update? { if Find(x.s.rows, op.id).Some? { UpsertKeeps(P, x, op); } }
      else if op.Remove? { RemoveKeeps(P, x, op); }
      else if op.Copy? || op.Confirm? { SameFile(P, x, y); }
      else if op.ChangePassword? { ChangeKeeps(P, x, op); }
      else if op.Export? { ExportKeeps(P, x, op); }
    }
    ReopensIff(P, y);
  }

  // ----- Whole runs ------------------------------------------------------------------

  ghost function Run(P: Prims, x: Live, ops: seq<Op>): Live
    decreases |ops|
  {
    if ops == [] then x else Run(P, Apply(P, x, ops[0]).0, ops[1..])
  }

  /** The edits that were answered with success, applied to the map. */
  ghost function RunEdited(P: Prims, x: Live, c: Contents, ops: seq<Op>): Contents
    decreases |ops|
  {
    if ops == [] then c
    else
      var (y, r) := Apply(P, x, ops[0]);
      RunEdited(P, y, Edited(c, ops[0], r.Ok?), ops[1..])
  }

  ghost predicate StaysFit(P: Prims, x: Live, ops: seq<Op>)
    decreases |ops|
  {
    Fits(P, x) && (ops == [] || StaysFit(P, Apply(P, x, ops[0]).0, ops[1..]))
  }

  /**
   * Over any run, with failed writes, expiries and password changes, the file opens to the
   * index in memory and holds exactly the edits that were reported as done; the code can
   * read it back exactly while it is at most 64 MiB.
   */
  lemma {:induction false} RunKeepsSync(P: Prims, x: Live, ops: seq<Op>)
    requires InSync(P, x) && StaysFit(P, x, ops)
    ensures var y := Run(P, x, ops);
            && InSync(P, y) && Stored(P, y) == RunEdited(P, x, Stored(P, x), ops)
            && (Reopens(P, y.app.file, y.s.kMaster, y.s.rows) <==> FileLen(y.app) <= MAX_VAULT_BYTES)
    decreases |ops|
  {
    hide InSync, Stored, Fits, Apply, Edited, Reopens;
    ReopensIff(P, x);
    if ops != [] {
      var y := Apply(P, x, ops[0]).0;
      assert StaysFit(P, y, ops[1..]);
      OpKeepsSync(P, x, ops[0]);
      RunKeepsSync(P, y, ops[1..]);
    }
  }

  // ----- Session lifetime ---------------------------------------------------------------

  lemma EditKeepsExpiry(P: Prims, x: Live, op: Op)
    ensures op.Add? || op.Update? ==> Upsert(P, x, op).0.s.expiry == x.s.expiry
    ensures op.Remove? ==> RemoveSpec(P, x, op).0.s.expiry == x.s.expiry
    ensures op.ChangePassword? ==> ChangeSpec(P, x, op).0.s.expiry == x.s.expiry
    ensures op.Export? ==> ExportSpec(P, x, op).0.s.expiry == x.s.expiry
  {
    hide AddOrUpdate, VaultModel.Remove, OpenIndex, LoadVault, Rekeyed, Exported, UnwrapCores, VerifyTotp;
  }

  /** No operation extends the session; a copy leaves at most half a minute. */
  lemma ExpiryShrinks(P: Prims, x: Live, op: Op)
    ensures var (y, r) := Apply(P, x, op);
            && y.s.expiry <= x.s.expiry
            && (op.Copy? && r.Ok? ==> y.s.expiry <= op.after + POST_COPY_SECS)
            && (Expired(x, op) ==> y == x && r == Err(SessionLocked))
  {
    hide Upsert, RemoveSpec, ChangeSpec, ExportSpec, ReadRecord, VerifyTotp, FieldOf;
    if !Expired(x, op) { EditKeepsExpiry(P, x, op); }
  }

  /**
   * Whatever happens in between, at or past the first expiry exactly the code confirmation is
   * still served; everything else is refused and changes nothing.
   */
  lemma {:induction false} RunIsBounded(P: Prims, x: Live, ops: seq<Op>, op: Op)
    requires !op.Confirm? ==> op.now >= x.s.expiry
    ensures var y := Run(P, x, ops);
            && y.s.expiry <= x.s.expiry
            && (Apply(P, y, op).1 == Err(SessionLocked) <==> !op.Confirm?)
            && (!op.Confirm? ==> Apply(P, y, op).0 == y)
    decreases |ops|
  {
    if ops == [] {
      hide VerifyTotp, Upsert, UpdateSpec, RemoveSpec, RevealSpec, CopySpec, ChangeSpec, ExportSpec;
    } else {
      hide Perform;
      ExpiryShrinks(P, x, ops[0]);
      RunIsBounded(P, Apply(P, x, ops[0]).0, ops[1..], op);
    }
  }

  // ----- Opening a session ----------------------------------------------------------------

  /** A session granted by `unlock` is in step with the file, also when the counter reset was written. */
  lemma UnlockedInSync(P: Prims, allowed: bool, a: AppData, q: Attempt)
    requires UnlockSpec(P, allowed, a, q).1.Ok?
    ensures var (b, r) := UnlockSpec(P, allowed, a, q);
            InSync(P, Live(b, r.value)) && r.value.expiry == Min(q.sessionNow + SESSION_SECS, U64_MAX)
  {
    hide Parse, OpenIndex, Serialize, WellFormed, VerifyTotp, Refusal, DeriveMaster, VerifyProbe, UnwrapBoth, Succeeds;
    var v := Admit(allowed, a).value;
    var (b, r) := UnlockSpec(P, allowed, a, q);
    SerializeOfParse(a.file.value);
    AppRuns.RateLimitWellFormed(v, Reset());
    R.SameSealedHoldsSame(P, r.value.kMaster, v, WithRateLimit(v, Reset()));
    CodecRoundTrip(WithRateLimit(v, Reset()));
  }

  // ----- Files the code refuses to read back --------------------------------------------------

  /** What a vault is written as is read back as that vault exactly when it is at most 64 MiB. */
  lemma WrittenReadBackIff(v: VaultData)
    requires WellFormed(v)
    ensures LoadVault(Some(Serialize(v))) == Ok(v) <==> |Serialize(v)| <= 67_108_864
    ensures LoadVault(Some(Serialize(v))).Ok? <==> |Serialize(v)| <= 67_108_864
  {
    hide Parse, Serialize, WellFormed;
    CodecRoundTrip(v);
  }

  /** A larger file locks its owner out: no unlock is admitted, and every operation that reads it fails. */
  lemma OversizedIsRefused(P: Prims, allowed: bool, x: Live, q: Attempt, op: Op)
    requires FileLen(x.app) > MAX_VAULT_BYTES
    ensures UnlockSpec(P, allowed, x.app, q) == (x.app, Err(if allowed then MalformedVault(Io) else SoftwareHsmRefused))
    ensures !Expired(x, op) && !op.Confirm? && (op.Update? ==> Find(x.s.rows, op.id).Some?) ==>
              Apply(P, x, op) == (x, Err(Io))
  {
    assert LoadVault(x.app.file) == Err(Io);
    hide LoadVault, Persist, AddOrUpdate, VaultModel.Remove, Rekeyed, Exported, UnwrapCores, Try, Find, VerifyTotp;
  }

  lemma LargeRecordLargeFile(P: Prims, v: VaultData, k: Key, id: Id, record: EntryRecord, nonce: Nonce)
    requires Find(v.envelopes, id) == Some(EncryptEntry(P, k, v.version, id, record, nonce))
    ensures |Serialize(v)| > RecordLen(record)
  {
    hide HeaderBytes, BlobBytes, StateBytes, EncodeRecord, EntryKey, EntryAd, RecordLen;
    R.ListBounds(v.envelopes);
    RecordSize(record);
    PaddedLenIsLeast(4 + RecordLen(record));
  }

  /** Nothing stops an edit from making the file that large: it is written and answered with success. */
  lemma LargeEntryLocksOut(P: Prims, x: Live, op: Op)
    requires op.Add? && !Expired(x, op) && InSync(P, x) && LoadVault(x.app.file).Ok?
    requires RecordLen(op.record) >= MAX_VAULT_BYTES
    requires R.Small(Upserted(P, x, op).0) && Succeeds(op.faults, Serialize(Upserted(P, x, op).0))
    ensures var (y, r) := Apply(P, x, op);
            && r == Ok(Done) && InSync(P, y) && FileLen(y.app) > MAX_VAULT_BYTES && !LoadVault(y.app.file).Ok?
  {
    hide InSync, Parse, OpenIndex, Serialize, Succeeds, R.Sound, AddOrUpdate, LoadVault, Holds, Put, RecordLen,
         IndexFits, R.Small, EncryptEntry, Apply, Persist, R.Apply;
    LoadedIsSound(P, x);
    var v := LoadVault(x.app.file).value;
    var w := Upserted(P, x, op).0;
    var add := R.Add(op.id, op.body, op.record, op.entryNonce, op.indexNonce);
    assert R.Apply(P, x.s.kMaster, v, add) == w by { AddIsApplied(P, x.s.kMaster, v, add); }
    R.SmallAdd(P, x.s.kMaster, v, add);
    R.StepAdd(P, x.s.kMaster, v, add);
    AddSucceeds(P, x, v, op);
    AddPersists(P, x, op);
    PersistSound(P, x, w, op.faults);
    LargeRecordLargeFile(P, w, x.s.kMaster, op.id, op.record, op.entryNonce);
    ReopensIff(P, Apply(P, x, op).0);
  }

  lemma AddIsApplied(P: Prims, k: Key, v: VaultData, op: R.Op)
    requires op.Add?
    ensures R.Apply(P, k, v, op) == AddOrUpdate(P, v, k, op.id, op.body, op.record, op.entryNonce, op.indexNonce).0
  {
    hide AddOrUpdate;
  }

  lemma AddPersists(P: Prims, x: Live, op: Op)
    requires op.Add? && !Expired(x, op) && LoadVault(x.app.file).Ok? && Upserted(P, x, op).1.Ok?
    ensures Apply(P, x, op) == Persist(P, x, Upserted(P, x, op).0, op.faults)
  {
    hide LoadVault, AddOrUpdate, Persist;
  }

  /** The vault an added entry gives. */
  function Upserted(P: Prims, x: Live, op: Op): (VaultData, Result<(), Error>)
    requires op.Add? && LoadVault(x.app.file).Ok?
  {
    AddOrUpdate(P, LoadVault(x.app.file).value, x.s.kMaster, op.id, op.body, op.record, op.entryNonce, op.indexNonce)
  }

  lemma AddSucceeds(P: Prims, x: Live, v: VaultData, op: Op)
    requires op.Add? && LoadVault(x.app.file) == Ok(v) && OpenIndex(P, v, x.s.kMaster) == Ok(x.s.rows)
    requires RecordLen(op.record) <= U32_MAX && IndexFits(P, v.version, Put(x.s.rows, op.id, op.body))
    ensures var (w, r) := Upserted(P, x, op);
            && r.Ok?
            && Find(w.envelopes, op.id)
               == Some(EncryptEntry(P, x.s.kMaster, w.version, op.id, op.record, op.entryNonce))
  {
    hide LoadVault, OpenIndex, RecordLen, IndexFits, Put, EncryptEntry, Holds, SealIndex;
    AddRefinesPut(P, v, x.s.kMaster, op.id, op.body, op.record, op.entryNonce, op.indexNonce);
    FindPut(v.envelopes, op.id, EncryptEntry(P, x.s.kMaster, v.version, op.id, op.record, op.entryNonce), op.id);
  }

  // ----- Crashes ------------------------------------------------------------------------------

  /**
   * A crash at any step of writing a sound vault over a settled file leaves the old file or
   * the whole new one; the code reads it back, and it opens, exactly when it is at most 64 MiB.
   */
  lemma CrashedFileReopens(P: Prims, x: Live, w: VaultData, k: Key, before: Disk, d: Disk, c: Option<bytes>)
    requires InSync(P, x) && R.Sound(P, k, w)
    requires forall old_ :: AfterCrash(before, old_) ==> old_ == x.app.file
    requires CrashSafe(before, Serialize(w), d) && AfterCrash(d, c)
    ensures c == x.app.file || c == Some(Serialize(w))
    ensures c == x.app.file ==> (Reopens(P, c, x.s.kMaster, x.s.rows) <==> FileLen(x.app) <= MAX_VAULT_BYTES)
    ensures c == Some(Serialize(w)) ==>
              (LoadVault(c) == Ok(w) && Reopens(P, c, k, OpenIndex(P, w, k).value)
               <==> |Serialize(w)| <= MAX_VAULT_BYTES)
    ensures LoadVault(c).Ok? <==> c.Some? && |c.value| <= MAX_VAULT_BYTES
  {
    hide Parse, OpenIndex, Serialize, WellFormed, AfterCrash;
    WrittenReadBackIff(w);
    ReopensIff(P, x);
  }
}
