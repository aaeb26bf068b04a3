/** Sessions opened by creating a vault or importing a backup, and backups carried from one to another. */
module Transfer {
  import opened Bytes
  import opened Errors
  import opened Types
  import opened Primitives
  import opened KeyedLists
  import opened VaultModel
  import opened VaultCodec
  import opened Kdf
  import opened Totp
  import opened Storage
  import opened RecoveryModel
  import opened Rebuild
  import opened AppModel
  import opened SessionModel
  import opened SessionRuns
  import opened App
  import R = VaultRuns

  lemma {:induction false} ImportHeader(P: Prims, dst: VaultData, kd: Key, es: seq<RecoveryEntry>, i: nat, rng: Rng)
    requires i <= |es|
    ensures var r := ImportEntries(P, dst, kd, es, i, rng); r.Ok? ==> SameHeader(dst, r.value)
    decreases |es| - i
  {
    hide ImportEntryParts, DecryptIndex, EncryptEntry, SealIndex, Put;
    if i < |es| && ImportEntryParts(P, es[i]).Ok? {
      var (row, record) := ImportEntryParts(P, es[i]).value;
      ImportHeader(P, AddOrUpdate(P, dst, kd, row.id, row.body, record, rng(i).0, rng(i).1).0, kd, es, i + 1, rng);
    }
  }

  /** A vault rebuilt entry by entry from a new one parses back once written, if it is under 4 GiB. */
  lemma RebuiltWellFormed(v: VaultData, dst: VaultData)
    requires GoodHeader(HeaderOf(dst)) && CheckBlobs(dst.kHsmBlob, dst.totpBlob).Ok? && SameHeader(dst, v)
    requires R.Stamped(v.envelopes) && R.Small(v)
    ensures WellFormed(v)
  {
    hide R.Small, R.Stamped;
    R.SmallIsWellFormed(v);
  }

  lemma NewVault(P: Prims, kdf: KdfParams, f: Fresh, now: i64, k: Key)
    requires Create(P, kdf, f.vaultSalt, f.kHsmBlob, f.seedBlob, Metadata(now, None), k, f.probeNonce, f.indexNonce).Ok?
    ensures var meta := Metadata(now, None);
            var v := Create(P, kdf, f.vaultSalt, f.kHsmBlob, f.seedBlob, meta, k, f.probeNonce, f.indexNonce).value;
            GoodHeader(HeaderOf(v)) && CheckBlobs(v.kHsmBlob, v.totpBlob).Ok? && v.envelopes == []
  {
    hide SealProbe, SealIndex;
  }

  lemma RestoredWellFormed(P: Prims, file: bytes, password: Text, kdf: KdfParams, importAvailable: Option<u64>,
                           available: Option<u64>, now: i64, f: Fresh)
    requires var r := Restore(P, file, password, kdf, importAvailable, available, now, f);
             r.Ok? && R.Small(r.value.vault)
    ensures WellFormed(Restore(P, file, password, kdf, importAvailable, available, now, f).value.vault)
  {
    hide R.Small, WellFormed, ImportFile, DeriveMaster, Create, ImportEntries, R.Stamped, GoodHeader, CheckBlobs;
    var payload := ImportFile(P, file, password, importAvailable).value;
    var k := DeriveMaster(P, password, f.vaultSalt, kdf, f.kHsm, available).value;
    var meta := Metadata(now, None);
    NewVault(P, kdf, f, now, k);
    var dst := Create(P, kdf, f.vaultSalt, f.kHsmBlob, f.seedBlob, meta, k, f.probeNonce, f.indexNonce).value;
    NothingStamped(dst);
    ImportStamps(P, dst, k, payload.entries, 0, f.rng);
    ImportHeader(P, dst, k, payload.entries, 0, f.rng);
    RebuiltWellFormed(ImportEntries(P, dst, k, payload.entries, 0, f.rng).value, dst);
  }

  lemma NothingStamped(v: VaultData)
    requires v.envelopes == []
    ensures R.Stamped(v.envelopes)
  {
  }

  /** A session handed out with a freshly written vault is in step with the file. */
  lemma ProvisionedInSync(P: Prims, a: AppData, r: Restored, config: Config, e: Enrolment)
    requires WellFormed(r.vault) && Provisioned(P, a, Result.Ok(r), config, e).1.Ok?
    ensures var (b, s) := Provisioned(P, a, Result.Ok(r), config, e);
            && InSync(P, Live(b, s.value)) && Stored(P, Live(b, s.value)) == Holds(P, r.vault, r.kMaster)
            && b.config == config && b.verifier.None? && b.mem == a.mem
  {
    hide Parse, OpenIndex, Serialize, WellFormed, Holds, Succeeds;
    CodecRoundTrip(r.vault);
  }

  /** What importing `file` rebuilds, with everything outside the file as in `e`. */
  function ImportBuilds(P: Prims, file: bytes, password: Text, kdf: KdfParams, e: Enrolment): Result<Restored, Error> {
    Restore(P, file, password, kdf, e.importAvailable, e.available, e.now, e.minted)
  }

  /** A new vault opens a session in step with its file, holding nothing. */
  lemma CreatedInSync(P: Prims, allowed: bool, a: AppData, password: Text, kdf: KdfParams, config: Config, e: Enrolment,
                      b: AppData, s: Session)
    requires CreateVaultSpec(P, allowed, a, password, kdf, config, e) == (b, Result.Ok(s)) && FileLen(b) <= U32_MAX
    ensures InSync(P, Live(b, s)) && Stored(P, Live(b, s)) == Contents([], map[])
  {
    hide Create, DeriveMaster, OpenIndex, Serialize, WellFormed, Succeeds, Holds, InSync, Stored, R.Sound;
    var r := BuildNew(P, password, kdf, e).value;
    var f := e.minted;
    SmallFile(r.vault);
    R.CreatedIsSound(P, kdf, f.vaultSalt, f.kHsmBlob, f.seedBlob, Metadata(e.now, None), r.kMaster,
                     f.probeNonce, f.indexNonce);
    SoundIsWellFormed(P, r.kMaster, r.vault);
    ProvisionedInSync(P, a, r, config, e);
  }

  lemma SmallFile(v: VaultData)
    ensures |Serialize(v)| <= U32_MAX ==> R.Small(v)
  {
    hide Serialize;
  }

  lemma SoundIsWellFormed(P: Prims, k: Key, v: VaultData)
    requires R.Sound(P, k, v)
    ensures WellFormed(v) && OpenIndex(P, v, k).Ok?
  {
    hide WellFormed, OpenIndex;
  }

  /** An imported backup opens a session in step with the file it wrote. */
  lemma ImportedInSync(P: Prims, allowed: bool, a: AppData, file: bytes, password: Text, kdf: KdfParams, config: Config,
                       e: Enrolment, b: AppData, s: Session)
    requires ImportSpec(P, allowed, a, file, password, kdf, config, e) == (b, Result.Ok(s)) && FileLen(b) <= U32_MAX
    ensures InSync(P, Live(b, s))
  {
    hide Restore, ImportFile, OpenIndex, Serialize, WellFormed, Succeeds, InSync, Stored;
    var r := ImportBuilds(P, file, password, kdf, e).value;
    SmallFile(r.vault);
    RestoredWellFormed(P, file, password, kdf, e.importAvailable, e.available, e.now, e.minted);
    ProvisionedInSync(P, a, r, config, e);
  }

  // ----- From one session to another ------------------------------------------------------

  /** The re-derived key and the backup a successful export of `x` wrote under it. */
  ghost predicate ExportedUnder(P: Prims, x: Live, op: Op, v: VaultData, seed: Seed, k: Key, file: bytes)
    requires op.Export?
  {
    && LoadVault(x.app.file) == Result.Ok(v) && op.key(v.kHsmBlob).Ok? && op.seed(v.totpBlob) == Result.Ok(seed)
    && DeriveMaster(P, op.master, v.salt, v.kdf, op.key(v.kHsmBlob).value, op.available) == Result.Ok(k)
    && VerifyProbe(P, v, k).Ok?
    && BackupOf(P, x, op, v, seed, k) == Result.Ok(file)
  }

  function BackupOf(P: Prims, x: Live, op: Op, v: VaultData, seed: Seed, k: Key): Result<bytes, Error>
    requires op.Export?
  {
    Backup(P, v, k, x.s.rows, seed, op.master, op.preset, op.exportAvailable, op.exportSalt, op.exportNonce)
  }

  /** A successful export wrote the backup of the loaded vault under the re-derived key. */
  lemma ExportedFile(P: Prims, x: Live, op: Op, file: bytes) returns (v: VaultData, seed: Seed, k: Key)
    requires op.Export? && Apply(P, x, op).1 == Result.Ok(File(file))
    ensures ExportedUnder(P, x, op, v, seed, k, file)
  {
    hide VerifyTotp, DeriveMaster, VerifyProbe, Backup, LoadVault, Serialize, Succeeds;
    v := LoadVault(x.app.file).value;
    var s := op.seed(v.totpBlob).value;
    k := DeriveMaster(P, op.master, v.salt, v.kdf, op.key(v.kHsmBlob).value, op.available).value;
    seed := s;
  }

  lemma SmallExportFits(P: Prims, p: Payload, password: Text, params: KdfParams, available: Option<u64>,
                        salt: Salt, nonce: Nonce)
    requires var r := ExportFile(P, p, password, params, available, salt, nonce); r.Ok? && |r.value| <= U32_MAX
    ensures SealFits(p)
  {
    hide EncodePayload, DeriveRecoveryKey, KdfBytes, MagicBytes, LE;
  }

  /** Every step of an import outside the file goes through. */
  predicate ImportGoesThrough(op: Op, kdf: KdfParams, e: Enrolment)
    requires op.Export?
  {
    && Derivable(PresetParams(op.preset), e.importAvailable) && Derivable(kdf, e.available)
    && CheckBlobs(e.minted.kHsmBlob, e.minted.seedBlob).Ok? && e.keyEnrolled && e.seedEnrolled
  }

  /** A restore whose write lands opens a session on what it rebuilt. */
  lemma ImportOpens(P: Prims, a: AppData, file: bytes, password: Text, kdf: KdfParams, config: Config, e: Enrolment,
                    r: Restored, rows: seq<Row>)
    requires ImportBuilds(P, file, password, kdf, e) == Result.Ok(r) && e.keyEnrolled && e.seedEnrolled
    requires WellFormed(r.vault) && OpenIndex(P, r.vault, r.kMaster) == Result.Ok(rows)
    requires Succeeds(e.faults, Serialize(r.vault))
    ensures var (b, s) := ImportSpec(P, true, a, file, password, kdf, config, e);
            && s.Ok? && s.value.rows == rows && s.value.seed == r.seed
            && InSync(P, Live(b, s.value)) && Stored(P, Live(b, s.value)) == Holds(P, r.vault, r.kMaster)
  {
    hide ImportFile, DeriveMaster, Create, ImportEntries, OpenIndex, Serialize, WellFormed, Succeeds, InSync, Stored,
         Holds;
    ProvisionedInSync(P, a, r, config, e);
  }

  /** Two keys read the same from every row. */
  predicate ReadAlike(P: Prims, v: VaultData, k: Key, l: Key, rows: seq<Row>) {
    forall id :: id in Ids(rows) ==> DecryptEntry(P, v, k, id) == DecryptEntry(P, v, l, id)
  }

  lemma ReadAlikeIff(P: Prims, v: VaultData, k: Key, l: Key, rows: seq<Row>)
    ensures ContentsOf(P, v, k, rows) == ContentsOf(P, v, l, rows) <==> ReadAlike(P, v, k, l, rows)
  {
    hide DecryptEntry, Find;
    var a, b := ContentsOf(P, v, k, rows), ContentsOf(P, v, l, rows);
    if a == b {
      forall id | id in Ids(rows) ensures DecryptEntry(P, v, k, id) == DecryptEntry(P, v, l, id) {
        assert a.at[id] == b.at[id];
      }
    }
    if ReadAlike(P, v, k, l, rows) {
      assert a.at == b.at;
    }
  }

  /**
   * Exporting from a session and importing the file elsewhere under the same password opens
   * a session with the same index and TOTP seed, holding what the re-derived key reads. That
   * is the session's own map exactly when the two keys read alike, as one key always does.
   */
  lemma ExportThenImport(P: Prims, x: Live, op: Op, file: bytes, a: AppData, kdf: KdfParams, config: Config,
                         e: Enrolment)
    returns (v: VaultData, seed: Seed, k: Key)
    requires op.Export? && Apply(P, x, op).1 == Result.Ok(File(file)) && |file| <= U32_MAX
    requires InSync(P, x) && Fits(P, x) && ImportGoesThrough(op, kdf, e)
    requires var built := ImportBuilds(P, file, op.master, kdf, e);
             built.Ok? ==> Succeeds(e.faults, Serialize(built.value.vault)) && R.Small(built.value.vault)
    ensures ExportedUnder(P, x, op, v, seed, k, file)
    ensures var (b, r) := ImportSpec(P, true, a, file, op.master, kdf, config, e);
            && r.Ok? && r.value.rows == x.s.rows && r.value.seed == seed
            && InSync(P, Live(b, r.value))
            && Stored(P, Live(b, r.value)) == ContentsOf(P, v, k, x.s.rows)
            && (Stored(P, Live(b, r.value)) == Stored(P, x) <==> ReadAlike(P, v, k, x.s.kMaster, x.s.rows))
            && (k == x.s.kMaster ==> Stored(P, Live(b, r.value)) == Stored(P, x))
  {
    hide Apply, InSync, Fits, Restore, Backup, DeriveMaster, VerifyProbe, Derivable, Serialize, Succeeds, R.Small,
         OpenIndex, Holds, ContentsOf, ImportSpec, LoadVault, WellFormed, CheckBlobs;
    v, seed, k := ExportedFile(P, x, op, file);
    RestoredFromExport(P, x, op, v, seed, k, file, kdf, e);
    var r := ImportBuilds(P, file, op.master, kdf, e).value;
    RestoredWellFormed(P, file, op.master, kdf, e.importAvailable, e.available, e.now, e.minted);
    ImportOpens(P, a, file, op.master, kdf, config, e, r, x.s.rows);
    ReadAlikeIff(P, v, k, x.s.kMaster, x.s.rows);
    StoredRows(P, x, v);
  }

  lemma StoredRows(P: Prims, x: Live, v: VaultData)
    requires InSync(P, x) && LoadVault(x.app.file) == Result.Ok(v)
    ensures Stored(P, x) == ContentsOf(P, v, x.s.kMaster, x.s.rows) && NoDup(Ids(x.s.rows))
  {
    hide Parse, DecryptIndex, ContentsOf;
  }

  lemma RestoredFromExport(P: Prims, x: Live, op: Op, v: VaultData, seed: Seed, k: Key, file: bytes, kdf: KdfParams,
                           e: Enrolment)
    requires op.Export? && InSync(P, x) && Fits(P, x) && ExportedUnder(P, x, op, v, seed, k, file)
    requires |file| <= U32_MAX && ImportGoesThrough(op, kdf, e)
    ensures var r := ImportBuilds(P, file, op.master, kdf, e);
            && r.Ok? && r.value.seed == seed
            && OpenIndex(P, r.value.vault, r.value.kMaster) == Result.Ok(x.s.rows)
            && Holds(P, r.value.vault, r.value.kMaster) == ContentsOf(P, v, k, x.s.rows)
  {
    hide InSync, Stored, Restore, ExportEntries, DeriveMaster, Derivable, Serialize, ExportFile, OpenIndex, Holds,
         IndexFits, CheckBlobs, SealFits, ContentsOf, LoadVault, VerifyProbe;
    StoredRows(P, x, v);
    var p := Payload(seed, v.kdf, ExportEntries(P, v, k, x.s.rows).value);
    SmallExportFits(P, p, op.master, PresetParams(op.preset), op.exportAvailable, op.exportSalt, op.exportNonce);
    BackupThenRestore(P, v, k, x.s.rows, seed, op.master, op.preset, op.exportAvailable, op.exportSalt, op.exportNonce,
                      kdf, e.importAvailable, e.available, e.now, e.minted);
  }
}
