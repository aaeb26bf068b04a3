/**
 * The two long transformations that rebuild a vault entry by entry: a master-password
 * change, and a backup followed by a restore. Both preserve what the vault holds.
 */
module Rebuild {
  import opened Bytes
  import opened Errors
  import opened Types
  import opened Primitives
  import opened KeyedLists
  import opened Records
  import opened VaultModel
  import opened VaultCodec
  import opened VaultRuns
  import opened Kdf
  import opened RecoveryModel

  /** The nonces of the n-th re-encryption, drawn from the random source. */
  type Rng = nat -> (Nonce, Nonce)

  // ----- One more entry -------------------------------------------------------------

  /** `dst` under `kd` opens to the first `i` rows and reads each as `src` does under `ks`. */
  ghost predicate Copied(P: Prims, src: VaultData, ks: Key, dst: VaultData, kd: Key, rows: seq<Row>, i: nat)
    requires i <= |rows|
  {
    OpenIndex(P, dst, kd) == Ok(rows[..i])
    && forall j :: 0 <= j < i ==> DecryptEntry(P, dst, kd, rows[j].id) == DecryptEntry(P, src, ks, rows[j].id)
  }

  predicate Readable(P: Prims, v: VaultData, k: Key, rows: seq<Row>) {
    forall i :: 0 <= i < |rows| ==> DecryptEntry(P, v, k, rows[i].id).Ok?
  }

  lemma PutNext(rows: seq<Row>, i: nat)
    requires i < |rows| && NoDup(Ids(rows))
    ensures Put(rows[..i], rows[i].id, rows[i].body) == rows[..i + 1]
    ensures rows[i].id !in Ids(rows[..i])
  {
    forall j | 0 <= j < i ensures rows[..i][j].id != rows[i].id {
      assert Ids(rows)[j] != Ids(rows)[i];
    }
    PutNew(rows[..i], rows[i].id, rows[i].body);
    assert rows[..i + 1] == rows[..i] + [rows[i]];
  }

  lemma PrefixFits(P: Prims, rows: seq<Row>, i: nat)
    requires i <= |rows| && IndexFits(P, FORMAT_VERSION, rows)
    ensures IndexFits(P, FORMAT_VERSION, rows[..i])
  {
    assert rows[..i] <= rows;
  }

  /** A record that was ever decrypted fits its length prefix again. */
  lemma DecryptedFits(P: Prims, v: VaultData, k: Key, id: Id)
    requires DecryptEntry(P, v, k, id).Ok?
    ensures RecordLen(DecryptEntry(P, v, k, id).value) <= U32_MAX
  {
    hide DecodeRecord, EntryKey, EntryAd, RecordLen, Find;
    var e := Find(v.envelopes, id).value;
    DecodedIsEncoding(P.opening(EntryKey(P, k, id), e.nonce, EntryAd(v.version, id), e.ct).value);
  }

  lemma CopyOne(P: Prims, src: VaultData, ks: Key, dst: VaultData, kd: Key, rows: seq<Row>, i: nat,
                nonces: (Nonce, Nonce))
    requires i < |rows| && NoDup(Ids(rows)) && IndexFits(P, FORMAT_VERSION, rows)
    requires dst.version == FORMAT_VERSION && Copied(P, src, ks, dst, kd, rows, i)
    requires DecryptEntry(P, src, ks, rows[i].id).Ok?
    ensures var record := DecryptEntry(P, src, ks, rows[i].id).value;
            var (w, r) := AddOrUpdate(P, dst, kd, rows[i].id, rows[i].body, record, nonces.0, nonces.1);
            r.Ok? && SameHeader(dst, w) && Copied(P, src, ks, w, kd, rows, i + 1)
  {
    hide DecryptEntry, AddOrUpdate, OpenIndex, RecordLen, IndexFits, Holds, ContentsOf, Put;
    var record := DecryptEntry(P, src, ks, rows[i].id).value;
    DecryptedFits(P, src, ks, rows[i].id);
    PutNext(rows, i);
    PrefixFits(P, rows, i + 1);
    AddRefinesPut(P, dst, kd, rows[i].id, rows[i].body, record, nonces.0, nonces.1);
    var w := AddOrUpdate(P, dst, kd, rows[i].id, rows[i].body, record, nonces.0, nonces.1).0;
    forall j | 0 <= j < i + 1
      ensures DecryptEntry(P, w, kd, rows[j].id) == DecryptEntry(P, src, ks, rows[j].id)
    {
      HoldsReads(P, w, kd, rows[..i + 1], j);
      if j < i {
        HoldsReads(P, dst, kd, rows[..i], j);
        assert Ids(rows)[j] != Ids(rows)[i];
      }
    }
  }

  lemma HoldsReads(P: Prims, v: VaultData, k: Key, rows: seq<Row>, j: nat)
    requires j < |rows| && OpenIndex(P, v, k) == Ok(rows)
    ensures rows[j].id in Holds(P, v, k).at
    ensures Holds(P, v, k).at[rows[j].id].record == DecryptEntry(P, v, k, rows[j].id)
  {
    hide DecryptEntry, OpenIndex, Find;
    assert Ids(rows)[j] == rows[j].id;
  }

  /** When every row has been copied, what `dst` holds is what `src` reads for those rows. */
  lemma CopiedHoldsSame(P: Prims, src: VaultData, ks: Key, dst: VaultData, kd: Key, rows: seq<Row>)
    requires Copied(P, src, ks, dst, kd, rows, |rows|)
    ensures OpenIndex(P, dst, kd) == Ok(rows) && Holds(P, dst, kd) == ContentsOf(P, src, ks, rows)
  {
    hide DecryptEntry, OpenIndex, Find;
    assert rows[..|rows|] == rows;
    var a, b := ContentsOf(P, dst, kd, rows), ContentsOf(P, src, ks, rows);
    forall id | id in a.at ensures a.at[id] == b.at[id] {
      var j :| 0 <= j < |rows| && Ids(rows)[j] == id;
    }
    assert a.at.Keys == b.at.Keys;
    assert a.at == b.at;
  }

  lemma NothingCopied(P: Prims, src: VaultData, ks: Key, dst: VaultData, kd: Key, rows: seq<Row>)
    requires OpenIndex(P, dst, kd) == Ok([])
    ensures Copied(P, src, ks, dst, kd, rows, 0)
  {
    hide OpenIndex, DecryptEntry;
    assert rows[..0] == [];
  }

  // ----- Changing the master password ---------------------------------------------------

  function CopyRows(P: Prims, src: VaultData, ks: Key, dst: VaultData, kd: Key, rows: seq<Row>, i: nat,
                    rng: Rng): Result<VaultData, Error>
    requires i <= |rows|
    decreases |rows| - i
  {
    if i == |rows| then Ok(dst)
    else
      var record :- DecryptEntry(P, src, ks, rows[i].id);
      var (w, r) := AddOrUpdate(P, dst, kd, rows[i].id, rows[i].body, record, rng(i).0, rng(i).1);
      var _ :- r;
      CopyRows(P, src, ks, w, kd, rows, i + 1, rng)
  }

  /** `reencrypt_vault`: a fresh v2 vault with the same blobs and export date. */
  function Reencrypt(P: Prims, src: VaultData, ks: Key, rows: seq<Row>, salt: Salt, kdf: KdfParams, kd: Key,
                     now: i64, probeNonce: Nonce, indexNonce: Nonce, rng: Rng): Result<VaultData, Error> {
    var meta := src.meta.(lastPasswordChange := now);
    var dst :- Create(P, kdf, salt, src.kHsmBlob, src.totpBlob, meta, kd, probeNonce, indexNonce);
    CopyRows(P, src, ks, dst, kd, rows, 0, rng)
  }

  lemma {:induction false} CopyRowsCopies(P: Prims, src: VaultData, ks: Key, dst: VaultData, kd: Key, rows: seq<Row>,
                                          i: nat, rng: Rng)
    requires i <= |rows| && NoDup(Ids(rows)) && IndexFits(P, FORMAT_VERSION, rows)
    requires dst.version == FORMAT_VERSION && Copied(P, src, ks, dst, kd, rows, i)
    ensures var r := CopyRows(P, src, ks, dst, kd, rows, i, rng);
            && (r.Ok? <==> forall j :: i <= j < |rows| ==> DecryptEntry(P, src, ks, rows[j].id).Ok?)
            && (r.Ok? ==> SameHeader(dst, r.value) && Copied(P, src, ks, r.value, kd, rows, |rows|))
    decreases |rows| - i
  {
    hide Copied, DecryptEntry, AddOrUpdate, IndexFits;
    if i < |rows| && DecryptEntry(P, src, ks, rows[i].id).Ok? {
      CopyOne(P, src, ks, dst, kd, rows, i, rng(i));
      var record := DecryptEntry(P, src, ks, rows[i].id).value;
      var w := AddOrUpdate(P, dst, kd, rows[i].id, rows[i].body, record, rng(i).0, rng(i).1).0;
      CopyRowsCopies(P, src, ks, w, kd, rows, i + 1, rng);
    }
  }

  /**
   * A password change succeeds exactly when every entry can be read, and then keeps the
   * map, the hardware blobs and the export date; the probe verifies under the new key.
   */
  lemma ReencryptPreserves(P: Prims, src: VaultData, ks: Key, rows: seq<Row>, salt: Salt, kdf: KdfParams, kd: Key,
                           now: i64, probeNonce: Nonce, indexNonce: Nonce, rng: Rng)
    requires OpenIndex(P, src, ks) == Ok(rows)
    requires CheckBlobs(src.kHsmBlob, src.totpBlob).Ok? && IndexFits(P, FORMAT_VERSION, rows)
    ensures var r := Reencrypt(P, src, ks, rows, salt, kdf, kd, now, probeNonce, indexNonce, rng);
            && (r.Ok? <==> Readable(P, src, ks, rows))
            && (r.Ok? ==>
                  && OpenIndex(P, r.value, kd) == Ok(rows) && Holds(P, r.value, kd) == Holds(P, src, ks)
                  && r.value.kHsmBlob == src.kHsmBlob && r.value.totpBlob == src.totpBlob
                  && r.value.meta == src.meta.(lastPasswordChange := now)
                  && r.value.version == FORMAT_VERSION && r.value.salt == salt && r.value.kdf == kdf
                  && VerifyProbe(P, r.value, kd) == Ok(()))
  {
    var meta := src.meta.(lastPasswordChange := now);
    PrefixFits(P, rows, 0);
    assert rows[..0] == [];
    CreateIsEmpty(P, kdf, salt, src.kHsmBlob, src.totpBlob, meta, kd, probeNonce, indexNonce);
    var dst := Create(P, kdf, salt, src.kHsmBlob, src.totpBlob, meta, kd, probeNonce, indexNonce).value;
    NothingCopied(P, src, ks, dst, kd, rows);
    OpenedNoDup(P, src, ks);
    CopyRowsCopies(P, src, ks, dst, kd, rows, 0, rng);
    var r := CopyRows(P, src, ks, dst, kd, rows, 0, rng);
    if r.Ok? {
      CopiedHoldsSame(P, src, ks, r.value, kd, rows);
      assert Holds(P, src, ks) == ContentsOf(P, src, ks, rows);
      SameProbe(P, dst, r.value, kd);
    }
    hide OpenIndex, DecryptEntry, CopyRows, SealProbe, SealIndex, VerifyProbe, Holds, IndexFits, Copied, Ids;
  }

  lemma OpenedNoDup(P: Prims, v: VaultData, k: Key)
    requires OpenIndex(P, v, k).Ok?
    ensures NoDup(Ids(OpenIndex(P, v, k).value)) && NoDup(Ids(v.envelopes))
  {
  }

  lemma SameProbe(P: Prims, v: VaultData, w: VaultData, k: Key)
    requires SameHeader(v, w)
    ensures VerifyProbe(P, v, k) == VerifyProbe(P, w, k)
  {
  }

  // ----- Backup and restore ------------------------------------------------------------------

  /** `recovery_entry_from` */
  function RecoveryEntryFrom(P: Prims, row: Row, record: EntryRecord): RecoveryEntry {
    RecoveryEntry(row.id, row.body.name, record.username, record.password, record.url, record.notes,
                  P.policyToBytes(row.body.policy))
  }

  /** `import_entry_parts` */
  function ImportEntryParts(P: Prims, e: RecoveryEntry): Result<(Row, EntryRecord), Error> {
    match P.policyFromBytes(e.policy)
    case None => Err(MalformedPayload(NotPostcard))
    case Some(policy) =>
      Ok((Keyed(e.id, RowBody(e.name, policy)), EntryRecord(e.username, e.password, e.url, e.notes)))
  }

  lemma PartsRoundTrip(P: Prims, row: Row, record: EntryRecord)
    ensures ImportEntryParts(P, RecoveryEntryFrom(P, row, record)) == Ok((row, record))
  {
  }

  function ExportEntries(P: Prims, v: VaultData, k: Key, rows: seq<Row>): (r: Result<seq<RecoveryEntry>, Error>)
    ensures r.Ok? ==> |r.value| == |rows|
    decreases |rows|
  {
    if rows == [] then Ok([])
    else
      var record :- DecryptEntry(P, v, k, rows[0].id);
      var rest :- ExportEntries(P, v, k, rows[1..]);
      Ok([RecoveryEntryFrom(P, rows[0], record)] + rest)
  }

  function ImportEntries(P: Prims, dst: VaultData, kd: Key, es: seq<RecoveryEntry>, i: nat,
                         rng: Rng): Result<VaultData, Error>
    requires i <= |es|
    decreases |es| - i
  {
    if i == |es| then Ok(dst)
    else
      var (row, record) :- ImportEntryParts(P, es[i]);
      var (w, r) := AddOrUpdate(P, dst, kd, row.id, row.body, record, rng(i).0, rng(i).1);
      var _ :- r;
      ImportEntries(P, w, kd, es, i + 1, rng)
  }

  /** The part of `export_recovery` after re-authentication. */
  function Backup(P: Prims, v: VaultData, k: Key, rows: seq<Row>, seed: Seed, password: Text, preset: RecoveryPreset,
                  available: Option<u64>, salt: Salt, nonce: Nonce): Result<bytes, Error> {
    var es :- ExportEntries(P, v, k, rows);
    ExportFile(P, Payload(seed, v.kdf, es), password, PresetParams(preset), available, salt, nonce)
  }

  /** What enrolling the two hardware slots and the random source give an import. */
  datatype Fresh = Fresh(kHsm: Key, kHsmBlob: bytes, seedBlob: bytes, vaultSalt: Salt,
                         probeNonce: Nonce, indexNonce: Nonce, rng: Rng)

  datatype Restored = Restored(vault: VaultData, kMaster: Key, seed: Seed)

  /** `import_recovery` up to the file write; the memory is measured before each derivation. */
  function Restore(P: Prims, file: bytes, password: Text, kdf: KdfParams, importAvailable: Option<u64>,
                   available: Option<u64>, now: i64, f: Fresh): Result<Restored, Error> {
    var payload :- ImportFile(P, file, password, importAvailable);
    var k :- DeriveMaster(P, password, f.vaultSalt, kdf, f.kHsm, available);
    var dst :- Create(P, kdf, f.vaultSalt, f.kHsmBlob, f.seedBlob, Metadata(now, None), k, f.probeNonce, f.indexNonce);
    var v :- ImportEntries(P, dst, k, payload.entries, 0, f.rng);
    Ok(Restored(v, k, payload.totpSeed))
  }

  /** What a backup of readable rows contains, entry by entry. */
  lemma {:induction false} ExportedEntries(P: Prims, v: VaultData, k: Key, rows: seq<Row>)
    ensures ExportEntries(P, v, k, rows).Ok? <==> Readable(P, v, k, rows)
    ensures ExportEntries(P, v, k, rows).Ok? ==>
              forall i :: 0 <= i < |rows| ==>
                ExportEntries(P, v, k, rows).value[i]
                == RecoveryEntryFrom(P, rows[i], DecryptEntry(P, v, k, rows[i].id).value)
    decreases |rows|
  {
    hide DecryptEntry, RecoveryEntryFrom;
    if rows != [] {
      ExportedEntries(P, v, k, rows[1..]);
      assert rows == [rows[0]] + rows[1..];
    }
  }

  /** Each field of a backup entry is the field of that name of its row and record. */
  lemma BackupFields(P: Prims, v: VaultData, k: Key, rows: seq<Row>, i: nat)
    requires ExportEntries(P, v, k, rows).Ok? && i < |rows|
    ensures DecryptEntry(P, v, k, rows[i].id).Ok?
    ensures var e, record := ExportEntries(P, v, k, rows).value[i], DecryptEntry(P, v, k, rows[i].id).value;
            && e.id == rows[i].id && e.name == rows[i].body.name && e.policy == P.policyToBytes(rows[i].body.policy)
            && e.username == record.username && e.password == record.password
            && e.url == record.url && e.notes == record.notes
  {
    hide DecryptEntry;
    ExportedEntries(P, v, k, rows);
  }

  /** Why the first row that cannot be read cannot. */
  function FirstUnreadable(P: Prims, v: VaultData, k: Key, rows: seq<Row>): Option<Error>
    decreases |rows|
  {
    if rows == [] then None
    else if DecryptEntry(P, v, k, rows[0].id).Err? then Some(DecryptEntry(P, v, k, rows[0].id).error)
    else FirstUnreadable(P, v, k, rows[1..])
  }

  lemma {:induction false} UnreadableExport(P: Prims, v: VaultData, k: Key, rows: seq<Row>)
    ensures FirstUnreadable(P, v, k, rows).None? <==> Readable(P, v, k, rows)
    ensures FirstUnreadable(P, v, k, rows).Some? ==>
              ExportEntries(P, v, k, rows) == Err(FirstUnreadable(P, v, k, rows).value)
    decreases |rows|
  {
    hide DecryptEntry, RecoveryEntryFrom;
    if rows != [] {
      UnreadableExport(P, v, k, rows[1..]);
      assert rows == [rows[0]] + rows[1..];
    }
  }

  /** A rebuild stops at the first entry that cannot be read, with its error. */
  lemma UnreadableRebuild(P: Prims, src: VaultData, ks: Key, rows: seq<Row>, salt: Salt, kdf: KdfParams, kd: Key,
                          now: i64, probeNonce: Nonce, indexNonce: Nonce, rng: Rng)
    requires OpenIndex(P, src, ks) == Ok(rows)
    requires CheckBlobs(src.kHsmBlob, src.totpBlob).Ok? && IndexFits(P, FORMAT_VERSION, rows)
    ensures FirstUnreadable(P, src, ks, rows).Some? ==>
              Reencrypt(P, src, ks, rows, salt, kdf, kd, now, probeNonce, indexNonce, rng)
              == Err(FirstUnreadable(P, src, ks, rows).value)
  {
    OpenedNoDup(P, src, ks);
    PrefixFits(P, rows, 0);
    hide OpenIndex, IndexFits, CopyRows, FirstUnreadable, NoDup, SealProbe, SealIndex, VerifyProbe, Copied, Holds;
    var meta := src.meta.(lastPasswordChange := now);
    assert rows[..0] == [] && rows[0..] == rows;
    CreateIsEmpty(P, kdf, salt, src.kHsmBlob, src.totpBlob, meta, kd, probeNonce, indexNonce);
    var dst := Create(P, kdf, salt, src.kHsmBlob, src.totpBlob, meta, kd, probeNonce, indexNonce).value;
    NothingCopied(P, src, ks, dst, kd, rows);
    UnreadableCopy(P, src, ks, dst, kd, rows, 0, rng);
  }

  lemma {:induction false} UnreadableCopy(P: Prims, src: VaultData, ks: Key, dst: VaultData, kd: Key, rows: seq<Row>,
                                          i: nat, rng: Rng)
    requires i <= |rows| && NoDup(Ids(rows)) && IndexFits(P, FORMAT_VERSION, rows)
    requires dst.version == FORMAT_VERSION && Copied(P, src, ks, dst, kd, rows, i)
    ensures FirstUnreadable(P, src, ks, rows[i..]).Some? ==>
              CopyRows(P, src, ks, dst, kd, rows, i, rng) == Err(FirstUnreadable(P, src, ks, rows[i..]).value)
    decreases |rows| - i
  {
    hide Copied, DecryptEntry, AddOrUpdate, IndexFits, NoDup;
    if i < |rows| {
      assert rows[i..][0] == rows[i] && rows[i..][1..] == rows[i + 1..];
      if DecryptEntry(P, src, ks, rows[i].id).Ok? {
        CopyOne(P, src, ks, dst, kd, rows, i, rng(i));
        var record := DecryptEntry(P, src, ks, rows[i].id).value;
        var w := AddOrUpdate(P, dst, kd, rows[i].id, rows[i].body, record, rng(i).0, rng(i).1).0;
        UnreadableCopy(P, src, ks, w, kd, rows, i + 1, rng);
      }
    }
  }

  lemma {:induction false} ImportCopies(P: Prims, src: VaultData, ks: Key, dst: VaultData, kd: Key, rows: seq<Row>,
                                        es: seq<RecoveryEntry>, i: nat, rng: Rng)
    requires ExportEntries(P, src, ks, rows) == Ok(es)
    requires i <= |rows| && NoDup(Ids(rows)) && IndexFits(P, FORMAT_VERSION, rows)
    requires dst.version == FORMAT_VERSION && Copied(P, src, ks, dst, kd, rows, i)
    ensures var r := ImportEntries(P, dst, kd, es, i, rng);
            r.Ok? && SameHeader(dst, r.value) && Copied(P, src, ks, r.value, kd, rows, |rows|)
    decreases |rows| - i
  {
    hide Copied, DecryptEntry, AddOrUpdate, IndexFits, RecoveryEntryFrom, ImportEntryParts, ExportEntries;
    if i < |rows| {
      ExportedEntries(P, src, ks, rows);
      var record := DecryptEntry(P, src, ks, rows[i].id).value;
      PartsRoundTrip(P, rows[i], record);
      CopyOne(P, src, ks, dst, kd, rows, i, rng(i));
      ImportCopies(P, src, ks, AddOrUpdate(P, dst, kd, rows[i].id, rows[i].body, record, rng(i).0, rng(i).1).0,
                   kd, rows, es, i + 1, rng);
    }
  }

  /**
   * Backing up rows read under `k` and restoring under the same password gives a vault that
   * opens to the same rows, holds what those rows read, carries the same TOTP seed and
   * verifies its probe; in particular it holds the same map when `k` opens the original.
   */
  lemma BackupThenRestore(P: Prims, v: VaultData, k: Key, rows: seq<Row>, seed: Seed, password: Text,
                          preset: RecoveryPreset, exportAvailable: Option<u64>, salt: Salt, nonce: Nonce,
                          kdf: KdfParams, importAvailable: Option<u64>, available: Option<u64>, now: i64, f: Fresh)
    requires NoDup(Ids(rows)) && IndexFits(P, FORMAT_VERSION, rows)
    requires Backup(P, v, k, rows, seed, password, preset, exportAvailable, salt, nonce).Ok?
    requires SealFits(Payload(seed, v.kdf, ExportEntries(P, v, k, rows).value))
    requires Derivable(PresetParams(preset), importAvailable) && Derivable(kdf, available)
    requires CheckBlobs(f.kHsmBlob, f.seedBlob).Ok?
    ensures var file := Backup(P, v, k, rows, seed, password, preset, exportAvailable, salt, nonce).value;
            var r := Restore(P, file, password, kdf, importAvailable, available, now, f);
            && r.Ok? && r.value.seed == seed
            && OpenIndex(P, r.value.vault, r.value.kMaster) == Ok(rows)
            && Holds(P, r.value.vault, r.value.kMaster) == ContentsOf(P, v, k, rows)
            && (OpenIndex(P, v, k) == Ok(rows) ==> Holds(P, r.value.vault, r.value.kMaster) == Holds(P, v, k))
            && VerifyProbe(P, r.value.vault, r.value.kMaster) == Ok(())
  {
    hide OpenIndex, DecryptEntry, ExportEntries, ImportEntries, ImportFile, ExportFile, Create, VerifyProbe,
         SealFits, Argon2id, ContentsOf;
    var es := ExportEntries(P, v, k, rows).value;
    var payload := Payload(seed, v.kdf, es);
    DerivableDerives(P, password, f.vaultSalt, kdf, f.kHsm, available);
    var file := Backup(P, v, k, rows, seed, password, preset, exportAvailable, salt, nonce).value;
    ExportImports(P, payload, password, PresetParams(preset), exportAvailable, salt, nonce, importAvailable);
    var kd := DeriveMaster(P, password, f.vaultSalt, kdf, f.kHsm, available).value;
    RestoreEntries(P, v, k, rows, es, kd, kdf, now, f);
  }

  lemma DerivableDerives(P: Prims, password: Text, salt: Salt, kdf: KdfParams, kHsm: Key, available: Option<u64>)
    requires Derivable(kdf, available)
    ensures DeriveMaster(P, password, salt, kdf, kHsm, available).Ok?
  {
  }

  // ----- The rebuilt file -----------------------------------------------------------------

  lemma {:induction false} CopyRowsStamps(P: Prims, src: VaultData, ks: Key, dst: VaultData, kd: Key, rows: seq<Row>,
                                          i: nat, rng: Rng)
    requires i <= |rows| && Stamped(dst.envelopes)
    ensures var r := CopyRows(P, src, ks, dst, kd, rows, i, rng); r.Ok? ==> Stamped(r.value.envelopes)
    decreases |rows| - i
  {
    hide Stamped, DecryptEntry, AddOrUpdate;
    if i < |rows| && DecryptEntry(P, src, ks, rows[i].id).Ok? {
      var op := Add(rows[i].id, rows[i].body, DecryptEntry(P, src, ks, rows[i].id).value, rng(i).0, rng(i).1);
      AddKeepsStamps(P, kd, dst, op);
      CopyRowsStamps(P, src, ks, Apply(P, kd, dst, op), kd, rows, i + 1, rng);
    }
  }

  lemma {:induction false} ImportStamps(P: Prims, dst: VaultData, kd: Key, es: seq<RecoveryEntry>, i: nat, rng: Rng)
    requires i <= |es| && Stamped(dst.envelopes)
    ensures var r := ImportEntries(P, dst, kd, es, i, rng); r.Ok? ==> Stamped(r.value.envelopes)
    decreases |es| - i
  {
    hide Stamped, AddOrUpdate, ImportEntryParts;
    if i < |es| && ImportEntryParts(P, es[i]).Ok? {
      var (row, record) := ImportEntryParts(P, es[i]).value;
      var op := Add(row.id, row.body, record, rng(i).0, rng(i).1);
      AddKeepsStamps(P, kd, dst, op);
      ImportStamps(P, Apply(P, kd, dst, op), kd, es, i + 1, rng);
    }
  }

  /** The file written after a password change parses back to the vault that was built. */
  lemma ReencryptedReparses(P: Prims, src: VaultData, ks: Key, rows: seq<Row>, salt: Salt, kdf: KdfParams, kd: Key,
                            now: i64, probeNonce: Nonce, indexNonce: Nonce, rng: Rng)
    requires OpenIndex(P, src, ks) == Ok(rows)
    requires CheckBlobs(src.kHsmBlob, src.totpBlob).Ok? && IndexFits(P, FORMAT_VERSION, rows)
    ensures var r := Reencrypt(P, src, ks, rows, salt, kdf, kd, now, probeNonce, indexNonce, rng);
            r.Ok? && Small(r.value) ==> WellFormed(r.value) && Parse(Serialize(r.value)) == Ok(r.value)
  {
    var r := Reencrypt(P, src, ks, rows, salt, kdf, kd, now, probeNonce, indexNonce, rng);
    if r.Ok? && Small(r.value) {
      var meta := src.meta.(lastPasswordChange := now);
      var dst := Create(P, kdf, salt, src.kHsmBlob, src.totpBlob, meta, kd, probeNonce, indexNonce).value;
      CopyRowsStamps(P, src, ks, dst, kd, rows, 0, rng);
      CopyRowsHeader(P, src, ks, dst, kd, rows, 0, rng);
      SmallIsWellFormed(r.value);
      CodecRoundTrip(r.value);
    }
    hide OpenIndex, DecryptEntry, CopyRows, SealProbe, SealIndex, Small, WellFormed, Parse, Serialize, Stamped;
  }

  lemma {:induction false} CopyRowsHeader(P: Prims, src: VaultData, ks: Key, dst: VaultData, kd: Key, rows: seq<Row>,
                                          i: nat, rng: Rng)
    requires i <= |rows|
    ensures var r := CopyRows(P, src, ks, dst, kd, rows, i, rng); r.Ok? ==> SameHeader(dst, r.value)
    decreases |rows| - i
  {
    hide DecryptEntry, DecryptIndex, EncryptEntry, SealIndex, Put;
    if i < |rows| && DecryptEntry(P, src, ks, rows[i].id).Ok? {
      var record := DecryptEntry(P, src, ks, rows[i].id).value;
      var w := AddOrUpdate(P, dst, kd, rows[i].id, rows[i].body, record, rng(i).0, rng(i).1).0;
      CopyRowsHeader(P, src, ks, w, kd, rows, i + 1, rng);
    }
  }

  lemma RestoreEntries(P: Prims, v: VaultData, k: Key, rows: seq<Row>, es: seq<RecoveryEntry>, kd: Key,
                       kdf: KdfParams, now: i64, f: Fresh)
    requires NoDup(Ids(rows)) && IndexFits(P, FORMAT_VERSION, rows)
    requires ExportEntries(P, v, k, rows) == Ok(es) && CheckBlobs(f.kHsmBlob, f.seedBlob).Ok?
    ensures var meta := Metadata(now, None);
            var dst := Create(P, kdf, f.vaultSalt, f.kHsmBlob, f.seedBlob, meta, kd, f.probeNonce, f.indexNonce);
            && dst.Ok?
            && var r := ImportEntries(P, dst.value, kd, es, 0, f.rng);
            && r.Ok? && OpenIndex(P, r.value, kd) == Ok(rows) && Holds(P, r.value, kd) == ContentsOf(P, v, k, rows)
            && VerifyProbe(P, r.value, kd) == Ok(())
  {
    var meta := Metadata(now, None);
    PrefixFits(P, rows, 0);
    assert rows[..0] == [];
    CreateIsEmpty(P, kdf, f.vaultSalt, f.kHsmBlob, f.seedBlob, meta, kd, f.probeNonce, f.indexNonce);
    var dst := Create(P, kdf, f.vaultSalt, f.kHsmBlob, f.seedBlob, meta, kd, f.probeNonce, f.indexNonce).value;
    NothingCopied(P, v, k, dst, kd, rows);
    ImportCopies(P, v, k, dst, kd, rows, es, 0, f.rng);
    var w := ImportEntries(P, dst, kd, es, 0, f.rng).value;
    CopiedHoldsSame(P, v, k, w, kd, rows);
    SameProbe(P, dst, w, kd);
    hide OpenIndex, DecryptEntry, ExportEntries, ImportEntries, SealProbe, SealIndex, VerifyProbe, Holds, IndexFits,
         Copied, Ids, ContentsOf;
  }
}
