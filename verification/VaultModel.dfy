/**
 * The vault as a value: its fields, what each operation does to them, and the
 * ordered map `id -> (label, policy, record)` they stand for under a master key.
 */
module VaultModel {
  import opened Bytes
  import opened Errors
  import opened Types
  import opened Primitives
  import opened KeyedLists
  import opened Records

  const FORMAT_VERSION: byte := 0x02
  const FORMAT_VERSION_LEGACY_V1: byte := 0x01
  const KDF_ALGORITHM_ARGON2ID: byte := 0x00
  const MAX_HSM_BLOB_LEN: nat := U16_MAX
  const PROBE_CT_LEN: nat := 32

  function ProbePlaintext(): (b: bytes)
    ensures |b| == 16
  {
    Ascii("PASSMAN_VAULT_v0")
  }

  function ProbeAdTag(): bytes { Ascii("probe-v0") }

  function IndexInfo(): bytes { Ascii("index-v0") }

  function EntryInfo(id: Id): bytes { Ascii("entry-v0:") + id }

  type ProbeCt = c: bytes | |c| == PROBE_CT_LEN witness Zeros(PROBE_CT_LEN)

  datatype Metadata = Metadata(lastPasswordChange: i64, lastExportAt: Option<i64>)

  datatype Sealed = Sealed(nonce: Nonce, ctLen: u32, ct: bytes)

  type Envelope = Keyed<Sealed>

  datatype VaultData = VaultData(
    version: byte, kdfId: byte, kdf: KdfParams, salt: Salt,
    probeNonce: Nonce, probeCt: ProbeCt, kHsmBlob: bytes, totpBlob: bytes,
    rlCounter: u64, rlLast: i64, meta: Metadata,
    indexNonce: Nonce, indexCt: bytes, envelopes: seq<Envelope>)

  // ----- Keys and associated data ------------------------------------------------

  /** `KdfParams::to_bytes` */
  function KdfBytes(k: KdfParams): (b: bytes)
    ensures |b| == 9
  {
    LE(k.mKib, 4) + LE(k.t, 4) + [k.p]
  }

  function ProbeAd(version: byte, kdfId: byte, kdf: KdfParams, salt: Salt): bytes {
    [version, kdfId] + KdfBytes(kdf) + salt + ProbeAdTag()
  }

  function EntryAd(version: byte, id: Id): bytes { [version] + id }

  function EntryKey(P: Prims, k: Key, id: Id): Key { P.expand(k, EntryInfo(id)) }

  function IndexKey(P: Prims, k: Key): Key { P.expand(k, IndexInfo()) }

  // ----- Reading -------------------------------------------------------------------

  function VerifyProbe(P: Prims, v: VaultData, k: Key): Result<(), Error> {
    match P.opening(k, v.probeNonce, ProbeAd(v.version, v.kdfId, v.kdf, v.salt), v.probeCt)
    case None => Err(AeadAuth)
    case Some(p) => if p == ProbePlaintext() then Ok(()) else Err(AeadAuth)
  }

  function IndexPlaintext(version: byte, postcard: bytes): bytes {
    if version == FORMAT_VERSION_LEGACY_V1 then postcard else Pad(postcard)
  }

  function DecryptIndex(P: Prims, v: VaultData, k: Key): Result<seq<Row>, Error> {
    match P.opening(IndexKey(P, k), v.indexNonce, [v.version], v.indexCt)
    case None => Err(AeadAuth)
    case Some(p) =>
      var postcard :- if v.version == FORMAT_VERSION_LEGACY_V1 then Ok(p) else Unpad(p);
      match P.rowsFromBytes(postcard)
      case None => Err(MalformedRecord(NotPostcard))
      case Some(rows) => Ok(rows)
  }

  ghost function OpenIndex(P: Prims, v: VaultData, k: Key): Result<seq<Row>, Error> {
    var rows :- DecryptIndex(P, v, k);
    if SameIds(Ids(rows), Ids(v.envelopes)) then Ok(rows) else Err(IndexMismatch)
  }

  function DecryptEntry(P: Prims, v: VaultData, k: Key, id: Id): Result<EntryRecord, Error> {
    match Find(v.envelopes, id)
    case None => Err(EntryNotFound)
    case Some(e) =>
      match P.opening(EntryKey(P, k, id), e.nonce, EntryAd(v.version, id), e.ct)
      case None => Err(AeadAuth)
      case Some(p) => DecodeRecord(p)
  }

  // ----- Writing ---------------------------------------------------------------------

  function SealIndex(P: Prims, rows: seq<Row>, version: byte, k: Key, nonce: Nonce): bytes {
    P.sealing(IndexKey(P, k), nonce, [version], IndexPlaintext(version, P.rowsToBytes(rows)))
  }

  function Reseal(P: Prims, v: VaultData, rows: seq<Row>, k: Key, nonce: Nonce): VaultData {
    v.(indexNonce := nonce, indexCt := SealIndex(P, rows, v.version, k, nonce))
  }

  function EncryptEntry(P: Prims, k: Key, version: byte, id: Id, record: EntryRecord, nonce: Nonce): Sealed {
    var ct := P.sealing(EntryKey(P, k, id), nonce, EntryAd(version, id), EncodeRecord(record));
    Sealed(nonce, ClampU32(|ct|), ct)
  }

  function CheckBlobs(kHsmBlob: bytes, totpBlob: bytes): Result<(), Error> {
    if |kHsmBlob| > MAX_HSM_BLOB_LEN then Err(BlobTooLarge(KHsmWrapBlob))
    else if |totpBlob| > MAX_HSM_BLOB_LEN then Err(BlobTooLarge(TotpSeedWrapBlob))
    else Ok(())
  }

  function SealProbe(P: Prims, kdf: KdfParams, salt: Salt, k: Key, nonce: Nonce): ProbeCt {
    P.sealing(k, nonce, ProbeAd(FORMAT_VERSION, KDF_ALGORITHM_ARGON2ID, kdf, salt), ProbePlaintext())
  }

  function Create(P: Prims, kdf: KdfParams, salt: Salt, kHsmBlob: bytes, totpBlob: bytes,
                  meta: Metadata, k: Key, probeNonce: Nonce, indexNonce: Nonce): Result<VaultData, Error> {
    var _ :- CheckBlobs(kHsmBlob, totpBlob);
    Ok(VaultData(FORMAT_VERSION, KDF_ALGORITHM_ARGON2ID, kdf, salt,
                 probeNonce, SealProbe(P, kdf, salt, k, probeNonce), kHsmBlob, totpBlob,
                 0, 0, meta, indexNonce, SealIndex(P, [], FORMAT_VERSION, k, indexNonce), []))
  }

  /** The state is changed even when the index then fails to decrypt. */
  function AddOrUpdate(P: Prims, v: VaultData, k: Key, id: Id, body: RowBody, record: EntryRecord,
                       entryNonce: Nonce, indexNonce: Nonce): (VaultData, Result<(), Error>) {
    var w := v.(envelopes := Put(v.envelopes, id, EncryptEntry(P, k, v.version, id, record, entryNonce)));
    match DecryptIndex(P, w, k)
    case Err(e) => (w, Err(e))
    case Ok(rows) => (Reseal(P, w, Put(rows, id, body), k, indexNonce), Ok(()))
  }

  function Remove(P: Prims, v: VaultData, k: Key, id: Id, indexNonce: Nonce): (VaultData, Result<(), Error>) {
    var w := v.(envelopes := Without(v.envelopes, id));
    if |w.envelopes| == |v.envelopes| then (w, Err(EntryNotFound))
    else
      match DecryptIndex(P, w, k)
      case Err(e) => (w, Err(e))
      case Ok(rows) => (Reseal(P, w, Without(rows, id), k, indexNonce), Ok(()))
  }

  // ----- The map a vault stands for -----------------------------------------------------

  datatype Entry = Entry(name: Text, policy: EntryPolicy, record: Result<EntryRecord, Error>)

  datatype Contents = Contents(order: seq<Id>, at: map<Id, Entry>)

  function EntryOf(P: Prims, v: VaultData, k: Key, id: Id, body: RowBody): Entry {
    Entry(body.name, body.policy, DecryptEntry(P, v, k, id))
  }

  function ContentsOf(P: Prims, v: VaultData, k: Key, rows: seq<Row>): Contents {
    Contents(Ids(rows), map id: Id | id in Ids(rows) :: EntryOf(P, v, k, id, Find(rows, id).value))
  }

  /** What a vault that opens holds. */
  ghost function Holds(P: Prims, v: VaultData, k: Key): Contents
    requires OpenIndex(P, v, k).Ok?
  {
    ContentsOf(P, v, k, OpenIndex(P, v, k).value)
  }

  function PutEntry(c: Contents, id: Id, e: Entry): Contents {
    Contents(if id in c.at then c.order else c.order + [id], c.at[id := e])
  }

  function DropEntry(c: Contents, id: Id): Contents { Contents(WithoutId(c.order, id), c.at - {id}) }

  /** Nothing outside the index and the envelopes differs. */
  predicate SameHeader(v: VaultData, w: VaultData) {
    w == v.(indexNonce := w.indexNonce, indexCt := w.indexCt, envelopes := w.envelopes)
  }

  /** The index plaintext does not overflow its length prefix (only v2 has one). */
  predicate IndexFits(P: Prims, version: byte, rows: seq<Row>) {
    version == FORMAT_VERSION_LEGACY_V1 || |P.rowsToBytes(rows)| <= U32_MAX
  }

  lemma ResealedIndexOpens(P: Prims, v: VaultData, rows: seq<Row>, k: Key, nonce: Nonce)
    requires IndexFits(P, v.version, rows)
    ensures DecryptIndex(P, Reseal(P, v, rows, k, nonce), k) == Ok(rows)
  {
    UnpadOfPad(P.rowsToBytes(rows));
  }

  lemma StoredEntryDecrypts(P: Prims, v: VaultData, k: Key, id: Id, record: EntryRecord, nonce: Nonce)
    requires RecordLen(record) <= U32_MAX
    requires Find(v.envelopes, id) == Some(EncryptEntry(P, k, v.version, id, record, nonce))
    ensures DecryptEntry(P, v, k, id) == Ok(record)
  {
    RecordRoundTrip(record);
  }

  /** An entry reads the same in two vaults of one version that hold the same envelope for it. */
  lemma EntryDependsOnEnvelope(P: Prims, v: VaultData, w: VaultData, k: Key, id: Id)
    requires v.version == w.version && Find(v.envelopes, id) == Find(w.envelopes, id)
    ensures DecryptEntry(P, v, k, id) == DecryptEntry(P, w, k, id)
  {
    hide DecodeRecord, ValidUtf8, EntryKey, Find;
  }

  /** Adding or updating an entry is an update of the map, in either format version. */
  lemma AddRefinesPut(P: Prims, v: VaultData, k: Key, id: Id, body: RowBody, record: EntryRecord,
                      entryNonce: Nonce, indexNonce: Nonce)
    requires OpenIndex(P, v, k).Ok?
    requires RecordLen(record) <= U32_MAX
    requires IndexFits(P, v.version, Put(OpenIndex(P, v, k).value, id, body))
    ensures var (w, r) := AddOrUpdate(P, v, k, id, body, record, entryNonce, indexNonce);
            && r.Ok? && SameHeader(v, w)
            && OpenIndex(P, w, k) == Ok(Put(OpenIndex(P, v, k).value, id, body))
            && Holds(P, w, k) == PutEntry(Holds(P, v, k), id, Entry(body.name, body.policy, Ok(record)))
            && (Ids(OpenIndex(P, v, k).value) == Ids(v.envelopes) ==> Ids(OpenIndex(P, w, k).value) == Ids(w.envelopes))
  {
    hide EncryptEntry, ContentsOf, ValidUtf8, IndexPlaintext, RecordLen;
    var rows := OpenIndex(P, v, k).value;
    var rows' := Put(rows, id, body);
    var sealed := EncryptEntry(P, k, v.version, id, record, entryNonce);
    var mid := v.(envelopes := Put(v.envelopes, id, sealed));
    assert DecryptIndex(P, mid, k) == DecryptIndex(P, v, k);
    var w := Reseal(P, mid, rows', k, indexNonce);
    ResealedIndexOpens(P, mid, rows', k, indexNonce);
    SameIdsPut(rows, v.envelopes, id, body, sealed);
    PutContents(P, v, w, k, rows, id, body, record, entryNonce);
  }

  lemma PutContents(P: Prims, v: VaultData, w: VaultData, k: Key, rows: seq<Row>, id: Id, body: RowBody,
                    record: EntryRecord, nonce: Nonce)
    requires RecordLen(record) <= U32_MAX && v.version == w.version
    requires w.envelopes == Put(v.envelopes, id, EncryptEntry(P, k, v.version, id, record, nonce))
    ensures ContentsOf(P, w, k, Put(rows, id, body))
         == PutEntry(ContentsOf(P, v, k, rows), id, Entry(body.name, body.policy, Ok(record)))
  {
    hide EncryptEntry, DecryptEntry, ValidUtf8, RecordLen, Put;
    var sealed := EncryptEntry(P, k, v.version, id, record, nonce);
    var a, b := ContentsOf(P, w, k, Put(rows, id, body)),
                PutEntry(ContentsOf(P, v, k, rows), id, Entry(body.name, body.policy, Ok(record)));
    IdsPut(rows, id, body);
    FindPut(v.envelopes, id, sealed, id);
    StoredEntryDecrypts(P, w, k, id, record, nonce);
    forall x | x in a.at ensures x in b.at && a.at[x] == b.at[x] {
      FindPut(rows, id, body, x);
      if x != id {
        FindPut(v.envelopes, id, sealed, x);
        EntryDependsOnEnvelope(P, v, w, k, x);
      }
    }
    assert a.at.Keys == b.at.Keys;
    assert a.at == b.at;
  }

  /** Dropping the envelope and the row of one id, with nothing else changed, deletes it from the map. */
  lemma DroppedOpens(P: Prims, v: VaultData, w: VaultData, k: Key, rows: seq<Row>, id: Id)
    requires OpenIndex(P, v, k) == Ok(rows) && w.version == v.version
    requires w.envelopes == Without(v.envelopes, id) && DecryptIndex(P, w, k) == Ok(Without(rows, id))
    ensures OpenIndex(P, w, k) == Ok(Without(rows, id)) && Holds(P, w, k) == DropEntry(Holds(P, v, k), id)
    ensures Ids(rows) == Ids(v.envelopes) ==> Ids(Without(rows, id)) == Ids(w.envelopes)
  {
    hide DecryptIndex, ContentsOf, DropEntry, Without;
    SameIdsWithout(rows, v.envelopes, id);
    WithoutContents(P, v, w, k, rows, id);
  }

  /** Removing an entry deletes it from the map; a missing id changes nothing. */
  lemma RemoveRefinesDrop(P: Prims, v: VaultData, k: Key, id: Id, indexNonce: Nonce)
    requires OpenIndex(P, v, k).Ok?
    requires id in Ids(v.envelopes) ==> IndexFits(P, v.version, Without(OpenIndex(P, v, k).value, id))
    ensures var (w, r) := Remove(P, v, k, id, indexNonce);
            && (id !in Ids(v.envelopes) ==> r == Err(EntryNotFound) && w == v)
            && (id in Ids(v.envelopes) ==> r.Ok?)
            && SameHeader(v, w)
            && OpenIndex(P, w, k) == Ok(Without(OpenIndex(P, v, k).value, id))
            && Holds(P, w, k) == DropEntry(Holds(P, v, k), id)
            && (Ids(OpenIndex(P, v, k).value) == Ids(v.envelopes) ==> Ids(OpenIndex(P, w, k).value) == Ids(w.envelopes))
  {
    var rows := OpenIndex(P, v, k).value;
    var mid := v.(envelopes := Without(v.envelopes, id));
    assert DecryptIndex(P, mid, k) == DecryptIndex(P, v, k);
    hide DecryptIndex, IndexFits, Holds, DropEntry, SealIndex, Without, SameIds;
    WithoutLen(v.envelopes, id);
    if id in Ids(v.envelopes) {
      ResealedIndexOpens(P, mid, Without(rows, id), k, indexNonce);
    } else {
      WithoutLen(rows, id);
      assert id !in Ids(rows) by { SameIdsMembers(rows, v.envelopes, id); }
    }
    DroppedOpens(P, v, Remove(P, v, k, id, indexNonce).0, k, rows, id);
  }

  lemma SameIdsMembers<V, W>(l: seq<Keyed<V>>, m: seq<Keyed<W>>, id: Id)
    requires SameIds(Ids(l), Ids(m))
    ensures id in Ids(l) <==> id in Ids(m)
  {
  }

  lemma {:induction false} WithoutLen<V>(l: seq<Keyed<V>>, id: Id)
    ensures |Without(l, id)| <= |l|
    ensures |Without(l, id)| == |l| <==> id !in Ids(l)
    ensures id !in Ids(l) ==> Without(l, id) == l
  {
    if l != [] {
      WithoutLen(l[1..], id);
      assert Ids(l) == [l[0].id] + Ids(l[1..]);
      assert l == [l[0]] + l[1..];
    }
  }

  lemma WithoutContents(P: Prims, v: VaultData, w: VaultData, k: Key, rows: seq<Row>, id: Id)
    requires v.version == w.version && w.envelopes == Without(v.envelopes, id)
    ensures ContentsOf(P, w, k, Without(rows, id)) == DropEntry(ContentsOf(P, v, k, rows), id)
  {
    hide DecryptEntry, ValidUtf8, Without, WithoutId, Find;
    var a, b := ContentsOf(P, w, k, Without(rows, id)), DropEntry(ContentsOf(P, v, k, rows), id);
    IdsWithout(rows, id);
    forall x | x in a.at ensures x in b.at && a.at[x] == b.at[x] {
      FindWithout(rows, id, x);
      FindWithout(v.envelopes, id, x);
      EntryDependsOnEnvelope(P, v, w, k, x);
    }
    assert a.at.Keys == b.at.Keys;
    assert a.at == b.at;
  }

  /** A new vault is empty, opens, and its probe verifies under the key it was made with. */
  lemma CreateIsEmpty(P: Prims, kdf: KdfParams, salt: Salt, kHsmBlob: bytes, totpBlob: bytes,
                      meta: Metadata, k: Key, probeNonce: Nonce, indexNonce: Nonce)
    requires IndexFits(P, FORMAT_VERSION, [])
    ensures var r := Create(P, kdf, salt, kHsmBlob, totpBlob, meta, k, probeNonce, indexNonce);
            && (r.Ok? <==> |kHsmBlob| <= MAX_HSM_BLOB_LEN && |totpBlob| <= MAX_HSM_BLOB_LEN)
            && (r.Ok? ==> VerifyProbe(P, r.value, k) == Ok(()) && OpenIndex(P, r.value, k) == Ok([])
                          && Holds(P, r.value, k) == Contents([], map[]))
  {
    hide ProbeAd, ProbePlaintext, IndexPlaintext;
    var r := Create(P, kdf, salt, kHsmBlob, totpBlob, meta, k, probeNonce, indexNonce);
    if r.Ok? {
      ResealedIndexOpens(P, r.value, [], k, indexNonce);
      assert Reseal(P, r.value, [], k, indexNonce) == r.value;
    }
  }
}
