/** The mutable index and vault objects, proved against the vault model. */
module Vault {
  import opened Bytes
  import opened Errors
  import opened Types
  import opened Primitives
  import opened Cursors
  import opened KeyedLists
  import opened SortIds
  import opened Records
  import opened VaultModel
  import opened VaultCodec

  /** The decrypted index: an ordered list of rows. */
  class Index {
    var rows: seq<Row>

    constructor (rows: seq<Row>)
      ensures this.rows == rows
    {
      this.rows := rows;
    }

    method Position(id: Id) returns (slot: Option<nat>)
      ensures slot.Some? ==> slot.value < |rows| && rows[slot.value].id == id
      ensures forall j :: 0 <= j < (if slot.Some? then slot.value else |rows|) ==> rows[j].id != id
    {
      for i := 0 to |rows|
        invariant forall j :: 0 <= j < i ==> rows[j].id != id
      {
        if rows[i].id == id { return Some(i); }
      }
      return None;
    }

    /** Overwrites the first row with this id, or pushes a new one. */
    method Upsert(id: Id, body: RowBody) returns (replaced: bool)
      modifies this
      ensures rows == Put(old(rows), id, body)
      ensures replaced <==> id in Ids(old(rows))
    {
      var slot := Position(id);
      match slot
      case Some(i) =>
        PutAt(rows, id, body, i);
        assert Ids(rows)[i] == id;
        rows := rows[i := Keyed(id, body)];
        return true;
      case None =>
        PutNew(rows, id, body);
        rows := rows + [Keyed(id, body)];
        return false;
    }

    method Remove(id: Id) returns (removed: bool)
      modifies this
      ensures rows == Without(old(rows), id)
      ensures removed <==> id in Ids(old(rows))
    {
      var before := |rows|;
      WithoutLen(rows, id);
      rows := Without(rows, id);
      return |rows| != before;
    }
  }

  lemma {:induction false} PutAt<V>(l: seq<Keyed<V>>, id: Id, v: V, i: nat)
    requires i < |l| && l[i].id == id && forall j :: 0 <= j < i ==> l[j].id != id
    ensures Put(l, id, v) == l[i := Keyed(id, v)]
  {
    if i > 0 {
      PutAt(l[1..], id, v, i - 1);
      assert l[i := Keyed(id, v)] == [l[0]] + l[1..][i - 1 := Keyed(id, v)];
    }
  }

  class Vault {
    const P: Prims
    var formatVersion: byte
    var kdfAlgorithmId: byte
    var kdfParams: KdfParams
    var salt: Salt
    var probeNonce: Nonce
    var probeCt: VaultModel.ProbeCt
    var kHsmWrapBlob: bytes
    var totpSeedWrapBlob: bytes
    var rlCounter: u64
    var rlLastFailure: i64
    var metadata: Metadata
    var sealedIndexNonce: Nonce
    var sealedIndexCt: bytes
    var envelopes: seq<Envelope>

    function View(): VaultData
      reads this
    {
      VaultData(formatVersion, kdfAlgorithmId, kdfParams, salt, probeNonce, probeCt,
                kHsmWrapBlob, totpSeedWrapBlob, rlCounter, rlLastFailure, metadata,
                sealedIndexNonce, sealedIndexCt, envelopes)
    }

    constructor (P: Prims, d: VaultData)
      ensures this.P == P && View() == d
    {
      this.P := P;
      formatVersion, kdfAlgorithmId, kdfParams := d.version, d.kdfId, d.kdf;
      salt, probeNonce, probeCt := d.salt, d.probeNonce, d.probeCt;
      kHsmWrapBlob, totpSeedWrapBlob := d.kHsmBlob, d.totpBlob;
      rlCounter, rlLastFailure, metadata := d.rlCounter, d.rlLast, d.meta;
      sealedIndexNonce, sealedIndexCt, envelopes := d.indexNonce, d.indexCt, d.envelopes;
    }

    /** The two random nonces are arguments. */
    static method Create(P: Prims, kdf: KdfParams, vaultSalt: Salt, kHsm: bytes, totp: bytes,
                         metadata: Metadata, kMaster: Key, probeNonce: Nonce, indexNonce: Nonce)
      returns (r: Result<Vault, Error>)
      ensures match VaultModel.Create(P, kdf, vaultSalt, kHsm, totp, metadata, kMaster, probeNonce, indexNonce)
              case Ok(d) => r.Ok? && fresh(r.value) && r.value.View() == d && r.value.P == P
              case Err(e) => r == Err(e)
    {
      hide SealProbe, SealIndex;
      if |kHsm| > MAX_HSM_BLOB_LEN { return Err(BlobTooLarge(KHsmWrapBlob)); }
      if |totp| > MAX_HSM_BLOB_LEN { return Err(BlobTooLarge(TotpSeedWrapBlob)); }
      var probeCt := SealProbe(P, kdf, vaultSalt, kMaster, probeNonce);
      var indexCt := SealIndexRows(P, [], FORMAT_VERSION, kMaster, indexNonce);
      var v := new Vault(P, VaultData(FORMAT_VERSION, KDF_ALGORITHM_ARGON2ID, kdf, vaultSalt, probeNonce, probeCt,
                                      kHsm, totp, 0, 0, metadata, indexNonce, indexCt, []));
      return Ok(v);
    }

    static method SealIndexRows(P: Prims, rows: seq<Row>, version: byte, kMaster: Key, nonce: Nonce)
      returns (ct: bytes)
      ensures ct == SealIndex(P, rows, version, kMaster, nonce)
    {
      var plaintext := P.rowsToBytes(rows);
      if version != FORMAT_VERSION_LEGACY_V1 {
        plaintext := PadIndexPlaintext(plaintext);
      }
      ct := P.sealing(IndexKey(P, kMaster), nonce, [version], plaintext);
    }

    method DecryptTheIndex(kMaster: Key) returns (r: Result<Index, Error>)
      ensures match DecryptIndex(P, View(), kMaster)
              case Ok(rows) => r.Ok? && fresh(r.value) && r.value.rows == rows
              case Err(e) => r == Err(e)
    {
      match P.opening(IndexKey(P, kMaster), sealedIndexNonce, [formatVersion], sealedIndexCt) {
        case None => return Err(AeadAuth);
        case Some(plaintext) =>
          var postcard := plaintext;
          if formatVersion != FORMAT_VERSION_LEGACY_V1 {
            postcard :- Unpad(plaintext);
          }
          match P.rowsFromBytes(postcard) {
            case None => return Err(MalformedRecord(NotPostcard));
            case Some(rows) =>
              var index := new Index(rows);
              return Ok(index);
          }
      }
    }

    static method HasAdjacentDuplicate(ids: seq<Id>) returns (dup: bool)
      ensures dup <==> !AdjacentDistinct(ids)
    {
      var i := 1;
      while i < |ids|
        invariant forall j :: 0 < j < i && j < |ids| ==> ids[j - 1] != ids[j]
      {
        if ids[i - 1] == ids[i] { return true; }
        i := i + 1;
      }
      return false;
    }

    /** Ok exactly when both id lists are duplicate-free and equal as sets. */
    method CheckIndexEnvelopeSets(index: Index) returns (r: Result<(), Error>)
      ensures r.Ok? <==> SameIds(Ids(index.rows), Ids(envelopes))
      ensures r.Err? ==> r.error == IndexMismatch
    {
      var indexIds, envIds := Ids(index.rows), Ids(envelopes);
      SortedCheckIsSameIds(indexIds, envIds);
      if |indexIds| != |envIds| { return Err(IndexMismatch); }
      indexIds, envIds := Sort(indexIds), Sort(envIds);
      var dup := HasAdjacentDuplicate(indexIds);
      if dup { return Err(IndexMismatch); }
      dup := HasAdjacentDuplicate(envIds);
      if dup { return Err(IndexMismatch); }
      if indexIds != envIds { return Err(IndexMismatch); }
      return Ok(());
    }

    method OpenTheIndex(kMaster: Key) returns (r: Result<Index, Error>)
      ensures match OpenIndex(P, View(), kMaster)
              case Ok(rows) => r.Ok? && fresh(r.value) && r.value.rows == rows
              case Err(e) => r == Err(e)
    {
      hide DecryptIndex, SameIds;
      var index :- DecryptTheIndex(kMaster);
      var _ :- CheckIndexEnvelopeSets(index);
      return Ok(index);
    }

    method ResealIndex(index: Index, kMaster: Key, nonce: Nonce)
      modifies this
      ensures View() == Reseal(P, old(View()), old(index.rows), kMaster, nonce)
    {
      var ct := SealIndexRows(P, index.rows, formatVersion, kMaster, nonce);
      sealedIndexNonce, sealedIndexCt := nonce, ct;
    }

    static method SealEntry(P: Prims, kMaster: Key, version: byte, id: Id, record: EntryRecord, nonce: Nonce)
      returns (s: Sealed)
      ensures s == EncryptEntry(P, kMaster, version, id, record, nonce)
    {
      var padded := EncodePadded(record);
      var ct := P.sealing(EntryKey(P, kMaster, id), nonce, EntryAd(version, id), padded);
      s := Sealed(nonce, ClampU32(|ct|), ct);
    }

    method ReadEntry(kMaster: Key, id: Id) returns (r: Result<EntryRecord, Error>)
      ensures r == DecryptEntry(P, View(), kMaster, id)
    {
      match Find(envelopes, id) {
        case None => return Err(EntryNotFound);
        case Some(e) =>
          match P.opening(EntryKey(P, kMaster, id), e.nonce, EntryAd(formatVersion, id), e.ct) {
            case None => return Err(AeadAuth);
            case Some(plaintext) => r := Decode(plaintext);
          }
      }
    }

    method AddOrUpdateEntry(kMaster: Key, id: Id, body: RowBody, record: EntryRecord,
                            entryNonce: Nonce, indexNonce: Nonce) returns (r: Result<(), Error>)
      modifies this
      ensures (View(), r) == AddOrUpdate(P, old(View()), kMaster, id, body, record, entryNonce, indexNonce)
    {
      hide EncryptEntry, DecryptIndex, SealIndex, Put;
      var sealed := SealEntry(P, kMaster, formatVersion, id, record, entryNonce);
      envelopes := Put(envelopes, id, sealed);
      var index :- DecryptTheIndex(kMaster);
      var _ := index.Upsert(id, body);
      ResealIndex(index, kMaster, indexNonce);
      return Ok(());
    }

    method RemoveEntry(kMaster: Key, id: Id, indexNonce: Nonce) returns (r: Result<(), Error>)
      modifies this
      ensures (View(), r) == Remove(P, old(View()), kMaster, id, indexNonce)
    {
      hide DecryptIndex, SealIndex, Without;
      var before := |envelopes|;
      envelopes := Without(envelopes, id);
      if |envelopes| == before { return Err(EntryNotFound); }
      var index :- DecryptTheIndex(kMaster);
      var _ := index.Remove(id);
      ResealIndex(index, kMaster, indexNonce);
      return Ok(());
    }

    method SetMetadata(m: Metadata)
      modifies this
      ensures View() == old(View()).(meta := m)
    {
      metadata := m;
    }

    method SetRateLimit(counter: u64, lastFailure: i64)
      modifies this
      ensures View() == old(View()).(rlCounter := counter, rlLast := lastFailure)
    {
      rlCounter, rlLastFailure := counter, lastFailure;
    }

    /** Both blobs are checked before either is stored. */
    method SetHsmBlobs(kHsm: bytes, totp: bytes) returns (r: Result<(), Error>)
      modifies this
      ensures r == CheckBlobs(kHsm, totp)
      ensures View() == if r.Ok? then old(View()).(kHsmBlob := kHsm, totpBlob := totp) else old(View())
    {
      if |kHsm| > MAX_HSM_BLOB_LEN { return Err(BlobTooLarge(KHsmWrapBlob)); }
      if |totp| > MAX_HSM_BLOB_LEN { return Err(BlobTooLarge(TotpSeedWrapBlob)); }
      kHsmWrapBlob, totpSeedWrapBlob := kHsm, totp;
      return Ok(());
    }

    method CheckProbe(kMaster: Key) returns (r: Result<(), Error>)
      ensures r == VerifyProbe(P, View(), kMaster)
    {
      match P.opening(kMaster, probeNonce, ProbeAd(formatVersion, kdfAlgorithmId, kdfParams, salt), probeCt) {
        case None => return Err(AeadAuth);
        case Some(recovered) => return if recovered == ProbePlaintext() then Ok(()) else Err(AeadAuth);
      }
    }

    // ----- Serialisation -----------------------------------------------------------

    method ToBytes() returns (out: bytes)
      ensures out == Serialize(View())
    {
      hide LE, KdfBytes;
      out := [formatVersion, kdfAlgorithmId] + KdfBytes(kdfParams) + salt + probeNonce + probeCt;
      ghost var h := out;
      assert h == HeaderBytes(HeaderOf(View()));
      out := out + PushU16Prefixed(kHsmWrapBlob) + PushU16Prefixed(totpSeedWrapBlob);
      ghost var b := BlobBytes(kHsmWrapBlob, totpSeedWrapBlob);
      assert out == h + b;
      var (present, exportTs) := if metadata.lastExportAt.Some? then (1, metadata.lastExportAt.value) else (0, 0);
      var state := LE(rlCounter, 8) + LE(I64Bits(rlLastFailure), 8) + LE(I64Bits(metadata.lastPasswordChange), 8)
                   + [present] + LE(I64Bits(exportTs), 8);
      assert state == StateBytes(StateOf(View()), 0);
      hide I64Bits, HeaderBytes, BlobBytes, StateBytes;
      out := out + state + sealedIndexNonce + PushU32Prefixed(sealedIndexCt);
      ghost var ix := IndexBytes(sealedIndexNonce, sealedIndexCt);
      assert out == h + b + state + ix;
      out := out + LE(ClampU32(|envelopes|), 4);
      ghost var start := out;
      var list := WriteEnvelopes();
      out := out + list;
      assert out == h + (b + (state + (ix + EntriesBytes(envelopes))));
    }

    method WriteEnvelopes() returns (out: bytes)
      ensures out == EnvelopeListBytes(envelopes)
    {
      hide EnvelopeBytes;
      out := [];
      for i := 0 to |envelopes|
        invariant out + EnvelopeListBytes(envelopes[i..]) == EnvelopeListBytes(envelopes)
      {
        assert envelopes[i..] == [envelopes[i]] + envelopes[i + 1..];
        assert envelopes[i..][1..] == envelopes[i + 1..];
        ConcatAssoc(out, EnvelopeBytes(envelopes[i]), EnvelopeListBytes(envelopes[i + 1..]));
        out := out + EnvelopeBytes(envelopes[i]);
      }
      assert envelopes[|envelopes|..] == [] && out + [] == out;
    }

    static method ReadVersions(rd: Reader) returns (r: Result<(byte, byte), Error>)
      requires rd.Valid()
      modifies rd
      ensures rd.Did(old(ParseVersions(rd.Here())), r)
    {
      var version :- rd.ReadU8(FormatVersion);
      if version != FORMAT_VERSION && version != FORMAT_VERSION_LEGACY_V1 {
        return Err(UnsupportedVersion(version));
      }
      var kdfId :- rd.ReadU8(KdfAlgorithmId);
      if kdfId != KDF_ALGORITHM_ARGON2ID {
        return Err(UnsupportedKdfAlgorithm(kdfId));
      }
      return Ok((version, kdfId));
    }

    static method ReadHeader(rd: Reader) returns (r: Result<Header, Error>)
      requires rd.Valid()
      modifies rd
      ensures rd.Did(old(ParseHeader(rd.Here())), r)
    {
      hide ParseVersions, KdfOfBytes;
      var versions :- ReadVersions(rd);
      var kdf :- rd.TakeBytes(9, KdfParamsField);
      var vaultSalt :- rd.TakeBytes(32, VaultSalt);
      var nonce :- rd.TakeBytes(24, ProbeNonce);
      var ct :- rd.TakeBytes(PROBE_CT_LEN, ProbeCt);
      return Ok(Header(versions.0, versions.1, KdfOfBytes(kdf), vaultSalt, nonce, ct));
    }

    static method ReadBlobs(rd: Reader) returns (r: Result<(bytes, bytes), Error>)
      requires rd.Valid()
      modifies rd
      ensures rd.Did(old(ParseBlobs(rd.Here())), r)
    {
      hide ReadPrefixed;
      var k :- rd.ReadPrefixedVec(2, KHsmWrapBlob);
      var t :- rd.ReadPrefixedVec(2, TotpSeedWrapBlob);
      return Ok((k, t));
    }

    static method ReadI64LE(rd: Reader, field: Field) returns (r: Result<i64, Error>)
      requires rd.Valid()
      modifies rd
      ensures rd.Did(old(ReadI64(rd.Here(), field)), r)
    {
      Widths();
      hide ReadUint;
      var n :- rd.ReadUintLE(8, field);
      return Ok(I64OfBits(n));
    }

    static method ReadState(rd: Reader) returns (r: Result<State, Error>)
      requires rd.Valid()
      modifies rd
      ensures rd.Did(old(ParseState(rd.Here())), r)
    {
      Widths();
      hide ReadUint, ReadI64;
      var counter :- rd.ReadUintLE(8, RlCounter);
      var last :- ReadI64LE(rd, RlLastFailure);
      var change :- ReadI64LE(rd, LastPasswordChange);
      var flag :- rd.ReadU8(LastExportPresent);
      var raw :- ReadI64LE(rd, LastExportAt);
      var exported := None;
      if flag == 1 {
        exported := Some(raw);
      } else if flag != 0 {
        return Err(InvalidFlag(LastExportPresent, flag));
      }
      return Ok(State(counter, last, Metadata(change, exported)));
    }

    static method ReadIndex(rd: Reader) returns (r: Result<(Nonce, bytes), Error>)
      requires rd.Valid()
      modifies rd
      ensures rd.Did(old(ParseIndex(rd.Here())), r)
    {
      hide ReadPrefixed;
      var nonce :- rd.TakeBytes(24, SealedIndexNonce);
      var ct :- rd.ReadPrefixedVec(4, SealedIndexCt);
      return Ok((nonce, ct));
    }

    static method ReadEnvelope(rd: Reader) returns (r: Result<Envelope, Error>)
      requires rd.Valid()
      modifies rd
      ensures rd.Did(old(ParseEnvelope(rd.Here())), r)
    {
      Widths();
      hide ReadUint;
      var id :- rd.TakeBytes(16, EntryIdField);
      var nonce :- rd.TakeBytes(24, EntryNonce);
      var ctLen :- rd.ReadUintLE(4, EntryCtLen);
      var ct :- rd.TakeBytes(ctLen, EntryCiphertext);
      return Ok(Keyed(id, Sealed(nonce, ctLen, ct)));
    }

    /** Reads the declared number of envelopes; an inflated count runs out of bytes. */
    static method ReadEntries(rd: Reader) returns (r: Result<seq<Envelope>, Error>)
      requires rd.Valid()
      modifies rd
      ensures rd.Did(old(ParseEntries(rd.Here())), r)
    {
      hide ReadUint, ParseEnvelope;
      var count :- rd.ReadUintLE(4, EntriesCount);
      var list: seq<Envelope> := [];
      ghost var all := ParseEnvelopeList(rd.Here(), count);
      PushNothing(all);
      for i := 0 to count
        invariant rd.Valid()
        invariant all == PushFront(list, ParseEnvelopeList(rd.Here(), count - i))
      {
        ghost var here := rd.Here();
        var e :- ReadEnvelope(rd);
        PushOne(list, e, ParseEnvelopeList(rd.Here(), count - i - 1));
        list := list + [e];
      }
      assert list + [] == list;
      return Ok(list);
    }

    static method FromBytes(P: Prims, b: bytes) returns (r: Result<Vault, Error>)
      ensures match Parse(b)
              case Ok(d) => r.Ok? && fresh(r.value) && r.value.View() == d && r.value.P == P
              case Err(e) => r == Err(e)
    {
      hide ParseHeader, ParseBlobs, ParseState, ParseIndex, ParseEntries;
      var rd := new Reader(b);
      var h :- ReadHeader(rd);
      var blobs :- ReadBlobs(rd);
      var state :- ReadState(rd);
      var ix :- ReadIndex(rd);
      var list :- ReadEntries(rd);
      var _ :- rd.Eof();
      var v := new Vault(P, Assemble(h, blobs, state, ix, list));
      return Ok(v);
    }
  }
}
