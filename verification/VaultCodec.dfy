/**
 * The vault file layout: `Serialize` is what `to_bytes` appends, `Parse` what
 * `from_bytes` accepts. The file is five groups of fields, read and written in order.
 */
module VaultCodec {
  import opened Bytes
  import opened Errors
  import opened Types
  import opened Cursors
  import opened VaultModel

  // ----- Writing ---------------------------------------------------------------------

  function HeaderBytes(h: Header): bytes {
    [h.version, h.kdfId] + KdfBytes(h.kdf) + h.salt + h.probeNonce + h.probeCt
  }

  function BlobBytes(k: bytes, t: bytes): bytes { PushU16Prefixed(k) + PushU16Prefixed(t) }

  /** `absent` is what the eight export-time bytes hold when the flag is 0. */
  function StateBytes(s: State, absent: i64): bytes {
    LE(s.rlCounter, 8) + LE(I64Bits(s.rlLast), 8) + LE(I64Bits(s.meta.lastPasswordChange), 8)
    + [if s.meta.lastExportAt.Some? then 1 else 0]
    + LE(I64Bits(if s.meta.lastExportAt.Some? then s.meta.lastExportAt.value else absent), 8)
  }

  function IndexBytes(nonce: Nonce, ct: bytes): bytes { nonce + PushU32Prefixed(ct) }

  function EnvelopeBytes(e: Envelope): bytes { e.id + e.body.nonce + PushU32Prefixed(e.body.ct) }

  function EnvelopeListBytes(es: seq<Envelope>): bytes {
    if es == [] then [] else EnvelopeBytes(es[0]) + EnvelopeListBytes(es[1..])
  }

  function EntriesBytes(es: seq<Envelope>): bytes { LE(ClampU32(|es|), 4) + EnvelopeListBytes(es) }

  function SerializeWith(v: VaultData, absent: i64): bytes {
    HeaderBytes(HeaderOf(v)) + (BlobBytes(v.kHsmBlob, v.totpBlob) + (StateBytes(StateOf(v), absent)
    + (IndexBytes(v.indexNonce, v.indexCt) + EntriesBytes(v.envelopes))))
  }

  function Serialize(v: VaultData): bytes { SerializeWith(v, 0) }

  // ----- Reading ------------------------------------------------------------------------

  datatype Header = Header(version: byte, kdfId: byte, kdf: KdfParams, salt: Salt, probeNonce: Nonce, probeCt: ProbeCt)

  datatype State = State(rlCounter: u64, rlLast: i64, meta: Metadata)

  function HeaderOf(v: VaultData): Header { Header(v.version, v.kdfId, v.kdf, v.salt, v.probeNonce, v.probeCt) }

  function StateOf(v: VaultData): State { State(v.rlCounter, v.rlLast, v.meta) }

  predicate KnownVersion(version: byte) { version == FORMAT_VERSION || version == FORMAT_VERSION_LEGACY_V1 }

  /** `KdfParams::from_bytes` */
  function KdfOfBytes(b: bytes): KdfParams
    requires |b| == 9
  {
    Widths();
    KdfParams(UnLE(b[..4]), UnLE(b[4..8]), b[8])
  }

  function ParseVersions(c: Cursor): Read<(byte, byte)> {
    var (version, c1) :- Take(c, 1, FormatVersion);
    if !KnownVersion(version[0]) then Err(UnsupportedVersion(version[0]))
    else
      var (kdfId, c2) :- Take(c1, 1, KdfAlgorithmId);
      if kdfId[0] != KDF_ALGORITHM_ARGON2ID then Err(UnsupportedKdfAlgorithm(kdfId[0]))
      else Ok(((version[0], kdfId[0]), c2))
  }

  function ParseHeader(c: Cursor): Read<Header> {
    var (vk, c2) :- ParseVersions(c);
    var (kdf, c3) :- Take(c2, 9, KdfParamsField);
    var (salt, c4) :- Take(c3, 32, VaultSalt);
    var (nonce, c5) :- Take(c4, 24, ProbeNonce);
    var (ct, c6) :- Take(c5, PROBE_CT_LEN, ProbeCt);
    Ok((Header(vk.0, vk.1, KdfOfBytes(kdf), salt, nonce, ct), c6))
  }

  function ParseBlobs(c: Cursor): Read<(bytes, bytes)> {
    var (k, c1) :- ReadPrefixed(c, 2, KHsmWrapBlob);
    var (t, c2) :- ReadPrefixed(c1, 2, TotpSeedWrapBlob);
    Ok(((k, t), c2))
  }

  function ReadI64(c: Cursor, field: Field): Read<i64> {
    var (n, d) :- ReadUint(c, 8, field);
    Widths();
    Ok((I64OfBits(n), d))
  }

  function ParseState(c: Cursor): Read<State> {
    var (counter, c1) :- ReadUint(c, 8, RlCounter);
    var (last, c2) :- ReadI64(c1, RlLastFailure);
    var (change, c3) :- ReadI64(c2, LastPasswordChange);
    var (flag, c4) :- Take(c3, 1, LastExportPresent);
    var (raw, c5) :- ReadI64(c4, LastExportAt);
    if flag[0] > 1 then Err(InvalidFlag(LastExportPresent, flag[0]))
    else
      Widths();
      Ok((State(counter, last, Metadata(change, if flag[0] == 1 then Some(raw) else None)), c5))
  }

  function ParseIndex(c: Cursor): Read<(Nonce, bytes)> {
    var (nonce, c1) :- Take(c, 24, SealedIndexNonce);
    var (ct, c2) :- ReadPrefixed(c1, 4, SealedIndexCt);
    Ok(((nonce, ct), c2))
  }

  function ParseEnvelope(c: Cursor): Read<Envelope> {
    var (id, c1) :- Take(c, 16, EntryIdField);
    var (nonce, c2) :- Take(c1, 24, EntryNonce);
    var (ctLen, c3) :- ReadUint(c2, 4, EntryCtLen);
    var (ct, c4) :- Take(c3, ctLen, EntryCiphertext);
    Widths();
    Ok((Keyed(id, Sealed(nonce, ctLen, ct)), c4))
  }

  function ParseEnvelopeList(c: Cursor, n: nat): (r: Read<seq<Envelope>>)
    ensures r.Ok? ==> |r.value.0| == n
    decreases n
  {
    if n == 0 then Ok(([], c))
    else
      var (e, d) :- ParseEnvelope(c);
      var (es, d') :- ParseEnvelopeList(d, n - 1);
      Ok(([e] + es, d'))
  }

  function ParseEntries(c: Cursor): Read<seq<Envelope>> {
    var (n, d) :- ReadUint(c, 4, EntriesCount);
    ParseEnvelopeList(d, n)
  }

  function Assemble(h: Header, b: (bytes, bytes), s: State, ix: (Nonce, bytes), es: seq<Envelope>): VaultData {
    VaultData(h.version, h.kdfId, h.kdf, h.salt, h.probeNonce, h.probeCt, b.0, b.1,
              s.rlCounter, s.rlLast, s.meta, ix.0, ix.1, es)
  }

  function Parse(b: bytes): Result<VaultData, Error> {
    var (h, c1) :- ParseHeader(Cursor(b, 0));
    var (bl, c2) :- ParseBlobs(c1);
    var (s, c3) :- ParseState(c2);
    var (ix, c4) :- ParseIndex(c3);
    var (es, c5) :- ParseEntries(c4);
    var _ :- ExpectEof(c5);
    Ok(Assemble(h, bl, s, ix, es))
  }

  // ----- Well-formed vaults ----------------------------------------------------------------

  predicate GoodHeader(h: Header) { KnownVersion(h.version) && h.kdfId == KDF_ALGORITHM_ARGON2ID }

  predicate GoodEnvelope(e: Envelope) { e.body.ctLen == |e.body.ct| }

  predicate GoodEnvelopes(es: seq<Envelope>) { forall i :: 0 <= i < |es| ==> GoodEnvelope(es[i]) }

  /** Every length fits its prefix and every constant is one the parser accepts. */
  predicate WellFormed(v: VaultData) {
    && GoodHeader(HeaderOf(v))
    && |v.kHsmBlob| <= U16_MAX && |v.totpBlob| <= U16_MAX
    && |v.indexCt| <= U32_MAX
    && |v.envelopes| <= U32_MAX && GoodEnvelopes(v.envelopes)
  }

  // ----- Decode after encode -----------------------------------------------------------------

  lemma KdfRoundTrip(k: KdfParams)
    ensures KdfOfBytes(KdfBytes(k)) == k
  {
    Widths();
    UnLEofLE(k.mKib, 4);
    UnLEofLE(k.t, 4);
    assert KdfBytes(k)[..4] == LE(k.mKib, 4);
    assert KdfBytes(k)[4..8] == LE(k.t, 4);
  }

  lemma KdfConverse(b: bytes)
    requires |b| == 9
    ensures KdfBytes(KdfOfBytes(b)) == b
  {
    Widths();
    LEofUnLE(b[..4]);
    LEofUnLE(b[4..8]);
  }

  lemma VersionsAt(c: Cursor, version: byte, kdfId: byte, t: bytes)
    requires KnownVersion(version) && kdfId == KDF_ALGORITHM_ARGON2ID && At(c, [version, kdfId] + t)
    ensures ParseVersions(c).Ok?
    ensures ParseVersions(c).value.0 == (version, kdfId) && At(ParseVersions(c).value.1, t)
  {
    assert [version, kdfId] + t == [version] + ([kdfId] + t);
    TakeAt(c, [version], [kdfId] + t, FormatVersion);
    TakeAt(Take(c, 1, FormatVersion).value.1, [kdfId], t, KdfAlgorithmId);
  }

  lemma HeaderAt(c: Cursor, h: Header, t: bytes)
    requires GoodHeader(h) && At(c, HeaderBytes(h) + t)
    ensures ParseHeader(c).Ok?
    ensures ParseHeader(c).value.0 == h && At(ParseHeader(c).value.1, t)
  {
    hide KdfBytes, KdfOfBytes, At, Take, ParseVersions;
    var t5 := h.probeCt + t;
    var t4 := h.probeNonce + t5;
    var t3 := h.salt + t4;
    var t2 := KdfBytes(h.kdf) + t3;
    assert HeaderBytes(h) + t == [h.version, h.kdfId] + t2;
    VersionsAt(c, h.version, h.kdfId, t2);
    var c2 := ParseVersions(c).value.1;
    TakeAt(c2, KdfBytes(h.kdf), t3, KdfParamsField);
    var c3 := Take(c2, 9, KdfParamsField).value.1;
    TakeAt(c3, h.salt, t4, VaultSalt);
    var c4 := Take(c3, 32, VaultSalt).value.1;
    TakeAt(c4, h.probeNonce, t5, ProbeNonce);
    var c5 := Take(c4, 24, ProbeNonce).value.1;
    TakeAt(c5, h.probeCt, t, ProbeCt);
    KdfRoundTrip(h.kdf);
  }

  lemma BlobsAt(c: Cursor, k: bytes, b: bytes, t: bytes)
    requires |k| <= U16_MAX && |b| <= U16_MAX && At(c, BlobBytes(k, b) + t)
    ensures ParseBlobs(c).Ok?
    ensures ParseBlobs(c).value.0 == (k, b) && At(ParseBlobs(c).value.1, t)
  {
    Widths();
    hide LE, At, ReadPrefixed;
    assert BlobBytes(k, b) + t == Prefixed(k, 2) + (Prefixed(b, 2) + t);
    PrefixedAt(c, k, 2, Prefixed(b, 2) + t, KHsmWrapBlob);
    PrefixedAt(ReadPrefixed(c, 2, KHsmWrapBlob).value.1, b, 2, t, TotpSeedWrapBlob);
  }

  lemma I64At(c: Cursor, x: i64, t: bytes, field: Field)
    requires At(c, LE(I64Bits(x), 8) + t)
    ensures ReadI64(c, field).Ok?
    ensures ReadI64(c, field).value.0 == x && At(ReadI64(c, field).value.1, t)
  {
    Widths();
    UintAt(c, I64Bits(x), 8, t, field);
  }

  lemma StateAt(c: Cursor, s: State, absent: i64, t: bytes)
    requires At(c, StateBytes(s, absent) + t)
    ensures ParseState(c).Ok?
    ensures ParseState(c).value.0 == s && At(ParseState(c).value.1, t)
  {
    Widths();
    hide LE, I64Bits, At, ReadUint, ReadI64, Take;
    var flag: bytes := [if s.meta.lastExportAt.Some? then 1 else 0];
    var raw := if s.meta.lastExportAt.Some? then s.meta.lastExportAt.value else absent;
    var t4 := LE(I64Bits(raw), 8) + t;
    var t3 := flag + t4;
    var t2 := LE(I64Bits(s.meta.lastPasswordChange), 8) + t3;
    var t1 := LE(I64Bits(s.rlLast), 8) + t2;
    assert StateBytes(s, absent) + t == LE(s.rlCounter, 8) + t1;
    UintAt(c, s.rlCounter, 8, t1, RlCounter);
    var c1 := ReadUint(c, 8, RlCounter).value.1;
    I64At(c1, s.rlLast, t2, RlLastFailure);
    var c2 := ReadI64(c1, RlLastFailure).value.1;
    I64At(c2, s.meta.lastPasswordChange, t3, LastPasswordChange);
    var c3 := ReadI64(c2, LastPasswordChange).value.1;
    TakeAt(c3, flag, t4, LastExportPresent);
    I64At(Take(c3, 1, LastExportPresent).value.1, raw, t, LastExportAt);
  }

  lemma IndexAt(c: Cursor, nonce: Nonce, ct: bytes, t: bytes)
    requires |ct| <= U32_MAX && At(c, IndexBytes(nonce, ct) + t)
    ensures ParseIndex(c).Ok?
    ensures ParseIndex(c).value.0 == (nonce, ct) && At(ParseIndex(c).value.1, t)
  {
    Widths();
    hide LE, At, ReadPrefixed, Take;
    assert IndexBytes(nonce, ct) + t == nonce + (Prefixed(ct, 4) + t);
    TakeAt(c, nonce, Prefixed(ct, 4) + t, SealedIndexNonce);
    PrefixedAt(Take(c, 24, SealedIndexNonce).value.1, ct, 4, t, SealedIndexCt);
  }

  lemma EnvelopeAt(c: Cursor, e: Envelope, t: bytes)
    requires GoodEnvelope(e) && At(c, EnvelopeBytes(e) + t)
    ensures ParseEnvelope(c).Ok?
    ensures ParseEnvelope(c).value.0 == e && At(ParseEnvelope(c).value.1, t)
  {
    Widths();
    hide LE, At, ReadUint, Take;
    var ct := e.body.ct;
    var t2 := LE(|ct|, 4) + (ct + t);
    assert EnvelopeBytes(e) + t == e.id + (e.body.nonce + t2);
    TakeAt(c, e.id, e.body.nonce + t2, EntryIdField);
    var c1 := Take(c, 16, EntryIdField).value.1;
    TakeAt(c1, e.body.nonce, t2, EntryNonce);
    var c2 := Take(c1, 24, EntryNonce).value.1;
    UintAt(c2, |ct|, 4, ct + t, EntryCtLen);
    TakeAt(ReadUint(c2, 4, EntryCtLen).value.1, ct, t, EntryCiphertext);
  }

  lemma {:induction false} EnvelopeListAt(c: Cursor, es: seq<Envelope>, t: bytes)
    requires GoodEnvelopes(es) && At(c, EnvelopeListBytes(es) + t)
    ensures ParseEnvelopeList(c, |es|).Ok?
    ensures ParseEnvelopeList(c, |es|).value.0 == es && At(ParseEnvelopeList(c, |es|).value.1, t)
    decreases |es|
  {
    hide EnvelopeBytes, ParseEnvelope, At;
    if es == [] {
      assert EnvelopeListBytes(es) + t == t;
    } else {
      var e, rest := es[0], es[1..];
      assert es == [e] + rest;
      ConcatAssoc(EnvelopeBytes(e), EnvelopeListBytes(rest), t);
      EnvelopeAt(c, e, EnvelopeListBytes(rest) + t);
      EnvelopeListAt(ParseEnvelope(c).value.1, rest, t);
    }
  }

  lemma EntriesAt(c: Cursor, es: seq<Envelope>, t: bytes)
    requires |es| <= U32_MAX && GoodEnvelopes(es) && At(c, EntriesBytes(es) + t)
    ensures ParseEntries(c).Ok?
    ensures ParseEntries(c).value.0 == es && At(ParseEntries(c).value.1, t)
  {
    Widths();
    hide LE, At, ReadUint, EnvelopeListBytes, ParseEnvelopeList;
    ConcatAssoc(LE(|es|, 4), EnvelopeListBytes(es), t);
    UintAt(c, |es|, 4, EnvelopeListBytes(es) + t, EntriesCount);
    EnvelopeListAt(ReadUint(c, 4, EntriesCount).value.1, es, t);
  }

  /** The parts of a well-formed file parse to the vault, whatever the unused export bytes hold. */
  lemma ParseOfSerialize(v: VaultData, absent: i64)
    requires WellFormed(v)
    ensures Parse(SerializeWith(v, absent)) == Ok(v)
  {
    hide At, HeaderBytes, BlobBytes, StateBytes, IndexBytes, EntriesBytes, GoodEnvelopes;
    hide ParseHeader, ParseBlobs, ParseState, ParseIndex, ParseEntries;
    var b := SerializeWith(v, absent);
    var t4 := EntriesBytes(v.envelopes);
    var t3 := IndexBytes(v.indexNonce, v.indexCt) + t4;
    var t2 := StateBytes(StateOf(v), absent) + t3;
    var t1 := BlobBytes(v.kHsmBlob, v.totpBlob) + t2;
    var c := Cursor(b, 0);
    AtStart(b);
    HeaderAt(c, HeaderOf(v), t1);
    var c1 := ParseHeader(c).value.1;
    BlobsAt(c1, v.kHsmBlob, v.totpBlob, t2);
    var c2 := ParseBlobs(c1).value.1;
    StateAt(c2, StateOf(v), absent, t3);
    var c3 := ParseState(c2).value.1;
    IndexAt(c3, v.indexNonce, v.indexCt, t4);
    var c4 := ParseIndex(c3).value.1;
    assert t4 + [] == t4;
    EntriesAt(c4, v.envelopes, []);
    AtEnd(ParseEntries(c4).value.1);
  }

  lemma AtStart(b: bytes)
    ensures At(Cursor(b, 0), b)
  {
  }

  lemma AtEnd(c: Cursor)
    requires At(c, [])
    ensures ExpectEof(c) == Ok(())
  {
    assert |c.buf[c.pos..]| == 0;
  }

  // ----- Encode after decode ---------------------------------------------------------------------

  lemma VersionsConsume(c: Cursor)
    requires ParseVersions(c).Ok?
    ensures var (vk, d) := ParseVersions(c).value;
            Consumed(c, [vk.0, vk.1], d) && KnownVersion(vk.0) && vk.1 == KDF_ALGORITHM_ARGON2ID
  {
    var (version, c1) := Take(c, 1, FormatVersion).value;
    var (kdfId, c2) := Take(c1, 1, KdfAlgorithmId).value;
    ConsumedTwice(c, version, c1, kdfId, c2);
    assert version + kdfId == [version[0], kdfId[0]];
  }

  lemma HeaderConsumes(c: Cursor)
    requires ParseHeader(c).Ok?
    ensures var (h, d) := ParseHeader(c).value; Consumed(c, HeaderBytes(h), d) && GoodHeader(h)
  {
    hide KdfBytes, KdfOfBytes, ParseVersions;
    var (vk, c2) := ParseVersions(c).value;
    VersionsConsume(c);
    var (kdf, c3) := Take(c2, 9, KdfParamsField).value;
    var (salt, c4) := Take(c3, 32, VaultSalt).value;
    var (nonce, c5) := Take(c4, 24, ProbeNonce).value;
    var (ct, c6) := Take(c5, PROBE_CT_LEN, ProbeCt).value;
    KdfConverse(kdf);
    hide Take;
    ConsumedTwice(c, [vk.0, vk.1], c2, kdf, c3);
    ConsumedTwice(c, [vk.0, vk.1] + kdf, c3, salt, c4);
    ConsumedTwice(c, [vk.0, vk.1] + kdf + salt, c4, nonce, c5);
    ConsumedTwice(c, [vk.0, vk.1] + kdf + salt + nonce, c5, ct, c6);
  }

  lemma BlobsConsume(c: Cursor)
    requires ParseBlobs(c).Ok?
    ensures var (b, d) := ParseBlobs(c).value;
            Consumed(c, BlobBytes(b.0, b.1), d) && |b.0| <= U16_MAX && |b.1| <= U16_MAX
  {
    Widths();
    hide LE, ReadPrefixed;
    var (k, c1) := ReadPrefixed(c, 2, KHsmWrapBlob).value;
    var (t, c2) := ReadPrefixed(c1, 2, TotpSeedWrapBlob).value;
    PrefixedConsumes(c, 2, KHsmWrapBlob);
    PrefixedConsumes(c1, 2, TotpSeedWrapBlob);
    ConsumedTwice(c, Prefixed(k, 2), c1, Prefixed(t, 2), c2);
  }

  lemma I64Consumes(c: Cursor, field: Field)
    requires ReadI64(c, field).Ok?
    ensures var (x, d) := ReadI64(c, field).value; Consumed(c, LE(I64Bits(x), 8), d)
  {
    Widths();
    UintConsumes(c, 8, field);
  }

  /** What the eight export-time bytes of an accepted file hold. */
  function RawExport(c: Cursor): i64 {
    if c.pos + 33 <= |c.buf| then
      Widths();
      I64OfBits(UnLE(c.buf[c.pos + 25..c.pos + 33]))
    else 0
  }

  lemma StateConsumes(c: Cursor)
    requires ParseState(c).Ok?
    ensures var (s, d) := ParseState(c).value; Consumed(c, StateBytes(s, RawExport(c)), d)
  {
    hide LE, I64Bits;
    var (counter, c1) := ReadUint(c, 8, RlCounter).value;
    var (last, c2) := ReadI64(c1, RlLastFailure).value;
    var (change, c3) := ReadI64(c2, LastPasswordChange).value;
    var (flag, c4) := Take(c3, 1, LastExportPresent).value;
    var (raw, c5) := ReadI64(c4, LastExportAt).value;
    assert c4.pos == c.pos + 25 && raw == RawExport(c) && flag == [flag[0]];
    hide ReadUint, ReadI64, Take;
    UintConsumes(c, 8, RlCounter);
    I64Consumes(c1, RlLastFailure);
    I64Consumes(c2, LastPasswordChange);
    I64Consumes(c4, LastExportAt);
    var a, b, d, e := LE(counter, 8), LE(I64Bits(last), 8), LE(I64Bits(change), 8), LE(I64Bits(raw), 8);
    ConsumedTwice(c, a, c1, b, c2);
    ConsumedTwice(c, a + b, c2, d, c3);
    ConsumedTwice(c, a + b + d, c3, flag, c4);
    ConsumedTwice(c, a + b + d + flag, c4, e, c5);
  }

  lemma IndexConsumes(c: Cursor)
    requires ParseIndex(c).Ok?
    ensures var (ix, d) := ParseIndex(c).value; Consumed(c, IndexBytes(ix.0, ix.1), d) && |ix.1| <= U32_MAX
  {
    Widths();
    hide LE, ReadPrefixed;
    var (nonce, c1) := Take(c, 24, SealedIndexNonce).value;
    var (ct, c2) := ReadPrefixed(c1, 4, SealedIndexCt).value;
    PrefixedConsumes(c1, 4, SealedIndexCt);
    ConsumedTwice(c, nonce, c1, Prefixed(ct, 4), c2);
  }

  lemma EnvelopeConsumes(c: Cursor)
    requires ParseEnvelope(c).Ok?
    ensures var (e, d) := ParseEnvelope(c).value;
            Consumed(c, EnvelopeBytes(e), d) && GoodEnvelope(e) && d.pos >= c.pos + 44
  {
    Widths();
    hide LE;
    var (id, c1) := Take(c, 16, EntryIdField).value;
    var (nonce, c2) := Take(c1, 24, EntryNonce).value;
    var (n, c3) := ReadUint(c2, 4, EntryCtLen).value;
    var (ct, c4) := Take(c3, n, EntryCiphertext).value;
    UintConsumes(c2, 4, EntryCtLen);
    assert |ct| == n && c4.pos >= c.pos + 44;
    hide Take, ReadUint;
    ConsumedTwice(c, id, c1, nonce, c2);
    ConsumedTwice(c2, LE(n, 4), c3, ct, c4);
    ConsumedTwice(c, id + nonce, c2, LE(n, 4) + ct, c4);
  }

  lemma {:induction false} EnvelopeListConsumes(c: Cursor, n: nat)
    requires ParseEnvelopeList(c, n).Ok?
    ensures var (es, d) := ParseEnvelopeList(c, n).value;
            Consumed(c, EnvelopeListBytes(es), d) && GoodEnvelopes(es) && d.pos >= c.pos + 44 * n
    decreases n
  {
    hide ParseEnvelope, EnvelopeBytes, GoodEnvelope;
    if n > 0 {
      var (e, c1) := ParseEnvelope(c).value;
      var (es, d) := ParseEnvelopeList(c1, n - 1).value;
      EnvelopeConsumes(c);
      EnvelopeListConsumes(c1, n - 1);
      ConsumedTwice(c, EnvelopeBytes(e), c1, EnvelopeListBytes(es), d);
      assert ([e] + es)[1..] == es;
    }
  }

  lemma EntriesConsume(c: Cursor)
    requires ParseEntries(c).Ok?
    ensures var (es, d) := ParseEntries(c).value;
            && Consumed(c, EntriesBytes(es), d) && GoodEnvelopes(es)
            && |es| <= U32_MAX && d.pos >= c.pos + 44 * |es|
  {
    Widths();
    hide LE, EnvelopeListBytes, GoodEnvelopes;
    var (n, c1) := ReadUint(c, 4, EntriesCount).value;
    var (es, d) := ParseEnvelopeList(c1, n).value;
    UintConsumes(c, 4, EntriesCount);
    EnvelopeListConsumes(c1, n);
    ConsumedTwice(c, LE(n, 4), c1, EnvelopeListBytes(es), d);
  }

  /** Where the export-time bytes of an accepted file start being read. */
  function StateCursor(b: bytes): Cursor
    requires Parse(b).Ok?
  {
    ParseBlobs(ParseHeader(Cursor(b, 0)).value.1).value.1
  }

  /** Only well-formed vaults are accepted, and only from their own bytes. */
  lemma SerializeOfParse(b: bytes)
    requires Parse(b).Ok?
    ensures WellFormed(Parse(b).value)
    ensures b == SerializeWith(Parse(b).value, RawExport(StateCursor(b)))
    ensures 44 * |Parse(b).value.envelopes| <= |b|
  {
    hide HeaderBytes, BlobBytes, StateBytes, IndexBytes, EntriesBytes, RawExport, GoodEnvelopes;
    hide ParseHeader, ParseBlobs, ParseState, ParseIndex, ParseEntries;
    var c := Cursor(b, 0);
    var (h, c1) := ParseHeader(c).value;
    var (bl, c2) := ParseBlobs(c1).value;
    var (s, c3) := ParseState(c2).value;
    var (ix, c4) := ParseIndex(c3).value;
    var (es, c5) := ParseEntries(c4).value;
    HeaderConsumes(c);
    BlobsConsume(c1);
    StateConsumes(c2);
    IndexConsumes(c3);
    EntriesConsume(c4);
    var t4 := EntriesBytes(es);
    var t3 := IndexBytes(ix.0, ix.1) + t4;
    var t2 := StateBytes(s, RawExport(c2)) + t3;
    var t1 := BlobBytes(bl.0, bl.1) + t2;
    ConsumedTwice(c3, IndexBytes(ix.0, ix.1), c4, t4, c5);
    ConsumedTwice(c2, StateBytes(s, RawExport(c2)), c3, t3, c5);
    ConsumedTwice(c1, BlobBytes(bl.0, bl.1), c2, t2, c5);
    ConsumedTwice(c, HeaderBytes(h), c1, t1, c5);
    assert b[0..|b|] == b;
  }

  lemma SerializeLen(v: VaultData, absent: i64)
    ensures |SerializeWith(v, absent)| == |Serialize(v)|
  {
    hide HeaderBytes, BlobBytes, IndexBytes, EntriesBytes, LE;
  }

  // ----- The offset table -------------------------------------------------------------------

  /** The fixed header fields stand where the format's offset table puts them. */
  lemma HeaderOffsets(h: Header)
    ensures var s := HeaderBytes(h);
            && |s| == 99 && s[0] == h.version && s[1] == h.kdfId
            && s[2..6] == LE(h.kdf.mKib, 4) && s[6..10] == LE(h.kdf.t, 4) && s[10] == h.kdf.p
            && s[11..43] == h.salt && s[43..67] == h.probeNonce && s[67..99] == h.probeCt
  {
    hide LE;
    var s := HeaderBytes(h);
    var k := KdfBytes(h.kdf);
    assert s == [h.version, h.kdfId] + (k + (h.salt + (h.probeNonce + h.probeCt)));
    assert s[2..6] == k[..4] && s[6..10] == k[4..8];
  }

  predicate PartAt(s: bytes, off: nat, part: bytes) { off + |part| <= |s| && s[off..off + |part|] == part }

  /** A part between what comes before and after it. */
  lemma PartBetween(s: bytes, front: bytes, part: bytes, back: bytes)
    requires s == front + part + back
    ensures PartAt(s, |front|, part)
  {
  }

  lemma FiveParts(h: bytes, b: bytes, t: bytes, x: bytes, e: bytes)
    ensures var s := h + (b + (t + (x + e)));
            && PartAt(s, 0, h) && PartAt(s, |h|, b) && PartAt(s, |h| + |b|, t)
            && PartAt(s, |h| + |b| + |t|, x) && PartAt(s, |h| + |b| + |t| + |x|, e)
  {
    var s := h + (b + (t + (x + e)));
    ConcatAssoc(h, b, t + (x + e));
    ConcatAssoc(h + b, t, x + e);
    ConcatAssoc(h + b + t, x, e);
    assert [] + h + (b + (t + (x + e))) == s && h + b + t + x + e + [] == s;
    hide PartAt;
    PartBetween(s, [], h, b + (t + (x + e)));
    PartBetween(s, h, b, t + (x + e));
    PartBetween(s, h + b, t, x + e);
    PartBetween(s, h + b + t, x, e);
    PartBetween(s, h + b + t + x, e, []);
  }

  /** The five groups follow each other without gaps, the blobs from offset 99. */
  lemma Layout(v: VaultData)
    ensures var s := Serialize(v);
            var st := 103 + |v.kHsmBlob| + |v.totpBlob|;
            && PartAt(s, 0, HeaderBytes(HeaderOf(v)))
            && PartAt(s, 99, BlobBytes(v.kHsmBlob, v.totpBlob))
            && PartAt(s, st, StateBytes(StateOf(v), 0))
            && PartAt(s, st + 33, IndexBytes(v.indexNonce, v.indexCt))
            && PartAt(s, st + 61 + |v.indexCt|, EntriesBytes(v.envelopes))
            && |s| == st + 61 + |v.indexCt| + |EntriesBytes(v.envelopes)|
  {
    BlobOffsets(v.kHsmBlob, v.totpBlob);
    StateOffsets(StateOf(v));
    IndexOffsets(v.indexNonce, v.indexCt);
    HeaderOffsets(HeaderOf(v));
    hide HeaderBytes, BlobBytes, StateBytes, IndexBytes, EntriesBytes, LE, PartAt;
    FiveParts(HeaderBytes(HeaderOf(v)), BlobBytes(v.kHsmBlob, v.totpBlob), StateBytes(StateOf(v), 0),
              IndexBytes(v.indexNonce, v.indexCt), EntriesBytes(v.envelopes));
  }

  lemma BlobOffsets(k: bytes, t: bytes)
    ensures var s := BlobBytes(k, t);
            && |s| == 4 + |k| + |t| && s[..2] == LE(ClampU16(|k|), 2) && s[2..2 + |k|] == k
            && s[2 + |k|..4 + |k|] == LE(ClampU16(|t|), 2) && s[4 + |k|..] == t
  {
    hide LE;
  }

  lemma StateOffsets(st: State)
    ensures var s := StateBytes(st, 0);
            && |s| == 33 && s[..8] == LE(st.rlCounter, 8) && s[8..16] == LE(I64Bits(st.rlLast), 8)
            && s[16..24] == LE(I64Bits(st.meta.lastPasswordChange), 8)
            && s[24] == (if st.meta.lastExportAt.Some? then 1 else 0)
            && s[25..] == LE(I64Bits(if st.meta.lastExportAt.Some? then st.meta.lastExportAt.value else 0), 8)
  {
    hide LE, I64Bits;
  }

  lemma IndexOffsets(nonce: Nonce, ct: bytes)
    ensures var s := IndexBytes(nonce, ct);
            && |s| == 28 + |ct| && s[..24] == nonce && s[24..28] == LE(ClampU32(|ct|), 4) && s[28..] == ct
  {
    hide LE;
  }

  lemma EnvelopeOffsets(e: Envelope)
    ensures var s := EnvelopeBytes(e);
            && |s| == 44 + |e.body.ct| && s[..16] == e.id && s[16..40] == e.body.nonce
            && s[40..44] == LE(ClampU32(|e.body.ct|), 4) && s[44..] == e.body.ct
  {
    hide LE;
  }

  /** The entries follow their count one by one. */
  lemma {:induction false} EntriesOffsets(es: seq<Envelope>, i: nat)
    requires i < |es|
    ensures EntriesBytes(es)[..4] == LE(ClampU32(|es|), 4)
    ensures EnvelopeListBytes(es)
         == EnvelopeListBytes(es[..i]) + EnvelopeBytes(es[i]) + EnvelopeListBytes(es[i + 1..])
  {
    hide EnvelopeBytes, LE;
    if i == 0 {
      assert [] + EnvelopeBytes(es[0]) == EnvelopeBytes(es[0]);
    } else {
      EntriesOffsets(es[1..], i - 1);
      assert es[1..][..i - 1] == es[..i][1..] && es[1..][i..] == es[i + 1..];
    }
  }

  /** A file of another version or algorithm is refused by name, before anything else is read. */
  lemma HeaderRefusals(b: bytes)
    ensures b == [] ==> Parse(b) == Err(Truncated(FormatVersion, 0))
    ensures |b| >= 1 && b[0] != 1 && b[0] != 2 ==> Parse(b) == Err(UnsupportedVersion(b[0]))
    ensures |b| >= 2 && (b[0] == 1 || b[0] == 2) && b[1] != 0 ==> Parse(b) == Err(UnsupportedKdfAlgorithm(b[1]))
  {
    hide ParseBlobs, ParseState, ParseIndex, ParseEntries, KdfOfBytes;
  }

  // ----- The two directions ---------------------------------------------------------------------

  /** A vault survives `to_bytes` then `from_bytes` exactly when it is well-formed. */
  lemma CodecRoundTrip(v: VaultData)
    ensures Parse(Serialize(v)) == Ok(v) <==> WellFormed(v)
  {
    hide SerializeWith, Parse, WellFormed;
    if WellFormed(v) {
      ParseOfSerialize(v, 0);
    } else if Parse(Serialize(v)) == Ok(v) {
      SerializeOfParse(Serialize(v));
    }
  }

  /**
   * `from_bytes` accepts `b` as `v` exactly when `b` is `v`'s file, the export-time
   * bytes being free when there was no export.
   */
  lemma AcceptedFiles(b: bytes, v: VaultData)
    ensures Parse(b) == Ok(v) <==> WellFormed(v) && exists absent: i64 :: b == SerializeWith(v, absent)
  {
    hide SerializeWith, Parse, WellFormed;
    if Parse(b) == Ok(v) {
      SerializeOfParse(b);
    }
    if absent: i64 :| WellFormed(v) && b == SerializeWith(v, absent) {
      ParseOfSerialize(v, absent);
    }
  }

  lemma ZeroBytes(w: nat)
    ensures LE(0, w) == Zeros(w)
  {
    if w > 0 {
      ZeroBytes(w - 1);
      assert LE(0, w) == [0] + Zeros(w - 1);
    }
  }

  /** Everything before and after the eight export-time bytes of `v`'s file. */
  function BeforeExport(v: VaultData): bytes {
    HeaderBytes(HeaderOf(v)) + BlobBytes(v.kHsmBlob, v.totpBlob) + StateBytes(StateOf(v), 0)[..25]
  }

  function AfterExport(v: VaultData): bytes {
    IndexBytes(v.indexNonce, v.indexCt) + EntriesBytes(v.envelopes)
  }

  lemma ExportBytes(v: VaultData, absent: i64)
    requires v.meta.lastExportAt.None?
    ensures SerializeWith(v, absent) == BeforeExport(v) + LE(I64Bits(absent), 8) + AfterExport(v)
  {
    var s := StateBytes(StateOf(v), absent);
    assert s[..25] == StateBytes(StateOf(v), 0)[..25];
    assert s == s[..25] + LE(I64Bits(absent), 8);
    hide HeaderBytes, BlobBytes, StateBytes, IndexBytes, EntriesBytes;
  }

  /** An accepted file re-serialises to itself, with zero export bytes when there was no export. */
  lemma Reserialize(b: bytes)
    requires Parse(b).Ok?
    ensures var v := Parse(b).value;
            if v.meta.lastExportAt.Some? then Serialize(v) == b
            else
              var p := |BeforeExport(v)|;
              p + 8 <= |b| && Serialize(v) == b[..p] + Zeros(8) + b[p + 8..]
  {
    hide Parse, HeaderBytes, BlobBytes, IndexBytes, EntriesBytes, RawExport;
    SerializeOfParse(b);
    var v, raw := Parse(b).value, RawExport(StateCursor(b));
    if v.meta.lastExportAt.None? {
      ExportBytes(v, raw);
      ExportBytes(v, 0);
      ZeroBytes(8);
      hide BeforeExport, AfterExport, SerializeWith;
      var p := |BeforeExport(v)|;
      assert b[..p] == BeforeExport(v) && b[p + 8..] == AfterExport(v);
    }
  }
}
