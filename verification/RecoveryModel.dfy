/** The recovery payload and file: what `seal` writes and what import accepts. */
module RecoveryModel {
  import opened Bytes
  import opened Errors
  import opened Types
  import opened Primitives
  import opened Cursors
  import opened VaultModel
  import opened VaultCodec
  import opened Kdf

  const PAYLOAD_VERSION: byte := 0x01
  const RECOVERY_FORMAT_VERSION: byte := 0x01

  function MagicBytes(): (b: bytes)
    ensures |b| == 6
  {
    Ascii("PSMREC")
  }

  function RecoveryAd(): bytes { Ascii("PSMREC-v0") }

  type Seed = Key

  datatype RecoveryEntry = RecoveryEntry(id: Id, name: Text, username: Text, password: Text,
                                         url: Text, notes: Text, policy: bytes)

  datatype Payload = Payload(totpSeed: Seed, vaultKdf: KdfParams, entries: seq<RecoveryEntry>)

  // ----- Payload ----------------------------------------------------------------------

  function EntryTail(e: RecoveryEntry): bytes {
    PushU32Prefixed(e.password) + (PushU32Prefixed(e.url) + (PushU32Prefixed(e.notes) + PushU32Prefixed(e.policy)))
  }

  function EntryBytes(e: RecoveryEntry): bytes {
    e.id + (PushU32Prefixed(e.name) + (PushU32Prefixed(e.username) + EntryTail(e)))
  }

  function EntryListBytes(es: seq<RecoveryEntry>): bytes {
    if es == [] then [] else EntryBytes(es[0]) + EntryListBytes(es[1..])
  }

  function PayloadHead(p: Payload): bytes { [PAYLOAD_VERSION] + p.totpSeed + KdfBytes(p.vaultKdf) }

  function EncodePayload(p: Payload): bytes {
    PayloadHead(p) + (LE(ClampU32(|p.entries|), 4) + EntryListBytes(p.entries))
  }

  /** A u32-prefixed UTF-8 field. */
  function ReadText(c: Cursor, field: Field): Read<Text> {
    var (b, d) :- ReadPrefixed(c, 4, field);
    if ValidUtf8(b) then Ok((b, d)) else Err(MalformedPayload(NotUtf8))
  }

  datatype Tail = Tail(password: Text, url: Text, notes: Text, policy: bytes)

  function ReadTail(c: Cursor): Read<Tail> {
    var (password, c1) :- ReadText(c, PasswordField);
    var (url, c2) :- ReadText(c1, UrlField);
    var (notes, c3) :- ReadText(c2, NotesField);
    var (policy, c4) :- ReadPrefixed(c3, 4, PolicyField);
    Ok((Tail(password, url, notes, policy), c4))
  }

  function ReadEntry(c: Cursor): Read<RecoveryEntry> {
    var (id, c1) :- Take(c, 16, EntryIdField);
    var (name, c2) :- ReadText(c1, LabelField);
    var (username, c3) :- ReadText(c2, UsernameField);
    var (t, c4) :- ReadTail(c3);
    Ok((RecoveryEntry(id, name, username, t.password, t.url, t.notes, t.policy), c4))
  }

  function ReadEntryList(c: Cursor, n: nat): (r: Read<seq<RecoveryEntry>>)
    ensures r.Ok? ==> |r.value.0| == n
    decreases n
  {
    if n == 0 then Ok(([], c))
    else
      var (e, d) :- ReadEntry(c);
      var (es, d') :- ReadEntryList(d, n - 1);
      Ok(([e] + es, d'))
  }

  function ReadPayloadHead(c: Cursor): Read<(Seed, KdfParams)> {
    var (version, c1) :- Take(c, 1, Field.PayloadVersion);
    if version[0] != PAYLOAD_VERSION then Err(MalformedPayload(BadPayloadVersion))
    else
      var (seed, c2) :- Take(c1, 32, TotpSeedField);
      var (kdf, c3) :- Take(c2, 9, OriginalVaultKdf);
      Ok(((seed, KdfOfBytes(kdf)), c3))
  }

  function DecodePayload(b: bytes): Result<Payload, Error> {
    var (head, c1) :- ReadPayloadHead(Cursor(b, 0));
    var (n, c2) :- ReadUint(c1, 4, EntryCount);
    var (es, c3) :- ReadEntryList(c2, n);
    var _ :- ExpectEof(c3);
    Ok(Payload(head.0, head.1, es))
  }

  predicate FieldsFit(e: RecoveryEntry) {
    |e.name| <= U32_MAX && |e.username| <= U32_MAX && |e.password| <= U32_MAX
    && |e.url| <= U32_MAX && |e.notes| <= U32_MAX && |e.policy| <= U32_MAX
  }

  predicate EntriesFit(es: seq<RecoveryEntry>) { forall i :: 0 <= i < |es| ==> FieldsFit(es[i]) }

  predicate PayloadFits(p: Payload) { |p.entries| <= U32_MAX && EntriesFit(p.entries) }

  // ----- Decode after encode --------------------------------------------------------------

  lemma TextAt(c: Cursor, s: Text, t: bytes, field: Field)
    requires |s| <= U32_MAX && At(c, PushU32Prefixed(s) + t)
    ensures ReadText(c, field).Ok?
    ensures ReadText(c, field).value.0 == s && At(ReadText(c, field).value.1, t)
  {
    Widths();
    hide LE, At, ReadPrefixed, ValidUtf8;
    PrefixedAt(c, s, 4, t, field);
  }

  lemma TailAt(c: Cursor, e: RecoveryEntry, t: bytes)
    requires FieldsFit(e) && At(c, EntryTail(e) + t)
    ensures ReadTail(c).Ok?
    ensures ReadTail(c).value.0 == Tail(e.password, e.url, e.notes, e.policy) && At(ReadTail(c).value.1, t)
  {
    Widths();
    hide At, ReadText, ReadPrefixed, PushU32Prefixed, ValidUtf8;
    var t3 := PushU32Prefixed(e.policy) + t;
    var t2 := PushU32Prefixed(e.notes) + t3;
    var t1 := PushU32Prefixed(e.url) + t2;
    assert EntryTail(e) + t == PushU32Prefixed(e.password) + t1;
    TextAt(c, e.password, t1, PasswordField);
    var c1 := ReadText(c, PasswordField).value.1;
    TextAt(c1, e.url, t2, UrlField);
    var c2 := ReadText(c1, UrlField).value.1;
    TextAt(c2, e.notes, t3, NotesField);
    var c3 := ReadText(c2, NotesField).value.1;
    BytesAt(c3, e.policy, t, PolicyField);
  }

  lemma BytesAt(c: Cursor, b: bytes, t: bytes, field: Field)
    requires |b| <= U32_MAX && At(c, PushU32Prefixed(b) + t)
    ensures ReadPrefixed(c, 4, field).Ok?
    ensures ReadPrefixed(c, 4, field).value.0 == b && At(ReadPrefixed(c, 4, field).value.1, t)
  {
    Widths();
    hide LE, At, ReadPrefixed;
    PrefixedAt(c, b, 4, t, field);
  }

  lemma EntryAt(c: Cursor, e: RecoveryEntry, t: bytes)
    requires FieldsFit(e) && At(c, EntryBytes(e) + t)
    ensures ReadEntry(c).Ok?
    ensures ReadEntry(c).value.0 == e && At(ReadEntry(c).value.1, t)
  {
    hide At, Take, ReadText, ReadTail, PushU32Prefixed, ValidUtf8, EntryTail;
    var t3 := EntryTail(e) + t;
    var t2 := PushU32Prefixed(e.username) + t3;
    var t1 := PushU32Prefixed(e.name) + t2;
    assert EntryBytes(e) + t == e.id + t1;
    TakeAt(c, e.id, t1, EntryIdField);
    var c1 := Take(c, 16, EntryIdField).value.1;
    TextAt(c1, e.name, t2, LabelField);
    var c2 := ReadText(c1, LabelField).value.1;
    TextAt(c2, e.username, t3, UsernameField);
    TailAt(ReadText(c2, UsernameField).value.1, e, t);
  }

  lemma {:induction false} EntryListAt(c: Cursor, es: seq<RecoveryEntry>, t: bytes)
    requires EntriesFit(es) && At(c, EntryListBytes(es) + t)
    ensures ReadEntryList(c, |es|).Ok?
    ensures ReadEntryList(c, |es|).value.0 == es && At(ReadEntryList(c, |es|).value.1, t)
    decreases |es|
  {
    hide At, EntryBytes, ReadEntry, FieldsFit;
    if es == [] {
      assert EntryListBytes(es) + t == t;
    } else {
      var e, rest := es[0], es[1..];
      assert es == [e] + rest;
      ConcatAssoc(EntryBytes(e), EntryListBytes(rest), t);
      EntryAt(c, e, EntryListBytes(rest) + t);
      EntryListAt(ReadEntry(c).value.1, rest, t);
    }
  }

  lemma PayloadHeadAt(c: Cursor, p: Payload, t: bytes)
    requires At(c, PayloadHead(p) + t)
    ensures ReadPayloadHead(c).Ok?
    ensures ReadPayloadHead(c).value.0 == (p.totpSeed, p.vaultKdf) && At(ReadPayloadHead(c).value.1, t)
  {
    hide At, Take, KdfBytes, KdfOfBytes;
    var t2 := KdfBytes(p.vaultKdf) + t;
    assert PayloadHead(p) + t == [PAYLOAD_VERSION] + (p.totpSeed + t2);
    TakeAt(c, [PAYLOAD_VERSION], p.totpSeed + t2, Field.PayloadVersion);
    var c1 := Take(c, 1, Field.PayloadVersion).value.1;
    TakeAt(c1, p.totpSeed, t2, TotpSeedField);
    var c2 := Take(c1, 32, TotpSeedField).value.1;
    TakeAt(c2, KdfBytes(p.vaultKdf), t, OriginalVaultKdf);
    KdfRoundTrip(p.vaultKdf);
  }

  lemma DecodeOfEncode(p: Payload)
    requires PayloadFits(p)
    ensures DecodePayload(EncodePayload(p)) == Ok(p)
  {
    Widths();
    hide At, LE, ReadUint, ReadPayloadHead, PayloadHead, ReadEntryList, EntryListBytes, EntriesFit;
    var b := EncodePayload(p);
    var t := EntryListBytes(p.entries);
    AtStart(b);
    PayloadHeadAt(Cursor(b, 0), p, LE(|p.entries|, 4) + t);
    var c1 := ReadPayloadHead(Cursor(b, 0)).value.1;
    UintAt(c1, |p.entries|, 4, t, EntryCount);
    var c2 := ReadUint(c1, 4, EntryCount).value.1;
    assert t + [] == t;
    EntryListAt(c2, p.entries, []);
    AtEnd(ReadEntryList(c2, |p.entries|).value.1);
  }

  // ----- Encode after decode ------------------------------------------------------------------

  lemma TextConsumes(c: Cursor, field: Field)
    requires ReadText(c, field).Ok?
    ensures var (s, d) := ReadText(c, field).value; Consumed(c, PushU32Prefixed(s), d) && |s| <= U32_MAX
  {
    hide ValidUtf8;
    BytesConsume(c, field);
  }

  lemma BytesConsume(c: Cursor, field: Field)
    requires ReadPrefixed(c, 4, field).Ok?
    ensures var (b, d) := ReadPrefixed(c, 4, field).value; Consumed(c, PushU32Prefixed(b), d) && |b| <= U32_MAX
  {
    Widths();
    hide LE, ReadPrefixed;
    PrefixedConsumes(c, 4, field);
  }

  lemma TailConsumes(c: Cursor)
    requires ReadTail(c).Ok?
    ensures var (t, d) := ReadTail(c).value;
            && Consumed(c,
                PushU32Prefixed(t.password)
                + (PushU32Prefixed(t.url) + (PushU32Prefixed(t.notes) + PushU32Prefixed(t.policy))), d)
            && |t.password| <= U32_MAX && |t.url| <= U32_MAX && |t.notes| <= U32_MAX && |t.policy| <= U32_MAX
  {
    hide ReadText, ReadPrefixed, PushU32Prefixed, ValidUtf8, Consumed;
    var (password, c1) := ReadText(c, PasswordField).value;
    var (url, c2) := ReadText(c1, UrlField).value;
    var (notes, c3) := ReadText(c2, NotesField).value;
    var (policy, c4) := ReadPrefixed(c3, 4, PolicyField).value;
    TextConsumes(c, PasswordField);
    TextConsumes(c1, UrlField);
    TextConsumes(c2, NotesField);
    BytesConsume(c3, PolicyField);
    ConsumedTwice(c2, PushU32Prefixed(notes), c3, PushU32Prefixed(policy), c4);
    ConsumedTwice(c1, PushU32Prefixed(url), c2, PushU32Prefixed(notes) + PushU32Prefixed(policy), c4);
    ConsumedTwice(c, PushU32Prefixed(password), c1,
        PushU32Prefixed(url) + (PushU32Prefixed(notes) + PushU32Prefixed(policy)), c4);
  }

  lemma EntryConsumes(c: Cursor)
    requires ReadEntry(c).Ok?
    ensures var (e, d) := ReadEntry(c).value; Consumed(c, EntryBytes(e), d) && FieldsFit(e)
  {
    var (id, c1) := Take(c, 16, EntryIdField).value;
    assert Consumed(c, id, c1);
    hide Take, ReadText, ReadTail, PushU32Prefixed, ValidUtf8, Consumed;
    var (name, c2) := ReadText(c1, LabelField).value;
    var (username, c3) := ReadText(c2, UsernameField).value;
    var (t, c4) := ReadTail(c3).value;
    TextConsumes(c1, LabelField);
    TextConsumes(c2, UsernameField);
    TailConsumes(c3);
    var e := RecoveryEntry(id, name, username, t.password, t.url, t.notes, t.policy);
    ConsumedTwice(c2, PushU32Prefixed(username), c3, EntryTail(e), c4);
    ConsumedTwice(c1, PushU32Prefixed(name), c2, PushU32Prefixed(username) + EntryTail(e), c4);
    ConsumedTwice(c, id, c1, PushU32Prefixed(name) + (PushU32Prefixed(username) + EntryTail(e)), c4);
  }

  lemma EntryLen(e: RecoveryEntry)
    ensures |EntryBytes(e)| >= 40
  {
    hide LE;
  }

  lemma {:induction false} EntryListConsumes(c: Cursor, n: nat)
    requires ReadEntryList(c, n).Ok?
    ensures var (es, d) := ReadEntryList(c, n).value;
            Consumed(c, EntryListBytes(es), d) && EntriesFit(es) && d.pos >= c.pos + 40 * n
    decreases n
  {
    hide ReadEntry, EntryBytes, FieldsFit;
    if n > 0 {
      var (e, c1) := ReadEntry(c).value;
      var (es, d) := ReadEntryList(c1, n - 1).value;
      EntryConsumes(c);
      EntryLen(e);
      EntryListConsumes(c1, n - 1);
      ConsumedTwice(c, EntryBytes(e), c1, EntryListBytes(es), d);
      assert ([e] + es)[1..] == es;
    }
  }

  lemma PayloadHeadConsumes(c: Cursor)
    requires ReadPayloadHead(c).Ok?
    ensures var (h, d) := ReadPayloadHead(c).value;
            Consumed(c, [PAYLOAD_VERSION] + h.0 + KdfBytes(h.1), d)
  {
    hide KdfBytes, KdfOfBytes;
    var (version, c1) := Take(c, 1, Field.PayloadVersion).value;
    var (seed, c2) := Take(c1, 32, TotpSeedField).value;
    var (kdf, c3) := Take(c2, 9, OriginalVaultKdf).value;
    KdfConverse(kdf);
    assert version == [PAYLOAD_VERSION];
    hide Take;
    ConsumedTwice(c, version, c1, seed, c2);
    ConsumedTwice(c, version + seed, c2, kdf, c3);
  }

  lemma EncodeOfDecode(b: bytes)
    requires DecodePayload(b).Ok?
    ensures PayloadFits(DecodePayload(b).value)
    ensures b == EncodePayload(DecodePayload(b).value)
    ensures 46 + 40 * |DecodePayload(b).value.entries| <= |b|
  {
    Widths();
    hide LE, ReadUint, ReadPayloadHead, ReadEntryList, EntryListBytes, EntriesFit, KdfBytes;
    var c := Cursor(b, 0);
    var (h, c1) := ReadPayloadHead(c).value;
    var (n, c2) := ReadUint(c1, 4, EntryCount).value;
    var (es, c3) := ReadEntryList(c2, n).value;
    PayloadHeadConsumes(c);
    UintConsumes(c1, 4, EntryCount);
    EntryListConsumes(c2, n);
    ConsumedTwice(c1, LE(n, 4), c2, EntryListBytes(es), c3);
    ConsumedTwice(c, [PAYLOAD_VERSION] + h.0 + KdfBytes(h.1), c1, LE(n, 4) + EntryListBytes(es), c3);
    assert b[0..|b|] == b;
  }

  /** Decoding accepts `b` as `p` exactly when `p` fits and `b` is its own encoding. */
  lemma PayloadCodec(b: bytes, p: Payload)
    ensures DecodePayload(b) == Ok(p) <==> PayloadFits(p) && b == EncodePayload(p)
  {
    hide EncodePayload, PayloadFits, DecodePayload;
    if DecodePayload(b) == Ok(p) {
      EncodeOfDecode(b);
    }
    if PayloadFits(p) {
      DecodeOfEncode(p);
    }
  }

  lemma {:induction false} ListFits(es: seq<RecoveryEntry>)
    requires |EntryListBytes(es)| <= U32_MAX
    ensures EntriesFit(es) && 40 * |es| <= |EntryListBytes(es)|
  {
    if es != [] {
      EntryFits(es[0]);
      EntryLen(es[0]);
      hide EntryBytes, FieldsFit;
      ListFits(es[1..]);
      assert es == [es[0]] + es[1..];
    }
  }

  lemma EntryFits(e: RecoveryEntry)
    requires |EntryBytes(e)| <= U32_MAX
    ensures FieldsFit(e)
  {
    hide LE, ValidUtf8;
  }

  /** A short encoding clamps nothing. */
  lemma ShortPayloadFits(p: Payload)
    requires |EncodePayload(p)| <= U32_MAX
    ensures PayloadFits(p)
  {
    hide EntryListBytes, EntriesFit, PayloadHead;
    ListFits(p.entries);
  }

  // ----- File frame --------------------------------------------------------------------------

  datatype Frame = Frame(params: KdfParams, salt: Salt, nonce: Nonce, ct: bytes)

  function FrameBytes(f: Frame): bytes {
    MagicBytes() + ([RECOVERY_FORMAT_VERSION, KDF_ALGORITHM_ARGON2ID] + (KdfBytes(f.params)
    + (f.salt + (f.nonce + PushU32Prefixed(f.ct)))))
  }

  function ReadMagic(c: Cursor): Read<()> {
    var (magic, c1) :- Take(c, 6, Magic);
    if magic != MagicBytes() then Err(BadMagic)
    else
      var (version, c2) :- Take(c1, 1, FormatVersion);
      if version[0] != RECOVERY_FORMAT_VERSION then Err(UnsupportedVersion(version[0]))
      else
        var (kdfId, c3) :- Take(c2, 1, KdfAlgorithmId);
        if kdfId[0] != KDF_ALGORITHM_ARGON2ID then Err(UnsupportedKdfAlgorithm(kdfId[0]))
        else Ok(((), c3))
  }

  /** The three cost fields, rejected out of range before anything is derived. */
  function ReadParams(c: Cursor): Read<KdfParams> {
    var (m, c1) :- ReadUint(c, 4, ArgonM);
    var (t, c2) :- ReadUint(c1, 4, ArgonT);
    var (p, c3) :- Take(c2, 1, ArgonP);
    Widths();
    var params := KdfParams(m, t, p[0]);
    if !WithinLimits(params) then Err(KdfParamsOutOfRange) else Ok((params, c3))
  }

  function ParseFrame(b: bytes): Result<Frame, Error> {
    var (_, c1) :- ReadMagic(Cursor(b, 0));
    var (params, c2) :- ReadParams(c1);
    var (salt, c3) :- Take(c2, 32, RecoverySalt);
    var (nonce, c4) :- Take(c3, 24, NonceField);
    var (ct, c5) :- ReadCiphertext(c4);
    var _ :- ExpectEof(c5);
    Ok(Frame(params, salt, nonce, ct))
  }

  function ReadCiphertext(c: Cursor): Read<bytes> {
    var (n, d) :- ReadUint(c, 4, PayloadCtLen);
    Take(d, n, PayloadCt)
  }

  lemma MagicAt(c: Cursor, t: bytes)
    requires At(c, MagicBytes() + ([RECOVERY_FORMAT_VERSION, KDF_ALGORITHM_ARGON2ID] + t))
    ensures ReadMagic(c).Ok? && At(ReadMagic(c).value.1, t)
  {
    hide At, Take, MagicBytes;
    var t2 := [KDF_ALGORITHM_ARGON2ID] + t;
    assert [RECOVERY_FORMAT_VERSION, KDF_ALGORITHM_ARGON2ID] + t == [RECOVERY_FORMAT_VERSION] + t2;
    TakeAt(c, MagicBytes(), [RECOVERY_FORMAT_VERSION] + t2, Magic);
    var c1 := Take(c, 6, Magic).value.1;
    TakeAt(c1, [RECOVERY_FORMAT_VERSION], t2, FormatVersion);
    var c2 := Take(c1, 1, FormatVersion).value.1;
    TakeAt(c2, [KDF_ALGORITHM_ARGON2ID], t, KdfAlgorithmId);
  }

  lemma ParamsAt(c: Cursor, k: KdfParams, t: bytes)
    requires WithinLimits(k) && At(c, KdfBytes(k) + t)
    ensures ReadParams(c).Ok?
    ensures ReadParams(c).value.0 == k && At(ReadParams(c).value.1, t)
  {
    Widths();
    hide At, Take, ReadUint, LE, WithinLimits;
    var t2 := [k.p] + t;
    assert KdfBytes(k) + t == LE(k.mKib, 4) + (LE(k.t, 4) + t2);
    UintAt(c, k.mKib, 4, LE(k.t, 4) + t2, ArgonM);
    var c1 := ReadUint(c, 4, ArgonM).value.1;
    UintAt(c1, k.t, 4, t2, ArgonT);
    TakeAt(ReadUint(c1, 4, ArgonT).value.1, [k.p], t, ArgonP);
  }

  lemma CiphertextAt(c: Cursor, ct: bytes)
    requires |ct| <= U32_MAX && At(c, PushU32Prefixed(ct))
    ensures ReadCiphertext(c).Ok?
    ensures ReadCiphertext(c).value.0 == ct && At(ReadCiphertext(c).value.1, [])
  {
    Widths();
    hide At, Take, ReadUint, LE;
    UintAt(c, |ct|, 4, ct, PayloadCtLen);
    assert ct + [] == ct;
    TakeAt(ReadUint(c, 4, PayloadCtLen).value.1, ct, [], PayloadCt);
  }

  lemma ParseOfFrame(f: Frame)
    requires WithinLimits(f.params) && |f.ct| <= U32_MAX
    ensures ParseFrame(FrameBytes(f)) == Ok(f)
  {
    hide At, Take, ReadMagic, ReadParams, ReadCiphertext, KdfBytes, PushU32Prefixed, WithinLimits, MagicBytes;
    var b := FrameBytes(f);
    var t4 := PushU32Prefixed(f.ct);
    var t3 := f.nonce + t4;
    var t2 := f.salt + t3;
    AtStart(b);
    MagicAt(Cursor(b, 0), KdfBytes(f.params) + t2);
    var c1 := ReadMagic(Cursor(b, 0)).value.1;
    ParamsAt(c1, f.params, t2);
    var c2 := ReadParams(c1).value.1;
    TakeAt(c2, f.salt, t3, RecoverySalt);
    var c3 := Take(c2, 32, RecoverySalt).value.1;
    TakeAt(c3, f.nonce, t4, NonceField);
    var c4 := Take(c3, 24, NonceField).value.1;
    CiphertextAt(c4, f.ct);
    AtEnd(ReadCiphertext(c4).value.1);
  }

  lemma MagicConsumes(c: Cursor)
    requires ReadMagic(c).Ok?
    ensures Consumed(c, MagicBytes() + [RECOVERY_FORMAT_VERSION, KDF_ALGORITHM_ARGON2ID], ReadMagic(c).value.1)
  {
    hide MagicBytes;
    var (magic, c1) := Take(c, 6, Magic).value;
    var (version, c2) := Take(c1, 1, FormatVersion).value;
    var (kdfId, c3) := Take(c2, 1, KdfAlgorithmId).value;
    assert version + kdfId == [RECOVERY_FORMAT_VERSION, KDF_ALGORITHM_ARGON2ID];
    hide Take;
    ConsumedTwice(c1, version, c2, kdfId, c3);
    ConsumedTwice(c, magic, c1, version + kdfId, c3);
  }

  lemma ParamsConsume(c: Cursor)
    requires ReadParams(c).Ok?
    ensures var (k, d) := ReadParams(c).value; Consumed(c, KdfBytes(k), d) && WithinLimits(k)
  {
    hide LE, WithinLimits;
    var (m, c1) := ReadUint(c, 4, ArgonM).value;
    var (t, c2) := ReadUint(c1, 4, ArgonT).value;
    var (p, c3) := Take(c2, 1, ArgonP).value;
    assert p == [p[0]];
    UintConsumes(c, 4, ArgonM);
    UintConsumes(c1, 4, ArgonT);
    hide Take, ReadUint;
    ConsumedTwice(c, LE(m, 4), c1, LE(t, 4), c2);
    ConsumedTwice(c, LE(m, 4) + LE(t, 4), c2, p, c3);
  }

  lemma CiphertextConsumes(c: Cursor)
    requires ReadCiphertext(c).Ok?
    ensures var (ct, d) := ReadCiphertext(c).value; Consumed(c, PushU32Prefixed(ct), d) && |ct| <= U32_MAX
  {
    Widths();
    hide LE;
    var (n, c1) := ReadUint(c, 4, PayloadCtLen).value;
    UintConsumes(c, 4, PayloadCtLen);
    ConsumedTwice(c, LE(n, 4), c1, Take(c1, n, PayloadCt).value.0, Take(c1, n, PayloadCt).value.1);
  }

  lemma FrameOfParse(b: bytes)
    requires ParseFrame(b).Ok?
    ensures var f := ParseFrame(b).value;
            b == FrameBytes(f) && WithinLimits(f.params) && |f.ct| <= U32_MAX
  {
    var c := Cursor(b, 0);
    var c1 := ReadMagic(c).value.1;
    var (params, c2) := ReadParams(c1).value;
    var (salt, c3) := Take(c2, 32, RecoverySalt).value;
    var (nonce, c4) := Take(c3, 24, NonceField).value;
    var (ct, c5) := ReadCiphertext(c4).value;
    assert Consumed(c2, salt, c3) && Consumed(c3, nonce, c4);
    assert ParseFrame(b) == Ok(Frame(params, salt, nonce, ct)) && WithinLimits(params) && c5.pos == |c5.buf|;
    hide Take, ReadMagic, ReadParams, ReadCiphertext, KdfBytes, PushU32Prefixed, WithinLimits, MagicBytes, ParseFrame;
    MagicConsumes(c);
    ParamsConsume(c1);
    CiphertextConsumes(c4);
    var t4 := PushU32Prefixed(ct);
    ConsumedTwice(c3, nonce, c4, t4, c5);
    ConsumedTwice(c2, salt, c3, nonce + t4, c5);
    ConsumedTwice(c1, KdfBytes(params), c2, salt + (nonce + t4), c5);
    ConsumedTwice(c, MagicBytes() + [RECOVERY_FORMAT_VERSION, KDF_ALGORITHM_ARGON2ID], c1,
                  KdfBytes(params) + (salt + (nonce + t4)), c5);
    ConcatAssoc(MagicBytes(), [RECOVERY_FORMAT_VERSION, KDF_ALGORITHM_ARGON2ID],
                KdfBytes(params) + (salt + (nonce + t4)));
    assert b[0..|b|] == b;
  }

  /** The frame fields stand where the format's offset table puts them. */
  lemma FrameOffsets(f: Frame)
    ensures var s := FrameBytes(f);
            && |s| == 77 + |f.ct| && s[..6] == Ascii("PSMREC") && s[6] == 0x01 && s[7] == 0x00
            && s[8..12] == LE(f.params.mKib, 4) && s[12..16] == LE(f.params.t, 4) && s[16] == f.params.p
            && s[17..49] == f.salt && s[49..73] == f.nonce
            && s[73..77] == LE(ClampU32(|f.ct|), 4) && s[77..] == f.ct
  {
    hide LE, Ascii;
    var s, k := FrameBytes(f), KdfBytes(f.params);
    assert s[8..17] == k;
    SubSlice(s, 8, 17, 0, 4);
    SubSlice(s, 8, 17, 4, 8);
    assert k[..4] == LE(f.params.mKib, 4) && k[4..8] == LE(f.params.t, 4) && k[8] == f.params.p;
  }

  /** And the payload fields: version, seed, the vault's KDF parameters, the entry count. */
  lemma PayloadOffsets(p: Payload)
    ensures var s := EncodePayload(p);
            && |s| >= 46 && s[0] == 0x01 && s[1..33] == p.totpSeed && s[33..42] == KdfBytes(p.vaultKdf)
            && s[42..46] == LE(ClampU32(|p.entries|), 4) && s[46..] == EntryListBytes(p.entries)
  {
    hide LE, KdfBytes, EntryListBytes;
  }

  /** And within an entry: id, then label, username, password, URL, notes and policy, each after its length. */
  lemma EntryLayout(e: RecoveryEntry)
    ensures EntryBytes(e)
         == e.id + PushU32Prefixed(e.name) + PushU32Prefixed(e.username) + PushU32Prefixed(e.password)
            + PushU32Prefixed(e.url) + PushU32Prefixed(e.notes) + PushU32Prefixed(e.policy)
  {
    hide PushU32Prefixed, ValidUtf8;
    SevenParts(e.id, PushU32Prefixed(e.name), PushU32Prefixed(e.username), PushU32Prefixed(e.password),
               PushU32Prefixed(e.url), PushU32Prefixed(e.notes), PushU32Prefixed(e.policy));
  }

  lemma SevenParts(i: bytes, n: bytes, u: bytes, p: bytes, l: bytes, t: bytes, y: bytes)
    ensures i + (n + (u + (p + (l + (t + y))))) == i + n + u + p + l + t + y
  {
    ConcatAssoc(i + n + u + p + l, t, y);
    ConcatAssoc(i + n + u + p, l, t + y);
    ConcatAssoc(i + n + u, p, l + (t + y));
    ConcatAssoc(i + n, u, p + (l + (t + y)));
    ConcatAssoc(i, n, u + (p + (l + (t + y))));
  }

  /** Another magic, version or algorithm, or a cost outside the limits, is refused by name, in that order. */
  lemma FrameRefusals(b: bytes)
    ensures |b| >= 6 && b[..6] != Ascii("PSMREC") ==> ParseFrame(b) == Err(BadMagic)
    ensures |b| >= 7 && b[..6] == Ascii("PSMREC") && b[6] != 1 ==> ParseFrame(b) == Err(UnsupportedVersion(b[6]))
    ensures |b| >= 8 && b[..6] == Ascii("PSMREC") && b[6] == 1 && b[7] != 0 ==>
              ParseFrame(b) == Err(UnsupportedKdfAlgorithm(b[7]))
  {
    hide Ascii, ReadParams, ReadCiphertext;
  }

  lemma CostRefusal(params: KdfParams, rest: bytes)
    requires !WithinLimits(params)
    ensures ParseFrame(Ascii("PSMREC") + ([1, 0] + (KdfBytes(params) + rest))) == Err(KdfParamsOutOfRange)
  {
    hide Ascii, WithinLimits, LE, UnLE, ReadCiphertext;
    var c := Cursor(Ascii("PSMREC") + ([1, 0] + (KdfBytes(params) + rest)), 0);
    assert c.buf[0..] == c.buf;
    MagicAt(c, KdfBytes(params) + rest);
    var d := ReadMagic(c).value.1;
    assert KdfBytes(params) + rest == LE(params.mKib, 4) + (LE(params.t, 4) + ([params.p] + rest));
    Widths();
    UintAt(d, params.mKib, 4, LE(params.t, 4) + ([params.p] + rest), ArgonM);
    var e := ReadUint(d, 4, ArgonM).value.1;
    UintAt(e, params.t, 4, [params.p] + rest, ArgonT);
    TakeAt(ReadUint(e, 4, ArgonT).value.1, [params.p], rest, ArgonP);
  }

  // ----- Export and import ----------------------------------------------------------------------

  /** `seal`: random salt and nonce are arguments. */
  function SealFile(P: Prims, p: Payload, password: Text, params: KdfParams, available: Option<u64>,
                    salt: Salt, nonce: Nonce): Result<bytes, Error> {
    var k :- DeriveRecoveryKey(P, password, salt, params, available);
    Ok(FrameBytes(Frame(params, salt, nonce, P.sealing(k, nonce, RecoveryAd(), EncodePayload(p)))))
  }

  function ExportFile(P: Prims, p: Payload, password: Text, params: KdfParams, available: Option<u64>,
                      salt: Salt, nonce: Nonce): Result<bytes, Error> {
    if !MeetsFloor(params) then Err(WeakParams) else SealFile(P, p, password, params, available, salt, nonce)
  }

  function ImportFile(P: Prims, file: bytes, password: Text, available: Option<u64>): Result<Payload, Error> {
    var f :- ParseFrame(file);
    if |f.ct| < TAG_LEN then Err(Decrypt)
    else
      var k :- DeriveRecoveryKey(P, password, f.salt, f.params, available);
      match P.opening(k, f.nonce, RecoveryAd(), f.ct)
      case None => Err(Decrypt)
      case Some(plaintext) => DecodePayload(plaintext)
  }

  /** The sealed payload fits the file's u32 length field. */
  predicate SealFits(p: Payload) { |EncodePayload(p)| + TAG_LEN <= U32_MAX }

  lemma ImportOfSeal(P: Prims, p: Payload, password: Text, params: KdfParams, available: Option<u64>,
                     salt: Salt, nonce: Nonce, importAvailable: Option<u64>)
    requires SealFile(P, p, password, params, available, salt, nonce).Ok?
    requires Derivable(params, importAvailable) && SealFits(p)
    ensures var file := SealFile(P, p, password, params, available, salt, nonce).value;
            ImportFile(P, file, password, importAvailable) == Ok(p)
  {
    hide EncodePayload, FrameBytes, ParseFrame, DecodePayload;
    var k := DeriveRecoveryKey(P, password, salt, params, available).value;
    ParseOfFrame(Frame(params, salt, nonce, P.sealing(k, nonce, RecoveryAd(), EncodePayload(p))));
    ShortPayloadFits(p);
    DecodeOfEncode(p);
  }

  lemma SealOfImport(P: Prims, file: bytes, password: Text, available: Option<u64>)
    requires ImportFile(P, file, password, available).Ok?
    ensures var p, f := ImportFile(P, file, password, available).value, ParseFrame(file).value;
            SealFits(p) && SealFile(P, p, password, f.params, available, f.salt, f.nonce) == Ok(file)
  {
    hide EncodePayload, FrameBytes, ParseFrame, DecodePayload, DeriveRecoveryKey, RecoveryAd;
    var f := ParseFrame(file).value;
    FrameOfParse(file);
    var k := DeriveRecoveryKey(P, password, f.salt, f.params, available).value;
    var plaintext := P.opening(k, f.nonce, RecoveryAd(), f.ct).value;
    EncodeOfDecode(plaintext);
    assert f.ct == P.sealing(k, f.nonce, RecoveryAd(), plaintext) && |f.ct| == |plaintext| + TAG_LEN;
  }

  /** Import accepts a file exactly when sealing the payload it returns would write that file. */
  lemma ImportedFiles(P: Prims, file: bytes, password: Text, available: Option<u64>, p: Payload)
    ensures ImportFile(P, file, password, available) == Ok(p) <==>
            SealFits(p) && exists params: KdfParams, salt: Salt, nonce: Nonce ::
              SealFile(P, p, password, params, available, salt, nonce) == Ok(file)
  {
    hide SealFits, ParseFrame;
    if ImportFile(P, file, password, available) == Ok(p) {
      hide SealFile, ImportFile;
      SealOfImport(P, file, password, available);
    }
    if params: KdfParams, salt: Salt, nonce: Nonce :|
        SealFits(p) && SealFile(P, p, password, params, available, salt, nonce) == Ok(file) {
      ImportOfSeal(P, p, password, params, available, salt, nonce, available);
    }
  }

  /** An export is restored, with enough memory, exactly when it fits the length field. */
  lemma ExportImports(P: Prims, p: Payload, password: Text, params: KdfParams, available: Option<u64>,
                      salt: Salt, nonce: Nonce, importAvailable: Option<u64>)
    requires ExportFile(P, p, password, params, available, salt, nonce).Ok? && Derivable(params, importAvailable)
    ensures var file := ExportFile(P, p, password, params, available, salt, nonce).value;
            ImportFile(P, file, password, importAvailable) == Ok(p) <==> SealFits(p)
  {
    hide SealFile, ImportFile, SealFits, Derivable;
    var file := ExportFile(P, p, password, params, available, salt, nonce).value;
    if SealFits(p) {
      ImportOfSeal(P, p, password, params, available, salt, nonce, importAvailable);
    }
    if ImportFile(P, file, password, importAvailable) == Ok(p) {
      SealOfImport(P, file, password, importAvailable);
    }
  }
}
