/** Export and import of recovery files, step by step, proved against the recovery model. */
module Recovery {
  import opened Bytes
  import opened Errors
  import opened Types
  import opened Primitives
  import opened Cursors
  import opened VaultModel
  import opened VaultCodec
  import opened Kdf
  import opened RecoveryModel

  method EncodePayloadBuffer(p: Payload) returns (buf: bytes)
    ensures buf == EncodePayload(p)
  {
    hide EntryBytes, KdfBytes, LE;
    buf := [PAYLOAD_VERSION] + p.totpSeed + KdfBytes(p.vaultKdf) + LE(ClampU32(|p.entries|), 4);
    ghost var head := buf;
    assert head == PayloadHead(p) + LE(ClampU32(|p.entries|), 4);
    for i := 0 to |p.entries|
      invariant buf + EntryListBytes(p.entries[i..]) == head + EntryListBytes(p.entries)
    {
      var e := p.entries[i];
      assert p.entries[i..][1..] == p.entries[i + 1..];
      ConcatAssoc(buf, EntryBytes(e), EntryListBytes(p.entries[i + 1..]));
      var entry := EncodeEntry(e);
      buf := buf + entry;
    }
    assert p.entries[|p.entries|..] == [] && buf + [] == buf;
    ConcatAssoc(PayloadHead(p), LE(ClampU32(|p.entries|), 4), EntryListBytes(p.entries));
  }

  method EncodeEntry(e: RecoveryEntry) returns (buf: bytes)
    ensures buf == EntryBytes(e)
  {
    hide PushU32Prefixed, ValidUtf8;
    buf := e.id;
    buf := buf + PushU32Prefixed(e.name);
    buf := buf + PushU32Prefixed(e.username);
    buf := buf + PushU32Prefixed(e.password);
    buf := buf + PushU32Prefixed(e.url);
    buf := buf + PushU32Prefixed(e.notes);
    buf := buf + PushU32Prefixed(e.policy);
  }

  method ReadTextField(rd: Reader, field: Field) returns (r: Result<Text, Error>)
    requires rd.Valid()
    modifies rd
    ensures rd.Did(old(ReadText(rd.Here(), field)), r)
  {
    hide ReadPrefixed, ValidUtf8;
    var body :- rd.ReadPrefixedVec(4, field);
    if !ValidUtf8(body) { return Err(MalformedPayload(NotUtf8)); }
    return Ok(body);
  }

  method ReadEntryTail(rd: Reader) returns (r: Result<Tail, Error>)
    requires rd.Valid()
    modifies rd
    ensures rd.Did(old(ReadTail(rd.Here())), r)
  {
    hide ReadText, ReadPrefixed, ValidUtf8;
    var password :- ReadTextField(rd, PasswordField);
    var url :- ReadTextField(rd, UrlField);
    var notes :- ReadTextField(rd, NotesField);
    var policy :- rd.ReadPrefixedVec(4, PolicyField);
    return Ok(Tail(password, url, notes, policy));
  }

  method ReadOneEntry(rd: Reader) returns (r: Result<RecoveryEntry, Error>)
    requires rd.Valid()
    modifies rd
    ensures rd.Did(old(ReadEntry(rd.Here())), r)
  {
    hide ReadText, ReadTail, ValidUtf8;
    var id :- rd.TakeBytes(16, EntryIdField);
    var name :- ReadTextField(rd, LabelField);
    var username :- ReadTextField(rd, UsernameField);
    var t :- ReadEntryTail(rd);
    return Ok(RecoveryEntry(id, name, username, t.password, t.url, t.notes, t.policy));
  }

  method ReadHead(rd: Reader) returns (r: Result<(Seed, KdfParams), Error>)
    requires rd.Valid()
    modifies rd
    ensures rd.Did(old(ReadPayloadHead(rd.Here())), r)
  {
    hide KdfOfBytes;
    var version :- rd.ReadU8(Field.PayloadVersion);
    if version != PAYLOAD_VERSION { return Err(MalformedPayload(BadPayloadVersion)); }
    var seed :- rd.TakeBytes(32, TotpSeedField);
    var kdf :- rd.TakeBytes(9, OriginalVaultKdf);
    return Ok((seed, KdfOfBytes(kdf)));
  }

  method ReadEntries(rd: Reader, n: nat) returns (r: Result<seq<RecoveryEntry>, Error>)
    requires rd.Valid()
    modifies rd
    ensures rd.Did(old(ReadEntryList(rd.Here(), n)), r)
  {
    hide ReadEntry;
    var entries: seq<RecoveryEntry> := [];
    ghost var all := ReadEntryList(rd.Here(), n);
    PushNothing(all);
    for i := 0 to n
      invariant rd.Valid()
      invariant all == PushFront(entries, ReadEntryList(rd.Here(), n - i))
    {
      var e :- ReadOneEntry(rd);
      PushOne(entries, e, ReadEntryList(rd.Here(), n - i - 1));
      entries := entries + [e];
    }
    assert entries + [] == entries;
    return Ok(entries);
  }

  method DecodePayloadBuffer(plaintext: bytes) returns (r: Result<Payload, Error>)
    ensures r == DecodePayload(plaintext)
  {
    hide ReadPayloadHead, ReadUint, ReadEntryList;
    var rd := new Reader(plaintext);
    var head :- ReadHead(rd);
    var n :- rd.ReadUintLE(4, EntryCount);
    var entries :- ReadEntries(rd, n);
    var _ :- rd.Eof();
    return Ok(Payload(head.0, head.1, entries));
  }

  method WriteFrame(params: KdfParams, salt: Salt, nonce: Nonce, ct: bytes) returns (file: bytes)
    ensures file == FrameBytes(Frame(params, salt, nonce, ct))
  {
    hide KdfBytes, MagicBytes, LE;
    file := MagicBytes() + [RECOVERY_FORMAT_VERSION];
    file := file + [KDF_ALGORITHM_ARGON2ID];
    file := file + KdfBytes(params);
    file := file + salt;
    file := file + nonce;
    file := file + LE(ClampU32(|ct|), 4);
    file := file + ct;
  }

  method Seal(P: Prims, p: Payload, password: Text, params: KdfParams, available: Option<u64>,
              salt: Salt, nonce: Nonce) returns (r: Result<bytes, Error>)
    ensures r == SealFile(P, p, password, params, available, salt, nonce)
  {
    hide EncodePayload, FrameBytes;
    var plaintext := EncodePayloadBuffer(p);
    var k :- DeriveRecoveryKey(P, password, salt, params, available);
    var ct := P.sealing(k, nonce, RecoveryAd(), plaintext);
    var file := WriteFrame(params, salt, nonce, ct);
    return Ok(file);
  }

  method ExportWithinMemory(P: Prims, p: Payload, password: Text, params: KdfParams, available: Option<u64>,
                            salt: Salt, nonce: Nonce) returns (r: Result<bytes, Error>)
    ensures r == ExportFile(P, p, password, params, available, salt, nonce)
  {
    if !MeetsFloor(params) { return Err(WeakParams); }
    r := Seal(P, p, password, params, available, salt, nonce);
  }

  method ReadMagicBytes(rd: Reader) returns (r: Result<(), Error>)
    requires rd.Valid()
    modifies rd
    ensures rd.Did(old(ReadMagic(rd.Here())), r)
  {
    hide MagicBytes;
    var magic :- rd.TakeBytes(6, Magic);
    if magic != MagicBytes() { return Err(BadMagic); }
    var version :- rd.ReadU8(FormatVersion);
    if version != RECOVERY_FORMAT_VERSION { return Err(UnsupportedVersion(version)); }
    var kdfId :- rd.ReadU8(KdfAlgorithmId);
    if kdfId != KDF_ALGORITHM_ARGON2ID { return Err(UnsupportedKdfAlgorithm(kdfId)); }
    return Ok(());
  }

  method ReadCostParams(rd: Reader) returns (r: Result<KdfParams, Error>)
    requires rd.Valid()
    modifies rd
    ensures rd.Did(old(ReadParams(rd.Here())), r)
  {
    Widths();
    hide WithinLimits, ReadUint;
    var m :- rd.ReadUintLE(4, ArgonM);
    var t :- rd.ReadUintLE(4, ArgonT);
    var p :- rd.ReadU8(ArgonP);
    var params := KdfParams(m, t, p);
    if !WithinLimits(params) { return Err(KdfParamsOutOfRange); }
    return Ok(params);
  }

  method ReadFrame(file: bytes) returns (r: Result<Frame, Error>)
    ensures r == ParseFrame(file)
  {
    hide ReadMagic, ReadParams;
    var rd := new Reader(file);
    var _ :- ReadMagicBytes(rd);
    var params :- ReadCostParams(rd);
    var salt :- rd.TakeBytes(32, RecoverySalt);
    var nonce :- rd.TakeBytes(24, NonceField);
    var ctLen :- rd.ReadUintLE(4, PayloadCtLen);
    var ct :- rd.TakeBytes(ctLen, PayloadCt);
    var _ :- rd.Eof();
    return Ok(Frame(params, salt, nonce, ct));
  }

  method ImportWithinMemory(P: Prims, file: bytes, password: Text, available: Option<u64>)
    returns (r: Result<Payload, Error>)
    ensures r == ImportFile(P, file, password, available)
  {
    hide ParseFrame, DecodePayload, DeriveRecoveryKey;
    var f :- ReadFrame(file);
    if |f.ct| < TAG_LEN { return Err(Decrypt); }
    var k :- DeriveRecoveryKey(P, password, f.salt, f.params, available);
    match P.opening(k, f.nonce, RecoveryAd(), f.ct) {
      case None => return Err(Decrypt);
      case Some(plaintext) => r := DecodePayloadBuffer(plaintext);
    }
  }
}
