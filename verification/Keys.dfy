/**
 * What every key is mixed from, what every ciphertext is sealed under, and what an unlock,
 * a creation and an import require and leave, in terms of the primitives alone.
 */
module Keys {
  import opened Bytes
  import opened Errors
  import opened Types
  import opened Primitives
  import opened KeyedLists
  import opened Records
  import opened VaultModel
  import opened VaultCodec
  import opened Kdf
  import opened Lockout
  import opened Totp
  import opened Storage
  import opened RecoveryModel
  import opened Rebuild
  import opened App
  import opened AppModel
  import opened AppRuns
  import Transfer

  // ----- Keys --------------------------------------------------------------------------------

  /** Both the password and the hardware secret go in. */
  function MasterOf(P: Prims, password: Text, salt: Salt, kdf: KdfParams, kHsm: bytes): Key {
    P.extract(salt, P.argon2(password, salt, kdf) + kHsm, Ascii("passman-master-v0"))
  }

  /** A backup depends on its password only. */
  function RecoveryKeyOf(P: Prims, password: Text, salt: Salt, kdf: KdfParams): Key {
    P.extract(salt, P.argon2(password, salt, kdf), Ascii("recovery-export-v0"))
  }

  /** One to 16 lanes, one to 24 passes, 8 KiB a lane to 8 GiB, and at most four fifths of the free memory. */
  predicate Affordable(k: KdfParams, available: Option<u64>) {
    && 1 <= k.p <= 16 && 1 <= k.t <= 24 && 8 * k.p <= k.mKib <= 8_388_608
    && (available.Some? ==> k.mKib <= available.value / 5 * 4)
  }

  lemma AffordableIff(k: KdfParams, available: Option<u64>)
    ensures Derivable(k, available) <==> Affordable(k, available)
    ensures WithinLimits(k) <==> Affordable(k, None)
  {
  }

  lemma MasterIs(P: Prims, password: Text, salt: Salt, kdf: KdfParams, kHsm: bytes, available: Option<u64>)
    ensures DeriveMaster(P, password, salt, kdf, kHsm, available)
         == if |kHsm| != 32 then Err(MalformedBlob)
            else if !Affordable(kdf, available) then Err(Error.Kdf)
            else Ok(MasterOf(P, password, salt, kdf, kHsm))
  {
  }

  lemma RecoveryKeyIs(P: Prims, password: Text, salt: Salt, kdf: KdfParams, available: Option<u64>)
    ensures DeriveRecoveryKey(P, password, salt, kdf, available)
         == if !Affordable(kdf, available) then Err(Error.Kdf) else Ok(RecoveryKeyOf(P, password, salt, kdf))
  {
  }

  // ----- Ciphertexts -----------------------------------------------------------------------

  /** The probe is the fixed text sealed under the master key, bound to the header's first fields. */
  predicate ProbeSealed(P: Prims, v: VaultData, k: Key) {
    v.probeCt == P.sealing(k, v.probeNonce, [v.version, v.kdfId] + KdfBytes(v.kdf) + v.salt + Ascii("probe-v0"),
                           Ascii("PASSMAN_VAULT_v0"))
  }

  /** A key passes exactly if the probe was sealed under it. */
  lemma ProbeIff(P: Prims, v: VaultData, k: Key)
    ensures VerifyProbe(P, v, k) == if ProbeSealed(P, v, k) then Ok(()) else Err(AeadAuth)
  {
    hide KdfBytes, Ascii;
  }

  /** The index is sealed under its own key, bound to the format version. */
  predicate IndexSealed(P: Prims, v: VaultData, k: Key, plaintext: bytes) {
    v.indexCt == P.sealing(P.expand(k, Ascii("index-v0")), v.indexNonce, [v.version], plaintext)
  }

  /** Version 1 holds bare postcard, version 2 a length, the postcard and padding. */
  predicate IndexReads(P: Prims, version: byte, plaintext: bytes, rows: seq<Row>) {
    if version == 1 then P.rowsFromBytes(plaintext) == Some(rows)
    else
      && |plaintext| >= 4 && 4 + UnLE(plaintext[..4]) <= |plaintext|
      && P.rowsFromBytes(plaintext[4..4 + UnLE(plaintext[..4])]) == Some(rows)
  }

  lemma IndexIff(P: Prims, v: VaultData, k: Key, rows: seq<Row>)
    ensures DecryptIndex(P, v, k) == Ok(rows) <==>
            exists p: bytes :: IndexSealed(P, v, k, p) && IndexReads(P, v.version, p, rows)
  {
    hide Ascii, UnLE;
    match P.opening(IndexKey(P, k), v.indexNonce, [v.version], v.indexCt)
    case None =>
    case Some(p) =>
      assert IndexSealed(P, v, k, p);
      assert DecryptIndex(P, v, k) == Ok(rows) <==> IndexReads(P, v.version, p, rows);
  }

  /** An entry is sealed under a key of its own, bound to format version and id. */
  predicate EntrySealed(P: Prims, version: byte, k: Key, id: Id, e: Sealed, plaintext: bytes) {
    e.ct == P.sealing(P.expand(k, Ascii("entry-v0:") + id), e.nonce, [version] + id, plaintext)
  }

  lemma EntryIff(P: Prims, v: VaultData, k: Key, id: Id, r: EntryRecord)
    ensures DecryptEntry(P, v, k, id) == Ok(r) <==>
            && Find(v.envelopes, id).Some?
            && exists p: bytes ::
                 EntrySealed(P, v.version, k, id, Find(v.envelopes, id).value, p) && DecodeRecord(p) == Ok(r)
  {
    hide Ascii, DecodeRecord, Find;
    if Find(v.envelopes, id).Some? {
      var e := Find(v.envelopes, id).value;
      match P.opening(EntryKey(P, k, id), e.nonce, EntryAd(v.version, id), e.ct)
      case None =>
      case Some(p) => assert EntrySealed(P, v.version, k, id, e, p);
    }
  }

  /** The plaintext an index is written as. */
  function IndexText(P: Prims, version: byte, rows: seq<Row>): bytes {
    if version == 1 then P.rowsToBytes(rows) else Pad(P.rowsToBytes(rows))
  }

  /** An edit seals the record under the entry's key and the updated rows under the index key, with its two nonces. */
  lemma AddSeals(P: Prims, v: VaultData, k: Key, id: Id, body: RowBody, record: EntryRecord,
                 entryNonce: Nonce, indexNonce: Nonce)
    requires AddOrUpdate(P, v, k, id, body, record, entryNonce, indexNonce).1.Ok?
    ensures var w := AddOrUpdate(P, v, k, id, body, record, entryNonce, indexNonce).0;
            && Find(w.envelopes, id).Some? && w.indexNonce == indexNonce
            && var e := Find(w.envelopes, id).value;
            && e.nonce == entryNonce && EntrySealed(P, v.version, k, id, e, EncodeRecord(record))
            && DecryptIndex(P, v, k).Ok?
            && IndexSealed(P, w, k, IndexText(P, v.version, Put(DecryptIndex(P, v, k).value, id, body)))
  {
    hide Ascii, EncodeRecord, Put;
    var sealed := EncryptEntry(P, k, v.version, id, record, entryNonce);
    FindPut(v.envelopes, id, sealed, id);
    assert DecryptIndex(P, v.(envelopes := Put(v.envelopes, id, sealed)), k) == DecryptIndex(P, v, k);
  }

  /** A removal reseals the remaining rows with its nonce. */
  lemma RemoveSeals(P: Prims, v: VaultData, k: Key, id: Id, indexNonce: Nonce)
    requires VaultModel.Remove(P, v, k, id, indexNonce).1.Ok?
    ensures var w := VaultModel.Remove(P, v, k, id, indexNonce).0;
            && w.indexNonce == indexNonce && w.envelopes == Without(v.envelopes, id) && DecryptIndex(P, v, k).Ok?
            && IndexSealed(P, w, k, IndexText(P, v.version, Without(DecryptIndex(P, v, k).value, id)))
  {
    hide Ascii, Without;
    assert DecryptIndex(P, v.(envelopes := Without(v.envelopes, id)), k) == DecryptIndex(P, v, k);
  }

  /** Version, algorithm, salt, both blobs in their places, no failures, the creation time, and two ciphertexts. */
  function NewVaultOf(P: Prims, kdf: KdfParams, k: Key, f: Fresh, now: i64): VaultData {
    VaultData(2, 0, kdf, f.vaultSalt, f.probeNonce, NewProbe(P, kdf, k, f), f.kHsmBlob, f.seedBlob, 0, 0,
              Metadata(now, None), f.indexNonce,
              P.sealing(P.expand(k, Ascii("index-v0")), f.indexNonce, [2], Pad(P.rowsToBytes([]))), [])
  }

  function NewProbe(P: Prims, kdf: KdfParams, k: Key, f: Fresh): ProbeCt {
    P.sealing(k, f.probeNonce, [2, 0] + KdfBytes(kdf) + f.vaultSalt + Ascii("probe-v0"), Ascii("PASSMAN_VAULT_v0"))
  }

  lemma CreateIs(P: Prims, kdf: KdfParams, k: Key, f: Fresh, now: i64)
    ensures Create(P, kdf, f.vaultSalt, f.kHsmBlob, f.seedBlob, Metadata(now, None), k, f.probeNonce, f.indexNonce)
         == if |f.kHsmBlob| > 65_535 then Err(BlobTooLarge(KHsmWrapBlob))
            else if |f.seedBlob| > 65_535 then Err(BlobTooLarge(TotpSeedWrapBlob))
            else Ok(NewVaultOf(P, kdf, k, f, now))
  {
    hide Ascii, KdfBytes, Pad;
  }

  // ----- Backups -----------------------------------------------------------------------------

  /** At least 1 GiB, four passes and one lane for a backup. */
  predicate StrongEnough(k: KdfParams) { k.mKib >= 1_048_576 && k.t >= 4 && k.p >= 1 }

  function SealedPayload(P: Prims, p: Payload, password: Text, params: KdfParams, salt: Salt, nonce: Nonce): bytes {
    P.sealing(RecoveryKeyOf(P, password, salt, params), nonce, Ascii("PSMREC-v0"), EncodePayload(p))
  }

  lemma ExportFileIs(P: Prims, p: Payload, password: Text, params: KdfParams, available: Option<u64>,
                     salt: Salt, nonce: Nonce)
    ensures ExportFile(P, p, password, params, available, salt, nonce)
         == if !StrongEnough(params) then Err(WeakParams)
            else if !Affordable(params, available) then Err(Error.Kdf)
            else Ok(FrameBytes(Frame(params, salt, nonce, SealedPayload(P, p, password, params, salt, nonce))))
  {
    hide Ascii, EncodePayload, FrameBytes;
  }

  /** Import returns exactly the payload sealed in the frame under the key of the frame's salt and parameters. */
  lemma ImportFileIff(P: Prims, file: bytes, password: Text, available: Option<u64>, p: Payload)
    ensures ImportFile(P, file, password, available) == Ok(p) <==>
            && ParseFrame(file).Ok?
            && var f := ParseFrame(file).value;
            && Affordable(f.params, available) && |EncodePayload(p)| + 16 <= U32_MAX
            && f.ct == SealedPayload(P, p, password, f.params, f.salt, f.nonce)
  {
    hide Ascii, EncodePayload, ParseFrame, FrameBytes, DecodePayload;
    if ImportFile(P, file, password, available).Ok? {
      SealOfImport(P, file, password, available);
    }
    if ParseFrame(file).Ok? {
      var f := ParseFrame(file).value;
      FrameOfParse(file);
      if Affordable(f.params, available) && |EncodePayload(p)| + 16 <= U32_MAX
        && f.ct == SealedPayload(P, p, password, f.params, f.salt, f.nonce) {
        ImportOfSeal(P, p, password, f.params, available, f.salt, f.nonce, available);
      } else if ImportFile(P, file, password, available) == Ok(p) {
        ParseOfFrame(Frame(f.params, f.salt, f.nonce, SealedPayload(P, p, password, f.params, f.salt, f.nonce)));
      }
    }
  }

  /** What the seal of a frame opens to under a password. */
  function Unsealed(P: Prims, f: Frame, password: Text): Option<bytes> {
    P.opening(RecoveryKeyOf(P, password, f.salt, f.params), f.nonce, Ascii("PSMREC-v0"), f.ct)
  }

  /** The answer to a good frame: too short for its tag, too costly, not its seal, or what its payload decodes to. */
  lemma ImportFileIs(P: Prims, file: bytes, f: Frame, password: Text, available: Option<u64>)
    requires ParseFrame(file) == Ok(f)
    ensures ImportFile(P, file, password, available)
         == if |f.ct| < 16 then Err(Decrypt)
            else if !Affordable(f.params, available) then Err(Error.Kdf)
            else if Unsealed(P, f, password).None? then Err(Decrypt)
            else DecodePayload(Unsealed(P, f, password).value)
  {
    hide Ascii, ParseFrame, DecodePayload;
  }

  // ----- Unlocking ----------------------------------------------------------------------------

  /** Some counter near the clock, beyond the replay cache, has this code. */
  ghost predicate CodeTaken(P: Prims, w: VerifierState, seed: bytes, code: bytes, now: u64) {
    exists m: bytes :: TakenAt(P, w.config, w.cache, seed, code, now, m)
  }

  lemma CodeTakenIff(P: Prims, w: VerifierState, seed: bytes, code: bytes, now: u64)
    ensures CodeTaken(P, w, seed, code, now) <==> CodeAcceptable(P, w, seed, code, now)
  {
    hide CodeAt, VerifySpec, TakenAt, InWindow;
    AcceptsCodeIff(P, w.config, w.cache, seed, code, now);
    AcceptIff(P, w.config, w.cache, seed, code, now);
  }

  /** Everything an attempt needs. */
  ghost predicate MayEnter(P: Prims, allowed: bool, a: AppData, q: Attempt) {
    && allowed && LoadVault(a.file).Ok?
    && var v := LoadVault(a.file).value;
    && q.deviceLock.None? && Remaining(Level(a), q.now).None?
    && q.key(v.kHsmBlob).Ok? && q.seed(v.totpBlob).Ok? && |q.key(v.kHsmBlob).value| == 32
    && CodeTaken(P, Verifier(a), q.seed(v.totpBlob).value, q.code, q.codeNow)
    && Affordable(v.kdf, q.available)
    && var k := MasterOf(P, q.password, v.salt, v.kdf, q.key(v.kHsmBlob).value);
    ProbeSealed(P, v, k) && OpenIndex(P, v, k).Ok?
  }

  /** An attempt is granted exactly then; the session holds the mixed key and the unwrapped seed, for two minutes. */
  lemma EnteredExactly(P: Prims, allowed: bool, a: AppData, q: Attempt)
    ensures UnlockSpec(P, allowed, a, q).1.Ok? <==> MayEnter(P, allowed, a, q)
    ensures MayEnter(P, allowed, a, q) ==>
              var v := LoadVault(a.file).value;
              var k := MasterOf(P, q.password, v.salt, v.kdf, q.key(v.kHsmBlob).value);
              UnlockSpec(P, allowed, a, q).1.value
              == Session(k, q.seed(v.totpBlob).value, OpenIndex(P, v, k).value, Min(q.sessionNow + 120, U64_MAX))
  {
    GrantedIff(P, allowed, a, q);
    hide UnlockSpec, LoadVault, Remaining, OpenIndex, VerifyProbe, DeriveMaster, ProbeSealed, MasterOf, CodeTaken,
         CodeAcceptable, WithinLimits, Affordable;
    if LoadVault(a.file).Ok? {
      var v := LoadVault(a.file).value;
      if q.key(v.kHsmBlob).Ok? && q.seed(v.totpBlob).Ok? {
        var kHsm := q.key(v.kHsmBlob).value;
        MasterIs(P, q.password, v.salt, v.kdf, kHsm, q.available);
        AffordableIff(v.kdf, q.available);
        if Affordable(v.kdf, q.available) { AffordableInMemory(v.kdf, q.available); }
        ProbeIff(P, v, MasterOf(P, q.password, v.salt, v.kdf, kHsm));
        CodeTakenIff(P, Verifier(a), q.seed(v.totpBlob).value, q.code, q.codeNow);
      }
    }
    if UnlockSpec(P, allowed, a, q).1.Ok? {
      GrantedSession(P, allowed, a, q);
    }
  }

  lemma AffordableInMemory(k: KdfParams, available: Option<u64>)
    requires Affordable(k, available)
    ensures Affordable(k, None)
  {
  }

  lemma GrantedSession(P: Prims, allowed: bool, a: AppData, q: Attempt)
    requires UnlockSpec(P, allowed, a, q).1.Ok?
    ensures LoadVault(a.file).Ok?
    ensures var v := LoadVault(a.file).value;
            && q.key(v.kHsmBlob).Ok? && q.seed(v.totpBlob).Ok?
            && var k := DeriveMaster(P, q.password, v.salt, v.kdf, q.key(v.kHsmBlob).value, q.available);
            && k.Ok? && OpenIndex(P, v, k.value).Ok?
            && UnlockSpec(P, allowed, a, q).1.value
               == Session(k.value, q.seed(v.totpBlob).value, OpenIndex(P, v, k.value).value,
                          Min(q.sessionNow + 120, U64_MAX))
  {
    hide LoadVault, Refusal, VerifyTotp, VerifyProbe, OpenIndex, DeriveMaster, RecordFailure, RecordSuccess;
  }

  // ----- New vaults ----------------------------------------------------------------------------

  /** Creation writes the new vault under the mixed key and opens a session on it. */
  lemma CreatedExactly(P: Prims, allowed: bool, a: AppData, password: Text, kdf: KdfParams, config: Config,
                       e: Enrolment)
    ensures var (b, r) := CreateVaultSpec(P, allowed, a, password, kdf, config, e);
            var k := MasterOf(P, password, e.minted.vaultSalt, kdf, e.minted.kHsm);
            r.Ok? ==>
              && b == AppData(Some(Serialize(NewVaultOf(P, kdf, k, e.minted, e.now))), a.mem, config, None)
              && r.value.kMaster == k && r.value.seed == e.seed
              && r.value.expiry == Min(e.sessionNow + 120, U64_MAX)
  {
    hide DeriveMaster, Create, MasterOf, NewVaultOf, Serialize, Succeeds, OpenIndex, Affordable;
    MasterIs(P, password, e.minted.vaultSalt, kdf, e.minted.kHsm, e.available);
    CreateIs(P, kdf, MasterOf(P, password, e.minted.vaultSalt, kdf, e.minted.kHsm), e.minted, e.now);
  }

  /** The first gate of a creation that is closed names its error. */
  ghost function CreateRefusal(P: Prims, allowed: bool, password: Text, kdf: KdfParams, e: Enrolment): Option<Error> {
    var f := e.minted;
    var v := NewVaultOf(P, kdf, MasterOf(P, password, f.vaultSalt, kdf, f.kHsm), f, e.now);
    if !allowed then Some(BackendRefused)
    else if !e.keyEnrolled || !e.seedEnrolled then Some(Hsm)
    else if !Affordable(kdf, e.available) then Some(Error.Kdf)
    else if |f.kHsmBlob| > 65_535 then Some(BlobTooLarge(KHsmWrapBlob))
    else if |f.seedBlob| > 65_535 then Some(BlobTooLarge(TotpSeedWrapBlob))
    else if !Succeeds(e.faults, Serialize(v)) then Some(Io)
    else
      match OpenIndex(P, v, MasterOf(P, password, f.vaultSalt, kdf, f.kHsm))
      case Err(err) => Some(err)
      case Ok(_) => None
  }

  lemma CreateRefusedExactly(P: Prims, allowed: bool, a: AppData, password: Text, kdf: KdfParams, config: Config,
                             e: Enrolment)
    ensures match CreateRefusal(P, allowed, password, kdf, e)
            case Some(err) => CreateVaultSpec(P, allowed, a, password, kdf, config, e).1 == Err(err)
            case None => CreateVaultSpec(P, allowed, a, password, kdf, config, e).1.Ok?
  {
    hide DeriveMaster, Create, MasterOf, NewVaultOf, Serialize, Succeeds, OpenIndex, Affordable;
    MasterIs(P, password, e.minted.vaultSalt, kdf, e.minted.kHsm, e.available);
    CreateIs(P, kdf, MasterOf(P, password, e.minted.vaultSalt, kdf, e.minted.kHsm), e.minted, e.now);
  }

  /** And that of an import: the backup is opened first, then the slots are enrolled, then the vault is rebuilt. */
  ghost function ImportRefusal(P: Prims, allowed: bool, file: bytes, password: Text, kdf: KdfParams, e: Enrolment)
    : Option<Error>
  {
    var f := e.minted;
    var k := MasterOf(P, password, f.vaultSalt, kdf, f.kHsm);
    if !allowed then Some(BackendRefused)
    else
      match ImportFile(P, file, password, e.importAvailable)
      case Err(err) => Some(err)
      case Ok(p) =>
        if !e.keyEnrolled || !e.seedEnrolled then Some(Hsm)
        else if !Affordable(kdf, e.available) then Some(Error.Kdf)
        else if |f.kHsmBlob| > 65_535 then Some(BlobTooLarge(KHsmWrapBlob))
        else if |f.seedBlob| > 65_535 then Some(BlobTooLarge(TotpSeedWrapBlob))
        else
          match ImportEntries(P, NewVaultOf(P, kdf, k, f, e.now), k, p.entries, 0, f.rng)
          case Err(err) => Some(err)
          case Ok(v) =>
            if !Succeeds(e.faults, Serialize(v)) then Some(Io)
            else
              match OpenIndex(P, v, k)
              case Err(err) => Some(err)
              case Ok(_) => None
  }

  lemma ImportRefusedExactly(P: Prims, allowed: bool, a: AppData, file: bytes, password: Text, kdf: KdfParams,
                             config: Config, e: Enrolment)
    ensures match ImportRefusal(P, allowed, file, password, kdf, e)
            case Some(err) => ImportSpec(P, allowed, a, file, password, kdf, config, e).1 == Err(err)
            case None => ImportSpec(P, allowed, a, file, password, kdf, config, e).1.Ok?
  {
    hide DeriveMaster, Create, MasterOf, NewVaultOf, Serialize, Succeeds, OpenIndex, Affordable, ImportFile,
         ImportEntries;
    MasterIs(P, password, e.minted.vaultSalt, kdf, e.minted.kHsm, e.available);
    CreateIs(P, kdf, MasterOf(P, password, e.minted.vaultSalt, kdf, e.minted.kHsm), e.minted, e.now);
  }

  /** An import rebuilds under the mixed key, with the header of a new vault, and takes over the payload's seed. */
  lemma ImportedExactly(P: Prims, allowed: bool, a: AppData, file: bytes, password: Text, kdf: KdfParams,
                        config: Config, e: Enrolment)
    returns (w: VaultData)
    requires ImportSpec(P, allowed, a, file, password, kdf, config, e).1.Ok?
    ensures var (b, r) := ImportSpec(P, allowed, a, file, password, kdf, config, e);
            var k := MasterOf(P, password, e.minted.vaultSalt, kdf, e.minted.kHsm);
            && b == AppData(Some(Serialize(w)), a.mem, config, None)
            && SameHeader(NewVaultOf(P, kdf, k, e.minted, e.now), w)
            && r.value.kMaster == k && r.value.expiry == Min(e.sessionNow + 120, U64_MAX)
            && ImportFile(P, file, password, e.importAvailable).Ok?
            && r.value.seed == ImportFile(P, file, password, e.importAvailable).value.totpSeed
  {
    hide DeriveMaster, Create, MasterOf, NewVaultOf, Serialize, Succeeds, OpenIndex, Affordable, ImportFile,
         ImportEntries;
    var f := e.minted;
    MasterIs(P, password, f.vaultSalt, kdf, f.kHsm, e.available);
    var k := MasterOf(P, password, f.vaultSalt, kdf, f.kHsm);
    CreateIs(P, kdf, k, f, e.now);
    var payload := ImportFile(P, file, password, e.importAvailable).value;
    w := ImportEntries(P, NewVaultOf(P, kdf, k, f, e.now), k, payload.entries, 0, f.rng).value;
    Transfer.ImportHeader(P, NewVaultOf(P, kdf, k, f, e.now), k, payload.entries, 0, f.rng);
  }
}
