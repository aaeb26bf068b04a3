/**
 * Whole lives of a vault: any sequence of edits, header updates and save/reload
 * cycles acts on the map the vault stands for as the same edits on a map.
 */
module VaultRuns {
  import opened Bytes
  import opened Types
  import opened Primitives
  import opened KeyedLists
  import opened Records
  import opened VaultModel
  import opened VaultCodec

  datatype Op =
    | Add(id: Id, body: RowBody, record: EntryRecord, entryNonce: Nonce, indexNonce: Nonce)
    | Drop(dropId: Id, dropNonce: Nonce)
    | Reload
    | SetMetadata(meta: Metadata)
    | SetRateLimit(counter: u64, last: i64)
    | SetHsmBlobs(kHsm: bytes, totp: bytes)

  function Apply(P: Prims, k: Key, v: VaultData, op: Op): VaultData {
    if op.Add? then AddOrUpdate(P, v, k, op.id, op.body, op.record, op.entryNonce, op.indexNonce).0
    else if op.Drop? then Remove(P, v, k, op.dropId, op.dropNonce).0
    else if op.Reload? then Reloaded(v)
    else EditHeader(v, op)
  }

  /** Save and load again. */
  function Reloaded(v: VaultData): VaultData {
    match Parse(Serialize(v))
    case Ok(w) => w
    case Err(_) => v
  }

  function EditHeader(v: VaultData, op: Op): VaultData {
    match op
    case SetMetadata(m) => v.(meta := m)
    case SetRateLimit(c, l) => v.(rlCounter := c, rlLast := l)
    case SetHsmBlobs(b, t) => if CheckBlobs(b, t).Ok? then v.(kHsmBlob := b, totpBlob := t) else v
    case _ => v
  }

  function Run(P: Prims, k: Key, v: VaultData, ops: seq<Op>): VaultData
    decreases |ops|
  {
    if ops == [] then v else Run(P, k, Apply(P, k, v, ops[0]), ops[1..])
  }

  /** The same edit on the map: the reference the vault is measured against. */
  function ApplyMap(c: Contents, op: Op): Contents {
    match op
    case Add(id, body, record, _, _) => PutEntry(c, id, Entry(body.name, body.policy, Ok(record)))
    case Drop(id, _) => DropEntry(c, id)
    case _ => c
  }

  function RunMap(c: Contents, ops: seq<Op>): Contents
    decreases |ops|
  {
    if ops == [] then c else RunMap(ApplyMap(c, ops[0]), ops[1..])
  }

  /** The file stays under 4 GiB, the most the format's u32 length prefixes can describe. */
  predicate Small(v: VaultData) { |Serialize(v)| <= U32_MAX }

  predicate StaysSmall(P: Prims, k: Key, v: VaultData, ops: seq<Op>)
    decreases |ops|
  {
    Small(v) && (ops == [] || StaysSmall(P, k, Apply(P, k, v, ops[0]), ops[1..]))
  }

  /** A vault that parses back and opens under `k`. */
  ghost predicate Sound(P: Prims, k: Key, v: VaultData) { WellFormed(v) && OpenIndex(P, v, k).Ok? }

  ghost predicate SameOrder(P: Prims, k: Key, v: VaultData)
    requires Sound(P, k, v)
  {
    Ids(OpenIndex(P, v, k).value) == Ids(v.envelopes)
  }

  lemma {:induction false} ListBounds(es: seq<Envelope>)
    ensures 44 * |es| <= |EnvelopeListBytes(es)|
    ensures forall i :: 0 <= i < |es| ==> |es[i].body.ct| <= |EnvelopeListBytes(es)|
    ensures forall id :: Find(es, id).Some? ==> |Find(es, id).value.ct| <= |EnvelopeListBytes(es)|
  {
    if es != [] {
      ListBounds(es[1..]);
      assert es == [es[0]] + es[1..];
    }
  }

  lemma SmallBounds(v: VaultData)
    requires Small(v)
    ensures |v.indexCt| <= U32_MAX && |v.envelopes| <= U32_MAX
    ensures forall i :: 0 <= i < |v.envelopes| ==> |v.envelopes[i].body.ct| <= U32_MAX
    ensures forall id :: Find(v.envelopes, id).Some? ==> |Find(v.envelopes, id).value.ct| <= U32_MAX
  {
    hide HeaderBytes, BlobBytes, StateBytes;
    ListBounds(v.envelopes);
  }

  /** Every envelope carries the (clamped) length of its ciphertext, as all edits write it. */
  predicate Stamped(es: seq<Envelope>) {
    forall i :: 0 <= i < |es| ==> es[i].body.ctLen == ClampU32(|es[i].body.ct|)
  }

  lemma {:induction false} StampedPut(es: seq<Envelope>, id: Id, s: Sealed)
    requires Stamped(es) && s.ctLen == ClampU32(|s.ct|)
    ensures Stamped(Put(es, id, s))
  {
    if es != [] && es[0].id != id {
      StampedPut(es[1..], id, s);
    }
  }

  lemma {:induction false} StampedWithout(es: seq<Envelope>, id: Id)
    requires Stamped(es)
    ensures Stamped(Without(es, id))
  {
    if es != [] {
      StampedWithout(es[1..], id);
    }
  }

  lemma WellFormedStamped(v: VaultData)
    requires WellFormed(v)
    ensures Stamped(v.envelopes)
  {
  }

  lemma SmallIsWellFormed(v: VaultData)
    requires GoodHeader(HeaderOf(v)) && CheckBlobs(v.kHsmBlob, v.totpBlob).Ok?
    requires Stamped(v.envelopes) && Small(v)
    ensures WellFormed(v)
  {
    hide Small;
    SmallBounds(v);
  }

  lemma PadBounds(body: bytes)
    ensures |body| <= |Pad(body)|
  {
  }

  /** A small enough result means that nothing was clamped on the way to it. */
  lemma SealedRecordFits(P: Prims, k: Key, version: byte, id: Id, record: EntryRecord, nonce: Nonce)
    requires |EncryptEntry(P, k, version, id, record, nonce).ct| <= U32_MAX
    ensures RecordLen(record) <= U32_MAX
  {
    hide EncodeRecord, EntryKey, EntryAd, RecordLen;
    RecordSize(record);
    PaddedLenIsLeast(4 + RecordLen(record));
  }

  lemma SealedIndexFits(P: Prims, k: Key, version: byte, rows: seq<Row>, nonce: Nonce)
    requires |SealIndex(P, rows, version, k, nonce)| <= U32_MAX
    ensures IndexFits(P, version, rows)
  {
    hide Pad, IndexKey;
    PadBounds(P.rowsToBytes(rows));
  }

  lemma SmallAdd(P: Prims, k: Key, v: VaultData, op: Op)
    requires op.Add? && OpenIndex(P, v, k).Ok? && Small(Apply(P, k, v, op))
    ensures RecordLen(op.record) <= U32_MAX
    ensures IndexFits(P, v.version, Put(OpenIndex(P, v, k).value, op.id, op.body))
  {
    hide Small, EncryptEntry, SealIndex, RecordLen, IndexFits, SameIds, Put;
    var w := Apply(P, k, v, op);
    var rows := Put(OpenIndex(P, v, k).value, op.id, op.body);
    var sealed := EncryptEntry(P, k, v.version, op.id, op.record, op.entryNonce);
    var mid := v.(envelopes := Put(v.envelopes, op.id, sealed));
    assert DecryptIndex(P, mid, k) == DecryptIndex(P, v, k);
    assert w == Reseal(P, mid, rows, k, op.indexNonce);
    SmallBounds(w);
    FindPut(v.envelopes, op.id, sealed, op.id);
    SealedRecordFits(P, k, v.version, op.id, op.record, op.entryNonce);
    SealedIndexFits(P, k, v.version, rows, op.indexNonce);
  }

  lemma SmallDrop(P: Prims, k: Key, v: VaultData, id: Id, n: Nonce)
    requires OpenIndex(P, v, k).Ok? && Small(Remove(P, v, k, id, n).0)
    requires id in Ids(v.envelopes)
    ensures IndexFits(P, v.version, Without(OpenIndex(P, v, k).value, id))
  {
    hide Small, SealIndex, IndexFits, SameIds, Without;
    var rows := Without(OpenIndex(P, v, k).value, id);
    var mid := v.(envelopes := Without(v.envelopes, id));
    assert DecryptIndex(P, mid, k) == DecryptIndex(P, v, k);
    WithoutLen(v.envelopes, id);
    SmallBounds(Remove(P, v, k, id, n).0);
    SealedIndexFits(P, k, v.version, rows, n);
  }

  lemma StepAdd(P: Prims, k: Key, v: VaultData, op: Op)
    requires op.Add? && Sound(P, k, v) && Small(Apply(P, k, v, op))
    ensures var w := Apply(P, k, v, op);
            && Sound(P, k, w) && SameHeader(v, w)
            && Holds(P, w, k) == ApplyMap(Holds(P, v, k), op)
            && (SameOrder(P, k, v) ==> SameOrder(P, k, w))
  {
    hide EncryptEntry, Put, Small, Holds, RecordLen, IndexFits, OpenIndex, Reloaded, Remove, AddOrUpdate, PutEntry,
         Stamped, GoodEnvelopes;
    SmallAdd(P, k, v, op);
    AddRefinesPut(P, v, k, op.id, op.body, op.record, op.entryNonce, op.indexNonce);
    WellFormedStamped(v);
    AddKeepsStamps(P, k, v, op);
    SmallIsWellFormed(Apply(P, k, v, op));
  }

  lemma AddKeepsStamps(P: Prims, k: Key, v: VaultData, op: Op)
    requires op.Add? && Stamped(v.envelopes)
    ensures Stamped(Apply(P, k, v, op).envelopes)
  {
    hide DecryptIndex, Stamped, Put, SealIndex, EntryKey, EntryAd, EncodeRecord;
    StampedPut(v.envelopes, op.id, EncryptEntry(P, k, v.version, op.id, op.record, op.entryNonce));
  }

  lemma DropKeepsStamps(P: Prims, k: Key, v: VaultData, op: Op)
    requires op.Drop? && Stamped(v.envelopes)
    ensures Stamped(Apply(P, k, v, op).envelopes)
  {
    hide DecryptIndex, Stamped, Without, SealIndex;
    StampedWithout(v.envelopes, op.dropId);
  }

  lemma StepDrop(P: Prims, k: Key, v: VaultData, op: Op)
    requires op.Drop? && Sound(P, k, v) && Small(v) && Small(Apply(P, k, v, op))
    ensures var w := Apply(P, k, v, op);
            && Sound(P, k, w) && SameHeader(v, w)
            && Holds(P, w, k) == ApplyMap(Holds(P, v, k), op)
            && (SameOrder(P, k, v) ==> SameOrder(P, k, w))
  {
    hide Without, Small, Holds, IndexFits, OpenIndex, Reloaded, AddOrUpdate, Remove, DropEntry, Stamped, GoodEnvelopes;
    var id := op.dropId;
    if id in Ids(v.envelopes) {
      SmallDrop(P, k, v, id, op.dropNonce);
    }
    RemoveRefinesDrop(P, v, k, id, op.dropNonce);
    WellFormedStamped(v);
    DropKeepsStamps(P, k, v, op);
    SmallIsWellFormed(Apply(P, k, v, op));
  }

  lemma StepReload(P: Prims, k: Key, v: VaultData)
    requires Sound(P, k, v)
    ensures Apply(P, k, v, Reload) == v
  {
    hide Parse, Serialize, WellFormed, OpenIndex;
    CodecRoundTrip(v);
  }

  /** A vault that differs only in those header fields opens to the same rows and holds the same. */
  lemma SameSealedHoldsSame(P: Prims, k: Key, v: VaultData, w: VaultData)
    requires w == v.(meta := w.meta, rlCounter := w.rlCounter, rlLast := w.rlLast,
                     kHsmBlob := w.kHsmBlob, totpBlob := w.totpBlob)
    requires OpenIndex(P, v, k).Ok?
    ensures OpenIndex(P, w, k) == OpenIndex(P, v, k) && Holds(P, w, k) == Holds(P, v, k)
  {
    hide SameIds, DecryptEntry, Find;
    assert DecryptIndex(P, w, k) == DecryptIndex(P, v, k);
    hide DecryptIndex;
    var rows := OpenIndex(P, v, k).value;
    forall id | id in Ids(rows) ensures DecryptEntry(P, w, k, id) == DecryptEntry(P, v, k, id) {
      EntryDependsOnEnvelope(P, v, w, k, id);
    }
    assert ContentsOf(P, w, k, rows).at == ContentsOf(P, v, k, rows).at;
  }

  /** Header edits leave the index and every entry as they were. */
  lemma StepHeader(P: Prims, k: Key, v: VaultData, op: Op)
    requires op.SetMetadata? || op.SetRateLimit? || op.SetHsmBlobs?
    requires Sound(P, k, v)
    ensures var w := Apply(P, k, v, op);
            && Sound(P, k, w) && w.version == v.version
            && Holds(P, w, k) == Holds(P, v, k) && (SameOrder(P, k, v) <==> SameOrder(P, k, w))
  {
    hide GoodEnvelopes, OpenIndex, Holds, AddOrUpdate, Remove, Reloaded;
    SameSealedHoldsSame(P, k, v, Apply(P, k, v, op));
  }

  lemma Step(P: Prims, k: Key, v: VaultData, op: Op)
    requires Sound(P, k, v) && Small(v) && Small(Apply(P, k, v, op))
    ensures var w := Apply(P, k, v, op);
            && Sound(P, k, w) && w.version == v.version
            && Holds(P, w, k) == ApplyMap(Holds(P, v, k), op)
            && (SameOrder(P, k, v) ==> SameOrder(P, k, w))
  {
    hide Sound, SameOrder, Holds, Small, AddOrUpdate, Remove, PutEntry, DropEntry;
    match op
    case Add(_, _, _, _, _) => StepAdd(P, k, v, op);
    case Drop(_, _) => StepDrop(P, k, v, op);
    case Reload => StepReload(P, k, v);
    case _ => StepHeader(P, k, v, op);
  }

  /** The vault refines an ordered map over every run, under its own format version throughout. */
  lemma {:induction false} RunRefinesMap(P: Prims, k: Key, v: VaultData, ops: seq<Op>)
    requires Sound(P, k, v) && StaysSmall(P, k, v, ops)
    ensures var w := Run(P, k, v, ops);
            && Sound(P, k, w) && w.version == v.version
            && Holds(P, w, k) == RunMap(Holds(P, v, k), ops)
            && (SameOrder(P, k, v) ==> SameOrder(P, k, w))
    decreases |ops|
  {
    hide Sound, SameOrder, Holds, Small, Apply, ApplyMap;
    if ops != [] {
      var w := Apply(P, k, v, ops[0]);
      assert StaysSmall(P, k, w, ops[1..]);
      Step(P, k, v, ops[0]);
      RunRefinesMap(P, k, w, ops[1..]);
    }
  }

  /** From creation on, the two id lists are the same duplicate-free sequence. */
  lemma RunFromCreate(P: Prims, kdf: KdfParams, salt: Salt, kHsm: bytes, totp: bytes, meta: Metadata,
                      k: Key, probeNonce: Nonce, indexNonce: Nonce, ops: seq<Op>)
    requires var r := Create(P, kdf, salt, kHsm, totp, meta, k, probeNonce, indexNonce);
             r.Ok? && StaysSmall(P, k, r.value, ops)
    ensures var v := Create(P, kdf, salt, kHsm, totp, meta, k, probeNonce, indexNonce).value;
            var w := Run(P, k, v, ops);
            && Sound(P, k, w) && Holds(P, w, k) == RunMap(Contents([], map[]), ops)
            && Ids(OpenIndex(P, w, k).value) == Ids(w.envelopes) && NoDup(Ids(w.envelopes))
  {
    var v := Create(P, kdf, salt, kHsm, totp, meta, k, probeNonce, indexNonce).value;
    CreatedIsSound(P, kdf, salt, kHsm, totp, meta, k, probeNonce, indexNonce);
    hide Create, StaysSmall;
    RunRefinesMap(P, k, v, ops);
  }

  lemma CreatedIsSound(P: Prims, kdf: KdfParams, salt: Salt, kHsm: bytes, totp: bytes, meta: Metadata,
                       k: Key, probeNonce: Nonce, indexNonce: Nonce)
    requires var r := Create(P, kdf, salt, kHsm, totp, meta, k, probeNonce, indexNonce);
             r.Ok? && Small(r.value)
    ensures var v := Create(P, kdf, salt, kHsm, totp, meta, k, probeNonce, indexNonce).value;
            Sound(P, k, v) && SameOrder(P, k, v) && Holds(P, v, k) == Contents([], map[])
  {
    hide Small, SealProbe, SealIndex, IndexFits, OpenIndex, VerifyProbe, Holds;
    var v := Create(P, kdf, salt, kHsm, totp, meta, k, probeNonce, indexNonce).value;
    SmallBounds(v);
    SealedIndexFits(P, k, FORMAT_VERSION, [], indexNonce);
    CreateIsEmpty(P, kdf, salt, kHsm, totp, meta, k, probeNonce, indexNonce);
    assert Ids(OpenIndex(P, v, k).value) == [] && Ids(v.envelopes) == [];
  }
}
