/**
 * What each session operation requires, and what it returns and records, in terms of the
 * primitives and of the stored map.
 */
module SessionGates {
  import opened Bytes
  import opened Errors
  import opened Types
  import opened Primitives
  import opened KeyedLists
  import opened Records
  import opened VaultModel
  import opened VaultCodec
  import opened Kdf
  import opened Storage
  import opened RecoveryModel
  import opened Rebuild
  import opened AppModel
  import AppRuns
  import opened SessionModel
  import opened SessionRuns
  import opened Keys
  import R = VaultRuns

  // ----- Reading -------------------------------------------------------------------------------

  /** What is stored under an id, as a read reports it. */
  function StoredRecord(c: Contents, id: Id): Result<EntryRecord, Error> {
    if id in c.at then c.at[id].record else Err(EntryNotFound)
  }

  lemma ReadsStored(P: Prims, x: Live, id: Id)
    requires InSync(P, x) && LoadVault(x.app.file).Ok?
    ensures ReadRecord(P, x, id) == StoredRecord(Stored(P, x), id)
  {
    hide Parse, DecryptIndex, Find;
    var v := LoadVault(x.app.file).value;
    FindIffId(v.envelopes, id);
    OpenedSameIds(P, v, x.s.kMaster);
  }

  lemma OpenedSameIds(P: Prims, v: VaultData, k: Key)
    requires OpenIndex(P, v, k).Ok?
    ensures forall id :: id in Ids(OpenIndex(P, v, k).value) <==> id in Ids(v.envelopes)
  {
    hide DecryptIndex;
  }

  lemma {:induction false} FindIffId<V>(es: seq<Keyed<V>>, id: Id)
    ensures Find(es, id).Some? <==> id in Ids(es)
  {
    if es != [] && es[0].id != id {
      FindIffId(es[1..], id);
      assert Ids(es) == [es[0].id] + Ids(es[1..]);
    }
  }

  /** Revealing returns the stored record, and nothing changes. */
  lemma RevealReturns(P: Prims, x: Live, op: Op)
    requires op.Reveal? && InSync(P, x) && LoadVault(x.app.file).Ok? && op.now < x.s.expiry
    ensures Apply(P, x, op) ==
              match StoredRecord(Stored(P, x), op.id)
              case Err(e) => (x, Err(e))
              case Ok(r) => (x, Ok(Revealed(r)))
  {
    hide InSync, Stored, ReadRecord, LoadVault, Upsert, UpdateSpec, RemoveSpec, CopySpec, ConfirmSpec, ChangeSpec,
         ExportSpec;
    ReadsStored(P, x, op.id);
  }

  /** Copying pastes the chosen field of the stored record and leaves the session half a minute at most. */
  lemma CopyReturns(P: Prims, x: Live, op: Op)
    requires op.Copy? && InSync(P, x) && LoadVault(x.app.file).Ok? && op.now < x.s.expiry
    ensures Apply(P, x, op) ==
              match StoredRecord(Stored(P, x), op.id)
              case Err(e) => (x, Err(e))
              case Ok(r) =>
                if !op.pasted then (x, Err(Io))
                else
                  (x.(s := x.s.(expiry := Min(x.s.expiry, Min(op.after + 30, U64_MAX)))),
                   Ok(Copied(if op.field.Username? then r.username
                             else if op.field.Password? then r.password
                             else if op.field.Url? then r.url
                             else r.notes)))
  {
    hide InSync, Stored, ReadRecord, LoadVault, Upsert, UpdateSpec, RemoveSpec, RevealSpec, ConfirmSpec, ChangeSpec,
         ExportSpec;
    ReadsStored(P, x, op.id);
  }

  /** Updating needs an entry that is there; otherwise it adds like any other edit. */
  lemma UpdateNeedsEntry(P: Prims, x: Live, op: Op)
    requires op.Update? && InSync(P, x) && op.now < x.s.expiry
    ensures op.id !in Stored(P, x).at ==> Apply(P, x, op) == (x, Err(EntryNotFound))
    ensures op.id in Stored(P, x).at ==>
              var add := Add(op.now, op.id, op.body, op.record, op.entryNonce, op.indexNonce, op.faults);
              Apply(P, x, op) == Apply(P, x, add)
  {
    hide Parse, OpenIndex, LoadVault, AddOrUpdate, Persist, Find, RemoveSpec, CopySpec, RevealSpec, ConfirmSpec,
         ChangeSpec, ExportSpec;
    FindIffId(x.s.rows, op.id);
  }

  /** A removal needs one too. */
  lemma RemoveNeedsEntry(P: Prims, x: Live, op: Op)
    requires op.Remove? && InSync(P, x) && LoadVault(x.app.file).Ok? && op.now < x.s.expiry
    requires op.id !in Stored(P, x).at
    ensures Apply(P, x, op) == (x, Err(EntryNotFound))
  {
    hide Parse, LoadVault, OpenIndex, DecryptIndex, Persist, Upsert, UpdateSpec, CopySpec, RevealSpec, ConfirmSpec,
         ChangeSpec, ExportSpec;
    var v := LoadVault(x.app.file).value;
    LoadedIsSound(P, x);
    OpenedSameIds(P, v, x.s.kMaster);
    WithoutLen(v.envelopes, op.id);
  }

  // ----- Editing -----------------------------------------------------------------------------

  /** An addition under 4 GiB succeeds exactly if its write lands; otherwise nothing changes. */
  lemma AddedExactly(P: Prims, x: Live, op: Op)
    requires op.Add? && op.now < x.s.expiry && InSync(P, x) && LoadVault(x.app.file).Ok?
    requires R.Small(Upserted(P, x, op).0)
    ensures var lands := Succeeds(op.faults, Serialize(Upserted(P, x, op).0));
            && Apply(P, x, op).1 == (if lands then Ok(Done) else Err(Io))
            && Apply(P, x, op).0.app.file == (if lands then Some(Serialize(Upserted(P, x, op).0)) else x.app.file)
            && (!lands ==> Apply(P, x, op).0 == x)
  {
    hide InSync, Parse, OpenIndex, Serialize, Succeeds, R.Sound, AddOrUpdate, LoadVault, Holds, Put, RecordLen,
         IndexFits, R.Small, EncryptEntry, Apply, R.Apply;
    LoadedIsSound(P, x);
    var v := LoadVault(x.app.file).value;
    var w := Upserted(P, x, op).0;
    var add := R.Add(op.id, op.body, op.record, op.entryNonce, op.indexNonce);
    AddIsApplied(P, x.s.kMaster, v, add);
    R.SmallAdd(P, x.s.kMaster, v, add);
    R.StepAdd(P, x.s.kMaster, v, add);
    AddSucceeds(P, x, v, op);
    AddPersists(P, x, op);
    if Succeeds(op.faults, Serialize(w)) { PersistSound(P, x, w, op.faults); }
  }

  /** The vault a removal gives. */
  function Removed(P: Prims, x: Live, op: Op): (VaultData, Result<(), Error>)
    requires op.Remove? && LoadVault(x.app.file).Ok?
  {
    VaultModel.Remove(P, LoadVault(x.app.file).value, x.s.kMaster, op.id, op.indexNonce)
  }

  lemma RemovePersists(P: Prims, x: Live, op: Op)
    requires op.Remove? && !Expired(x, op) && LoadVault(x.app.file).Ok? && Removed(P, x, op).1.Ok?
    ensures Apply(P, x, op) == Persist(P, x, Removed(P, x, op).0, op.faults)
  {
    hide LoadVault, VaultModel.Remove, Persist;
  }

  /** And so does the removal of an entry that is there. */
  lemma RemovedExactly(P: Prims, x: Live, op: Op)
    requires op.Remove? && op.now < x.s.expiry && InSync(P, x) && LoadVault(x.app.file).Ok?
    requires op.id in Stored(P, x).at && R.Small(Removed(P, x, op).0)
    ensures var lands := Succeeds(op.faults, Serialize(Removed(P, x, op).0));
            && Apply(P, x, op).1 == (if lands then Ok(Done) else Err(Io))
            && Apply(P, x, op).0.app.file == (if lands then Some(Serialize(Removed(P, x, op).0)) else x.app.file)
            && (!lands ==> Apply(P, x, op).0 == x)
  {
    StoredIds(P, x, op.id);
    hide InSync, Parse, OpenIndex, Serialize, Succeeds, R.Sound, VaultModel.Remove, LoadVault, Holds, Without,
         IndexFits, R.Small, Apply, R.Apply, Stored;
    LoadedIsSound(P, x);
    var v := LoadVault(x.app.file).value;
    var w := Removed(P, x, op).0;
    var drop := R.Drop(op.id, op.indexNonce);
    OpenedSameIds(P, v, x.s.kMaster);
    R.SmallDrop(P, x.s.kMaster, v, op.id, op.indexNonce);
    RemoveRefinesDrop(P, v, x.s.kMaster, op.id, op.indexNonce);
    DropIsApplied(P, x.s.kMaster, v, drop);
    R.StepDrop(P, x.s.kMaster, v, drop);
    RemovePersists(P, x, op);
    if Succeeds(op.faults, Serialize(w)) { PersistSound(P, x, w, op.faults); }
  }

  lemma DropIsApplied(P: Prims, k: Key, v: VaultData, op: R.Op)
    requires op.Drop?
    ensures R.Apply(P, k, v, op) == VaultModel.Remove(P, v, k, op.dropId, op.dropNonce).0
  {
    hide VaultModel.Remove;
  }

  lemma StoredIds(P: Prims, x: Live, id: Id)
    requires InSync(P, x)
    ensures id in Stored(P, x).at <==> id in Ids(x.s.rows)
  {
    hide Parse, OpenIndex;
  }

  // ----- Changing the password ---------------------------------------------------------------

  /** The old password opens the file, the new parameters can be afforded, and every entry can be read. */
  ghost predicate MayChange(P: Prims, x: Live, op: Op)
    requires op.ChangePassword?
  {
    && op.now < x.s.expiry && LoadVault(x.app.file).Ok?
    && var v := LoadVault(x.app.file).value;
    && op.key(v.kHsmBlob).Ok? && |op.key(v.kHsmBlob).value| == 32
    && Affordable(v.kdf, op.oldAvailable)
    && ProbeSealed(P, v, MasterOf(P, op.old_, v.salt, v.kdf, op.key(v.kHsmBlob).value))
    && Affordable(op.kdf, op.newAvailable) && Readable(P, v, x.s.kMaster, x.s.rows)
  }

  /** The vault a change writes. */
  ghost function Rebuilt(P: Prims, x: Live, op: Op): Result<VaultData, Error>
    requires op.ChangePassword?
  {
    var v :- LoadVault(x.app.file);
    var r :- Rekeyed(P, x, v, op);
    Ok(r.0)
  }

  lemma RekeyedIff(P: Prims, x: Live, v: VaultData, op: Op)
    requires op.ChangePassword? && InSync(P, x) && Fits(P, x) && LoadVault(x.app.file) == Ok(v)
    requires op.now < x.s.expiry
    ensures Rekeyed(P, x, v, op).Ok? <==> MayChange(P, x, op)
    ensures MayChange(P, x, op) ==>
              var (w, k) := Rekeyed(P, x, v, op).value;
              && k == MasterOf(P, op.new_, op.salt, op.kdf, op.key(v.kHsmBlob).value)
              && w.meta == v.meta.(lastPasswordChange := op.changed)
              && w.salt == op.salt && w.kdf == op.kdf && ProbeSealed(P, w, k)
    ensures op.key(v.kHsmBlob).Ok? && |op.key(v.kHsmBlob).value| == 32 && Affordable(v.kdf, op.oldAvailable)
            && !ProbeSealed(P, v, MasterOf(P, op.old_, v.salt, v.kdf, op.key(v.kHsmBlob).value)) ==>
              Rekeyed(P, x, v, op) == Err(AeadAuth)
  {
    hide InSync, LoadVault, Parse, OpenIndex, Reencrypt, VerifyProbe, DeriveMaster, Affordable, MasterOf, ProbeSealed,
         Readable, IndexFits, Holds;
    if op.key(v.kHsmBlob).Ok? {
      var kHsm := op.key(v.kHsmBlob).value;
      var k := MasterOf(P, op.new_, op.salt, op.kdf, kHsm);
      MasterIs(P, op.old_, v.salt, v.kdf, kHsm, op.oldAvailable);
      MasterIs(P, op.new_, op.salt, op.kdf, kHsm, op.newAvailable);
      ProbeIff(P, v, MasterOf(P, op.old_, v.salt, v.kdf, kHsm));
      LoadedIsSound(P, x);
      BlobsFit(v);
      ReencryptPreserves(P, v, x.s.kMaster, x.s.rows, op.salt, op.kdf, k,
                         op.changed, op.probeNonce, op.indexNonce, op.rng);
      var r := Reencrypt(P, v, x.s.kMaster, x.s.rows, op.salt, op.kdf, k,
                         op.changed, op.probeNonce, op.indexNonce, op.rng);
      if r.Ok? { ProbeIff(P, r.value, k); }
    }
  }

  lemma BlobsFit(v: VaultData)
    requires WellFormed(v)
    ensures CheckBlobs(v.kHsmBlob, v.totpBlob).Ok?
  {
  }

  /** What a successful change leaves: a vault that differs in salt, cost, key and date, and the session on it. */
  ghost predicate Changed(P: Prims, x: Live, op: Op, y: Live)
    requires op.ChangePassword? && MayChange(P, x, op)
  {
    var v := LoadVault(x.app.file).value;
    var w := Rebuilt(P, x, op);
    && w.Ok? && y.app.file == Some(Serialize(w.value)) && w.value.meta == v.meta.(lastPasswordChange := op.changed)
    && y.s.kMaster == MasterOf(P, op.new_, op.salt, op.kdf, op.key(v.kHsmBlob).value)
    && w.value.salt == op.salt && w.value.kdf == op.kdf && ProbeSealed(P, w.value, y.s.kMaster)
  }

  /** The rebuilt file reaches the disk. */
  ghost predicate ChangeLands(P: Prims, x: Live, op: Op)
    requires op.ChangePassword?
  {
    Rebuilt(P, x, op).Ok? && Succeeds(op.faults, Serialize(Rebuilt(P, x, op).value))
  }

  /**
   * A change succeeds exactly if the old password is right, every entry can be read and the
   * write lands; it then reports whether there is an export that is now stale. Otherwise nothing changes.
   */
  lemma ChangedExactly(P: Prims, x: Live, op: Op)
    requires op.ChangePassword? && InSync(P, x) && Fits(P, x) && Fits(P, Apply(P, x, op).0)
    ensures Apply(P, x, op).1.Ok? <==> MayChange(P, x, op) && ChangeLands(P, x, op)
    ensures Apply(P, x, op).1.Ok? ==>
              && Changed(P, x, op, Apply(P, x, op).0)
              && Apply(P, x, op).1 == Ok(ExportStale(LoadVault(x.app.file).value.meta.lastExportAt.Some?))
    ensures Apply(P, x, op).1.Err? ==> Apply(P, x, op).0 == x
  {
    hide InSync, Fits, LoadVault, Rekeyed, Serialize, Succeeds, OpenIndex, MasterOf, ProbeSealed, Affordable, Readable,
         Upsert, UpdateSpec, RemoveSpec, CopySpec, RevealSpec, ConfirmSpec, ExportSpec, MayChange, Parse, Stored, Holds;
    if op.now < x.s.expiry && LoadVault(x.app.file).Ok? {
      var v := LoadVault(x.app.file).value;
      RekeyedIff(P, x, v, op);
      if Rekeyed(P, x, v, op).Ok? && Succeeds(op.faults, Serialize(Rekeyed(P, x, v, op).value.0)) {
        RekeyedPersists(P, x, v, op);
      }
    } else {
      NoChange(P, x, op);
    }
  }

  lemma NoChange(P: Prims, x: Live, op: Op)
    requires op.ChangePassword? && !(op.now < x.s.expiry && LoadVault(x.app.file).Ok?)
    ensures !MayChange(P, x, op)
  {
  }

  /** What was rebuilt reopens under the new key. */
  lemma RekeyedPersists(P: Prims, x: Live, v: VaultData, op: Op)
    requires op.ChangePassword? && InSync(P, x) && Fits(P, x) && Fits(P, Apply(P, x, op).0)
    requires op.now < x.s.expiry && LoadVault(x.app.file) == Ok(v) && Rekeyed(P, x, v, op).Ok?
    requires Succeeds(op.faults, Serialize(Rekeyed(P, x, v, op).value.0))
    ensures var (w, k) := Rekeyed(P, x, v, op).value; Persist(P, x.(s := x.s.(kMaster := k)), w, op.faults).1.Ok?
  {
    hide InSync, LoadVault, Rekeyed, Serialize, Succeeds, OpenIndex, IndexFits, Upsert, UpdateSpec, RemoveSpec,
         CopySpec, RevealSpec, ConfirmSpec, ExportSpec, R.Sound, Parse, Holds, Stored;
    var (w, k) := Rekeyed(P, x, v, op).value;
    var y := x.(s := x.s.(kMaster := k));
    LoadedIsSound(P, x);
    EditedFileIsSmall(P, y, w, op.faults);
    RekeyedIsSound(P, x, v, op);
    PersistSound(P, y, w, op.faults);
  }

  /** And the first closed gate names the error. */
  ghost function ChangeRefusal(P: Prims, x: Live, op: Op): Option<Error>
    requires op.ChangePassword?
  {
    if op.now >= x.s.expiry then Some(SessionLocked)
    else if LoadVault(x.app.file).Err? then Some(LoadVault(x.app.file).error)
    else
      var v := LoadVault(x.app.file).value;
      if op.key(v.kHsmBlob).Err? then Some(Hsm)
      else
        var kHsm := op.key(v.kHsmBlob).value;
        if |kHsm| != 32 then Some(MalformedBlob)
        else if !Affordable(v.kdf, op.oldAvailable) then Some(Error.Kdf)
        else if !ProbeSealed(P, v, MasterOf(P, op.old_, v.salt, v.kdf, kHsm)) then Some(AeadAuth)
        else if !Affordable(op.kdf, op.newAvailable) then Some(Error.Kdf)
        else if !Readable(P, v, x.s.kMaster, x.s.rows) then FirstUnreadable(P, v, x.s.kMaster, x.s.rows)
        else if !ChangeLands(P, x, op) then Some(Io)
        else None
  }

  lemma ChangeRefusedExactly(P: Prims, x: Live, op: Op)
    requires op.ChangePassword? && InSync(P, x) && Fits(P, x) && Fits(P, Apply(P, x, op).0)
    ensures match ChangeRefusal(P, x, op)
            case Some(e) => Apply(P, x, op).1 == Err(e)
            case None => Apply(P, x, op).1.Ok?
  {
    hide InSync, Fits, LoadVault, Serialize, Succeeds, MasterOf, ProbeSealed, Affordable, Readable, Rekeyed,
         FirstUnreadable, Apply, Changed;
    ChangedExactly(P, x, op);
    ChangeErrors(P, x, op);
    if op.now < x.s.expiry && LoadVault(x.app.file).Ok? {
      RekeyErrors(P, x, LoadVault(x.app.file).value, op);
      RekeyedIff(P, x, LoadVault(x.app.file).value, op);
    }
  }

  lemma ChangeErrors(P: Prims, x: Live, op: Op)
    requires op.ChangePassword?
    ensures if op.now >= x.s.expiry then Apply(P, x, op).1 == Err(SessionLocked)
            else if LoadVault(x.app.file).Err? then Apply(P, x, op).1 == Err(LoadVault(x.app.file).error)
            else
              var r := Rekeyed(P, x, LoadVault(x.app.file).value, op);
              if r.Err? then Apply(P, x, op).1 == Err(r.error)
              else !Succeeds(op.faults, Serialize(r.value.0)) ==> Apply(P, x, op).1 == Err(Io)
  {
    hide LoadVault, Rekeyed, Serialize, Succeeds, OpenIndex, Upsert, UpdateSpec, RemoveSpec, CopySpec, RevealSpec,
         ConfirmSpec, ExportSpec;
  }

  lemma RekeyErrors(P: Prims, x: Live, v: VaultData, op: Op)
    requires op.ChangePassword? && InSync(P, x) && Fits(P, x) && LoadVault(x.app.file) == Ok(v)
    ensures var r := Rekeyed(P, x, v, op);
            if op.key(v.kHsmBlob).Err? then r == Err(Hsm)
            else
              var kHsm := op.key(v.kHsmBlob).value;
              if |kHsm| != 32 then r == Err(MalformedBlob)
              else if !Affordable(v.kdf, op.oldAvailable) then r == Err(Error.Kdf)
              else if !ProbeSealed(P, v, MasterOf(P, op.old_, v.salt, v.kdf, kHsm)) then r == Err(AeadAuth)
              else if !Affordable(op.kdf, op.newAvailable) then r == Err(Error.Kdf)
              else FirstUnreadable(P, v, x.s.kMaster, x.s.rows).Some? ==>
                     r == Err(FirstUnreadable(P, v, x.s.kMaster, x.s.rows).value)
    ensures FirstUnreadable(P, v, x.s.kMaster, x.s.rows).None? <==> Readable(P, v, x.s.kMaster, x.s.rows)
  {
    hide InSync, LoadVault, Parse, OpenIndex, Reencrypt, VerifyProbe, DeriveMaster, Affordable, MasterOf, ProbeSealed,
         Readable, IndexFits, Holds, FirstUnreadable;
    UnreadableExport(P, v, x.s.kMaster, x.s.rows);
    if op.key(v.kHsmBlob).Ok? {
      var kHsm := op.key(v.kHsmBlob).value;
      MasterIs(P, op.old_, v.salt, v.kdf, kHsm, op.oldAvailable);
      MasterIs(P, op.new_, op.salt, op.kdf, kHsm, op.newAvailable);
      ProbeIff(P, v, MasterOf(P, op.old_, v.salt, v.kdf, kHsm));
      LoadedIsSound(P, x);
      BlobsFit(v);
      UnreadableRebuild(P, v, x.s.kMaster, x.s.rows, op.salt, op.kdf, MasterOf(P, op.new_, op.salt, op.kdf, kHsm),
                        op.changed, op.probeNonce, op.indexNonce, op.rng);
    }
  }

  /** A wrong old password is refused and nothing is written. */
  lemma WrongOldPassword(P: Prims, x: Live, op: Op)
    requires op.ChangePassword? && InSync(P, x) && Fits(P, x) && op.now < x.s.expiry && LoadVault(x.app.file).Ok?
    requires var v := LoadVault(x.app.file).value;
             && op.key(v.kHsmBlob).Ok? && |op.key(v.kHsmBlob).value| == 32 && Affordable(v.kdf, op.oldAvailable)
             && !ProbeSealed(P, v, MasterOf(P, op.old_, v.salt, v.kdf, op.key(v.kHsmBlob).value))
    ensures Apply(P, x, op) == (x, Err(AeadAuth))
  {
    hide InSync, Fits, LoadVault, Rekeyed, Serialize, Succeeds, OpenIndex, MasterOf, ProbeSealed, Affordable,
         Upsert, UpdateSpec, RemoveSpec, CopySpec, RevealSpec, ConfirmSpec, ExportSpec, MayChange, Persist;
    RekeyedIff(P, x, LoadVault(x.app.file).value, op);
  }

  // ----- Exporting -----------------------------------------------------------------------------

  /** A strong password that opens the file, a code, a full seed, and every entry readable. */
  ghost predicate MayExport(P: Prims, x: Live, op: Op)
    requires op.Export?
  {
    && op.now < x.s.expiry && LoadVault(x.app.file).Ok? && op.strong
    && var v := LoadVault(x.app.file).value;
    && op.key(v.kHsmBlob).Ok? && op.seed(v.totpBlob).Ok?
    && |op.key(v.kHsmBlob).value| == 32 && |op.seed(v.totpBlob).value| == 32
    && CodeTaken(P, Verifier(x.app), op.seed(v.totpBlob).value, op.code, op.codeNow)
    && Affordable(v.kdf, op.available) && Affordable(PresetCost(op.preset), op.exportAvailable)
    && var k := MasterOf(P, op.master, v.salt, v.kdf, op.key(v.kHsmBlob).value);
    ProbeSealed(P, v, k) && Readable(P, v, k, x.s.rows)
  }

  /** 1 GiB and four passes, 4 GiB and eight, or 8 GiB and twelve. */
  function PresetCost(p: RecoveryPreset): KdfParams {
    if p.Floor? then KdfParams(1_048_576, 4, 1)
    else if p.Default? then KdfParams(4_194_304, 8, 1)
    else KdfParams(8_388_608, 12, 1)
  }

  /** The file an export returns, under a key of the password typed for it. */
  function BackupFile(P: Prims, x: Live, op: Op): bytes
    requires op.Export? && LoadVault(x.app.file).Ok?
    requires var v := LoadVault(x.app.file).value;
             && op.key(v.kHsmBlob).Ok? && op.seed(v.totpBlob).Ok? && |op.seed(v.totpBlob).value| == 32
             && ExportEntries(P, v, MasterOf(P, op.master, v.salt, v.kdf, op.key(v.kHsmBlob).value), x.s.rows).Ok?
  {
    var v := LoadVault(x.app.file).value;
    var k := MasterOf(P, op.master, v.salt, v.kdf, op.key(v.kHsmBlob).value);
    var p := Payload(op.seed(v.totpBlob).value, v.kdf, ExportEntries(P, v, k, x.s.rows).value);
    var params := PresetCost(op.preset);
    FrameBytes(Frame(params, op.exportSalt, op.exportNonce,
                     SealedPayload(P, p, op.master, params, op.exportSalt, op.exportNonce)))
  }

  /** The vault with its export recorded. */
  function Dated(v: VaultData, at: i64): VaultData { v.(meta := v.meta.(lastExportAt := Some(at))) }

  /** An export succeeds exactly then, if its write lands; it returns that file and records its date. */
  lemma ExportedExactly(P: Prims, x: Live, op: Op)
    requires op.Export?
    ensures Apply(P, x, op).1.Ok? <==>
            MayExport(P, x, op) && Succeeds(op.faults, Serialize(Dated(LoadVault(x.app.file).value, op.exported)))
    ensures Apply(P, x, op).1.Ok? ==>
              && var v := LoadVault(x.app.file).value;
              && ExportEntries(P, v, MasterOf(P, op.master, v.salt, v.kdf, op.key(v.kHsmBlob).value), x.s.rows).Ok?
              && Apply(P, x, op).1.value == File(BackupFile(P, x, op))
              && Apply(P, x, op).0.app.file == Some(Serialize(Dated(v, op.exported)))
  {
    hide LoadVault, Exported, VerifyTotp, CodeTaken, Affordable, MasterOf, ProbeSealed, Readable, ExportEntries,
         Serialize, Succeeds, BackupFile, Upsert, UpdateSpec, RemoveSpec, CopySpec, RevealSpec, ConfirmSpec, ChangeSpec;
    if LoadVault(x.app.file).Ok? {
      var v := LoadVault(x.app.file).value;
      if op.key(v.kHsmBlob).Ok? && op.seed(v.totpBlob).Ok? {
        var seed := op.seed(v.totpBlob).value;
        AppRuns.VerifyTotpIff(P, x.app, seed, op.code, op.codeNow);
        CodeTakenIff(P, Verifier(x.app), seed, op.code, op.codeNow);
        ExportedIs(P, x, v, op, VerifyTotp(P, x.app, seed, op.code, op.codeNow).1);
      }
    }
  }

  /** The first gate of an export that is closed names its error; what cannot be read, the first such entry. */
  ghost function ExportRefusal(P: Prims, x: Live, op: Op): Option<Error>
    requires op.Export?
  {
    if op.now >= x.s.expiry then Some(SessionLocked)
    else if LoadVault(x.app.file).Err? then Some(LoadVault(x.app.file).error)
    else
      var v := LoadVault(x.app.file).value;
      if !op.strong then Some(WeakPasswordForExport)
      else if op.key(v.kHsmBlob).Err? || op.seed(v.totpBlob).Err? then Some(Hsm)
      else
        var kHsm, seed := op.key(v.kHsmBlob).value, op.seed(v.totpBlob).value;
        var k := MasterOf(P, op.master, v.salt, v.kdf, kHsm);
        if !CodeTaken(P, Verifier(x.app), seed, op.code, op.codeNow) then Some(AeadAuth)
        else if |kHsm| != 32 then Some(MalformedBlob)
        else if !Affordable(v.kdf, op.available) then Some(Error.Kdf)
        else if !ProbeSealed(P, v, k) then Some(AeadAuth)
        else if |seed| != 32 then Some(Hsm)
        else if !Readable(P, v, k, x.s.rows) then FirstUnreadable(P, v, k, x.s.rows)
        else if !Affordable(PresetCost(op.preset), op.exportAvailable) then Some(Error.Kdf)
        else if !Succeeds(op.faults, Serialize(Dated(v, op.exported))) then Some(Io)
        else None
  }

  lemma ExportRefusedExactly(P: Prims, x: Live, op: Op)
    requires op.Export?
    ensures match ExportRefusal(P, x, op)
            case Some(e) => Apply(P, x, op).1 == Err(e)
            case None => Apply(P, x, op).1.Ok?
  {
    hide LoadVault, Exported, VerifyTotp, CodeTaken, Affordable, MasterOf, ProbeSealed, Readable, ExportEntries,
         Serialize, Succeeds, BackupFile, Apply, FirstUnreadable;
    ExportedExactly(P, x, op);
    ExportSteps(P, x, op);
    if LoadVault(x.app.file).Ok? {
      var v := LoadVault(x.app.file).value;
      if op.key(v.kHsmBlob).Ok? && op.seed(v.totpBlob).Ok? {
        var kHsm, seed := op.key(v.kHsmBlob).value, op.seed(v.totpBlob).value;
        UnreadableExport(P, v, MasterOf(P, op.master, v.salt, v.kdf, kHsm), x.s.rows);
        ExportedEntries(P, v, MasterOf(P, op.master, v.salt, v.kdf, kHsm), x.s.rows);
        AppRuns.VerifyTotpIff(P, x.app, seed, op.code, op.codeNow);
        CodeTakenIff(P, Verifier(x.app), seed, op.code, op.codeNow);
        ExportErrors(P, x, v, op, VerifyTotp(P, x.app, seed, op.code, op.codeNow).1);
        ExportedIs(P, x, v, op, VerifyTotp(P, x.app, seed, op.code, op.codeNow).1);
      }
    }
  }

  lemma ExportSteps(P: Prims, x: Live, op: Op)
    requires op.Export?
    ensures if op.now >= x.s.expiry then Apply(P, x, op).1 == Err(SessionLocked)
            else if LoadVault(x.app.file).Err? then Apply(P, x, op).1 == Err(LoadVault(x.app.file).error)
            else
              var v := LoadVault(x.app.file).value;
              if !op.strong then Apply(P, x, op).1 == Err(WeakPasswordForExport)
              else if op.key(v.kHsmBlob).Err? || op.seed(v.totpBlob).Err? then Apply(P, x, op).1 == Err(Hsm)
              else
                var kHsm, seed := op.key(v.kHsmBlob).value, op.seed(v.totpBlob).value;
                var codeOk := VerifyTotp(P, x.app, seed, op.code, op.codeNow).1;
                var r := Exported(P, x, v, kHsm, seed, codeOk, op);
                if r.Err? then Apply(P, x, op).1 == Err(r.error)
                else !Succeeds(op.faults, Serialize(Dated(v, op.exported))) ==> Apply(P, x, op).1 == Err(Io)
  {
    hide LoadVault, Exported, VerifyTotp, Serialize, Succeeds, Upsert, UpdateSpec, RemoveSpec, CopySpec, RevealSpec,
         ConfirmSpec, ChangeSpec;
  }

  lemma ExportErrors(P: Prims, x: Live, v: VaultData, op: Op, codeOk: bool)
    requires op.Export? && op.key(v.kHsmBlob).Ok? && op.seed(v.totpBlob).Ok?
    ensures var kHsm, seed := op.key(v.kHsmBlob).value, op.seed(v.totpBlob).value;
            var k := MasterOf(P, op.master, v.salt, v.kdf, kHsm);
            var r := Exported(P, x, v, kHsm, seed, codeOk, op);
            if !codeOk then r == Err(AeadAuth)
            else if |kHsm| != 32 then r == Err(MalformedBlob)
            else if !Affordable(v.kdf, op.available) then r == Err(Error.Kdf)
            else if !ProbeSealed(P, v, k) then r == Err(AeadAuth)
            else if |seed| != 32 then r == Err(Hsm)
            else if ExportEntries(P, v, k, x.s.rows).Err? then r == Err(ExportEntries(P, v, k, x.s.rows).error)
            else !Affordable(PresetCost(op.preset), op.exportAvailable) ==> r == Err(Error.Kdf)
  {
    hide DeriveMaster, VerifyProbe, Affordable, MasterOf, ProbeSealed, ExportEntries, ExportFile, FrameBytes,
         SealedPayload, StrongEnough;
    var kHsm, seed := op.key(v.kHsmBlob).value, op.seed(v.totpBlob).value;
    var k := MasterOf(P, op.master, v.salt, v.kdf, kHsm);
    MasterIs(P, op.master, v.salt, v.kdf, kHsm, op.available);
    ProbeIff(P, v, k);
    PresetsAre(op.preset);
    if |seed| == 32 && ExportEntries(P, v, k, x.s.rows).Ok? {
      var p := Payload(seed, v.kdf, ExportEntries(P, v, k, x.s.rows).value);
      ExportFileIs(P, p, op.master, PresetParams(op.preset), op.exportAvailable, op.exportSalt, op.exportNonce);
    }
  }

  lemma ExportedIs(P: Prims, x: Live, v: VaultData, op: Op, codeOk: bool)
    requires op.Export? && LoadVault(x.app.file) == Ok(v) && op.key(v.kHsmBlob).Ok? && op.seed(v.totpBlob).Ok?
    ensures var kHsm, seed := op.key(v.kHsmBlob).value, op.seed(v.totpBlob).value;
            var k := MasterOf(P, op.master, v.salt, v.kdf, kHsm);
            var r := Exported(P, x, v, kHsm, seed, codeOk, op);
            && (r.Ok? <==>
                  && codeOk && |kHsm| == 32 && Affordable(v.kdf, op.available) && ProbeSealed(P, v, k)
                  && |seed| == 32 && Readable(P, v, k, x.s.rows)
                  && Affordable(PresetCost(op.preset), op.exportAvailable))
            && (r.Ok? ==> ExportEntries(P, v, k, x.s.rows).Ok? && r == Ok(BackupFile(P, x, op)))
  {
    hide LoadVault, DeriveMaster, VerifyProbe, Affordable, MasterOf, ProbeSealed, Readable, ExportEntries, ExportFile,
         FrameBytes, SealedPayload, StrongEnough;
    var kHsm, seed := op.key(v.kHsmBlob).value, op.seed(v.totpBlob).value;
    var k := MasterOf(P, op.master, v.salt, v.kdf, kHsm);
    MasterIs(P, op.master, v.salt, v.kdf, kHsm, op.available);
    ProbeIff(P, v, k);
    ExportedEntries(P, v, k, x.s.rows);
    PresetsAre(op.preset);
    if |seed| == 32 && ExportEntries(P, v, k, x.s.rows).Ok? {
      var p := Payload(seed, v.kdf, ExportEntries(P, v, k, x.s.rows).value);
      ExportFileIs(P, p, op.master, PresetParams(op.preset), op.exportAvailable, op.exportSalt, op.exportNonce);
    }
  }

  lemma PresetsAre(p: RecoveryPreset)
    ensures PresetParams(p) == PresetCost(p) && StrongEnough(PresetCost(p))
  {
  }
}
