/** The unlocked session object, proved against the session model. */
module UnlockedApp {
  import opened Bytes
  import opened Errors
  import opened Types
  import opened Primitives
  import opened KeyedLists
  import opened Records
  import opened VaultModel
  import opened Kdf
  import opened Storage
  import opened RecoveryModel
  import opened Rebuild
  import opened AppModel
  import opened SessionModel
  import A = App
  import C = VaultCodec
  import V = Vault
  import Recovery

  class UnlockedApp {
    const app: A.App
    var kMaster: Key
    var totpSeed: bytes
    var index: seq<Row>
    var sessionExpiry: u64

    ghost predicate Valid()
      reads this, app, app.verifier
    {
      app.Valid()
    }

    ghost function View(): Live
      reads this, app, app.verifier, app.store
    {
      Live(app.View(), Session(kMaster, totpSeed, index, sessionExpiry))
    }

    ghost function Frame(): set<object>
      reads this, app
    {
      {this} + app.Frame()
    }

    constructor (app: A.App, s: Session)
      requires app.Valid()
      ensures Valid() && this.app == app && View() == Live(app.View(), s)
    {
      this.app := app;
      kMaster, totpSeed, index, sessionExpiry := s.kMaster, s.seed, s.rows, s.expiry;
    }

    /** Reads the clock; never extends the session. */
    method EnsureUnlocked(now: u64) returns (r: Result<(), Error>)
      ensures r == if now >= sessionExpiry then Err(SessionLocked) else Ok(())
    {
      return if now >= sessionExpiry then Err(SessionLocked) else Ok(());
    }

    method PersistAndRefresh(vault: V.Vault, faults: Faults) returns (r: Result<Reply, Error>)
      requires Valid() && vault.P == app.P
      modifies this`index, app.store
      ensures Valid() && app.Frame() == old(app.Frame())
      ensures (View(), r) == Persist(app.P, old(View()), old(vault.View()), faults)
    {
      hide OpenIndex, C.Serialize, Succeeds;
      var data := vault.ToBytes();
      var _ :- app.store.AtomicWrite(data, faults);
      var refreshed :- vault.OpenTheIndex(kMaster);
      index := refreshed.rows;
      return Ok(Done);
    }

    method UpsertEntry(op: Op) returns (r: Result<Reply, Error>)
      requires Valid() && (op.Add? || op.Update?)
      modifies this`index, app.store
      ensures Valid() && app.Frame() == old(app.Frame())
      ensures (View(), r) == Upsert(app.P, old(View()), op)
    {
      hide LoadVault, AddOrUpdate, Persist;
      var vault :- app.LoadFile();
      var _ :- vault.AddOrUpdateEntry(kMaster, op.id, op.body, op.record, op.entryNonce, op.indexNonce);
      r := PersistAndRefresh(vault, op.faults);
    }

    method AddEntry(op: Op) returns (r: Result<Reply, Error>)
      requires Valid() && op.Add?
      modifies this`index, app.store
      ensures Valid() && app.Frame() == old(app.Frame())
      ensures (View(), r) == Apply(app.P, old(View()), op)
    {
      hide Upsert, UpdateSpec, RemoveSpec, RevealSpec, CopySpec, ConfirmSpec, ChangeSpec, ExportSpec;
      var _ :- EnsureUnlocked(op.now);
      r := UpsertEntry(op);
    }

    method UpdateEntry(op: Op) returns (r: Result<Reply, Error>)
      requires Valid() && op.Update?
      modifies this`index, app.store
      ensures Valid() && app.Frame() == old(app.Frame())
      ensures (View(), r) == Apply(app.P, old(View()), op)
    {
      hide Upsert, RemoveSpec, RevealSpec, CopySpec, ConfirmSpec, ChangeSpec, ExportSpec;
      var _ :- EnsureUnlocked(op.now);
      if Find(index, op.id).None? { return Err(EntryNotFound); }
      r := UpsertEntry(op);
    }

    method RemoveEntry(op: Op) returns (r: Result<Reply, Error>)
      requires Valid() && op.Remove?
      modifies this`index, app.store
      ensures Valid() && app.Frame() == old(app.Frame())
      ensures (View(), r) == Apply(app.P, old(View()), op)
    {
      hide Upsert, UpdateSpec, RevealSpec, CopySpec, ConfirmSpec, ChangeSpec, ExportSpec, LoadVault,
           VaultModel.Remove, Persist;
      var _ :- EnsureUnlocked(op.now);
      var vault :- app.LoadFile();
      var _ :- vault.RemoveEntry(kMaster, op.id, op.indexNonce);
      r := PersistAndRefresh(vault, op.faults);
    }

    method ReadEntry(id: Id) returns (r: Result<EntryRecord, Error>)
      requires Valid()
      ensures r == ReadRecord(app.P, View(), id)
    {
      hide LoadVault, DecryptEntry;
      var vault :- app.LoadFile();
      r := vault.ReadEntry(kMaster, id);
    }

    method WithRevealed(op: Op) returns (r: Result<Reply, Error>)
      requires Valid() && op.Reveal?
      ensures (View(), r) == Apply(app.P, View(), op)
    {
      hide Upsert, UpdateSpec, RemoveSpec, CopySpec, ConfirmSpec, ChangeSpec, ExportSpec, ReadRecord;
      var _ :- EnsureUnlocked(op.now);
      var record :- ReadEntry(op.id);
      return Ok(Revealed(record));
    }

    /** Clamps the session to half a minute after a copy. */
    method CopyToClipboard(op: Op) returns (r: Result<Reply, Error>)
      requires Valid() && op.Copy?
      modifies this`sessionExpiry
      ensures Valid() && (View(), r) == Apply(app.P, old(View()), op)
    {
      hide Upsert, UpdateSpec, RemoveSpec, RevealSpec, ConfirmSpec, ChangeSpec, ExportSpec, ReadRecord;
      var _ :- EnsureUnlocked(op.now);
      var record :- ReadEntry(op.id);
      if !op.pasted { return Err(Io); }
      var clampTo := Min(op.after + POST_COPY_SECS, U64_MAX);
      sessionExpiry := Min(sessionExpiry, clampTo);
      return Ok(Copied(FieldOf(record, op.field)));
    }

    method VerifyTotpCode(op: Op) returns (r: Result<Reply, Error>)
      requires Valid() && op.Confirm?
      modifies app`verifier, app.verifier
      ensures Valid() && fresh(app.Frame() - old(app.Frame()))
      ensures (View(), r) == Apply(app.P, old(View()), op)
    {
      hide Upsert, UpdateSpec, RemoveSpec, RevealSpec, CopySpec, ChangeSpec, ExportSpec, VerifyTotp;
      var ok := app.VerifyTotp(totpSeed, op.code, op.codeNow);
      return Ok(SessionModel.Valid(ok));
    }

    /** The loop of `reencrypt_vault`. */
    method CopyEntries(source: V.Vault, rebuilt: V.Vault, newMaster: Key, rng: Rng) returns (r: Result<(), Error>)
      requires source != rebuilt && source.P == app.P && rebuilt.P == app.P
      modifies rebuilt
      ensures match CopyRows(app.P, source.View(), kMaster, old(rebuilt.View()), newMaster, index, 0, rng)
              case Ok(d) => r.Ok? && rebuilt.View() == d
              case Err(e) => r == Err(e)
    {
      hide AddOrUpdate, DecryptEntry;
      for i := 0 to |index|
        invariant CopyRows(app.P, source.View(), kMaster, old(rebuilt.View()), newMaster, index, 0, rng)
               == CopyRows(app.P, source.View(), kMaster, rebuilt.View(), newMaster, index, i, rng)
      {
        var record :- source.ReadEntry(kMaster, index[i].id);
        var _ :- rebuilt.AddOrUpdateEntry(newMaster, index[i].id, index[i].body, record, rng(i).0, rng(i).1);
      }
      return Ok(());
    }

    method ReencryptVault(source: V.Vault, op: Op, newMaster: Key) returns (r: Result<V.Vault, Error>)
      requires Valid() && op.ChangePassword? && source.P == app.P
      ensures match Reencrypt(app.P, source.View(), kMaster, index, op.salt, op.kdf, newMaster, op.changed,
                              op.probeNonce, op.indexNonce, op.rng)
              case Ok(d) => r.Ok? && fresh(r.value) && r.value.View() == d && r.value.P == app.P
              case Err(e) => r == Err(e)
    {
      hide Create, CopyRows;
      var meta := source.metadata.(lastPasswordChange := op.changed);
      var rebuilt :- V.Vault.Create(app.P, op.kdf, op.salt, source.kHsmWrapBlob, source.totpSeedWrapBlob, meta,
                                    newMaster, op.probeNonce, op.indexNonce);
      var _ :- CopyEntries(source, rebuilt, newMaster, op.rng);
      return Ok(rebuilt);
    }

    method Rekey(vault: V.Vault, op: Op) returns (r: Result<(V.Vault, Key), Error>)
      requires Valid() && op.ChangePassword? && vault.P == app.P
      ensures match Rekeyed(app.P, View(), vault.View(), op)
              case Ok((d, k)) => r.Ok? && fresh(r.value.0) && r.value.0.View() == d && r.value.0.P == app.P
                  && r.value.1 == k
              case Err(e) => r == Err(e)
    {
      hide Reencrypt, VerifyProbe, DeriveMaster;
      var kHsm :- UnwrapCore(op.key(vault.kHsmWrapBlob));
      var oldMaster :- DeriveMaster(app.P, op.old_, vault.salt, vault.kdfParams, kHsm, op.oldAvailable);
      var _ :- vault.CheckProbe(oldMaster);
      var newMaster :- DeriveMaster(app.P, op.new_, op.salt, op.kdf, kHsm, op.newAvailable);
      var rebuilt :- ReencryptVault(vault, op, newMaster);
      return Ok((rebuilt, newMaster));
    }

    /** The old password must verify; the session then continues under the new key. */
    method ChangeMasterPassword(op: Op) returns (r: Result<Reply, Error>)
      requires Valid() && op.ChangePassword?
      modifies this`kMaster, this`index, app.store
      ensures Valid() && app.Frame() == old(app.Frame())
      ensures (View(), r) == Apply(app.P, old(View()), op)
    {
      hide Upsert, UpdateSpec, RemoveSpec, RevealSpec, CopySpec, ConfirmSpec, ChangeSpec, ExportSpec;
      var _ :- EnsureUnlocked(op.now);
      r := ChangeUnlocked(op);
    }

    method ChangeUnlocked(op: Op) returns (r: Result<Reply, Error>)
      requires Valid() && op.ChangePassword?
      modifies this`kMaster, this`index, app.store
      ensures Valid() && app.Frame() == old(app.Frame())
      ensures (View(), r) == ChangeSpec(app.P, old(View()), op)
    {
      hide LoadVault, Rekeyed, C.Serialize, Succeeds, OpenIndex;
      var vault :- app.LoadFile();
      var rekeyed :- Rekey(vault, op);
      var (rebuilt, newMaster) := rekeyed;
      var existingExport := vault.metadata.lastExportAt.Some?;
      var data := rebuilt.ToBytes();
      var _ :- app.store.AtomicWrite(data, op.faults);
      kMaster := newMaster;
      var refreshed :- rebuilt.OpenTheIndex(kMaster);
      index := refreshed.rows;
      return Ok(ExportStale(existingExport));
    }

    /** The loop of `export_recovery`. */
    method CollectEntries(vault: V.Vault, key: Key) returns (r: Result<seq<RecoveryEntry>, Error>)
      requires vault.P == app.P
      ensures r == ExportEntries(app.P, vault.View(), key, index)
    {
      hide DecryptEntry, RecoveryEntryFrom;
      var entries: seq<RecoveryEntry> := [];
      PrependNothing(ExportEntries(app.P, vault.View(), key, index));
      assert index[0..] == index;
      for i := 0 to |index|
        invariant ExportEntries(app.P, vault.View(), key, index)
                  == Prepend(entries, ExportEntries(app.P, vault.View(), key, index[i..]))
      {
        assert index[i..][0] == index[i] && index[i..][1..] == index[i + 1..];
        var record :- vault.ReadEntry(key, index[i].id);
        ghost var rest := ExportEntries(app.P, vault.View(), key, index[i + 1..]);
        PrependTwice(entries, RecoveryEntryFrom(app.P, index[i], record), rest);
        entries := entries + [RecoveryEntryFrom(app.P, index[i], record)];
      }
      assert index[|index|..] == [] && entries + [] == entries;
      return Ok(entries);
    }

    method BuildExport(vault: V.Vault, kHsm: bytes, seed: bytes, codeOk: bool, op: Op) returns (r: Result<bytes, Error>)
      requires Valid() && op.Export? && vault.P == app.P
      ensures r == Exported(app.P, View(), vault.View(), kHsm, seed, codeOk, op)
    {
      hide VerifyProbe, DeriveMaster, ExportEntries, ExportFile;
      if !codeOk { return Err(AeadAuth); }
      var reauth :- DeriveMaster(app.P, op.master, vault.salt, vault.kdfParams, kHsm, op.available);
      var _ :- vault.CheckProbe(reauth);
      if |seed| != 32 { return Err(Hsm); }
      var entries :- CollectEntries(vault, reauth);
      r := Recovery.ExportWithinMemory(app.P, Payload(seed, vault.kdfParams, entries), op.master,
                                       PresetParams(op.preset), op.exportAvailable, op.exportSalt, op.exportNonce);
    }

    /** Gate, fresh re-authentication, payload, file; then the export date is recorded. */
    method ExportRecovery(op: Op) returns (r: Result<Reply, Error>)
      requires Valid() && op.Export?
      modifies app`verifier, app.verifier, app.store
      ensures Valid() && fresh(app.Frame() - old(app.Frame()))
      ensures (View(), r) == Apply(app.P, old(View()), op)
    {
      hide Upsert, UpdateSpec, RemoveSpec, RevealSpec, CopySpec, ConfirmSpec, ChangeSpec, ExportSpec;
      var _ :- EnsureUnlocked(op.now);
      r := ExportUnlocked(op);
    }

    method ExportUnlocked(op: Op) returns (r: Result<Reply, Error>)
      requires Valid() && op.Export?
      modifies app`verifier, app.verifier, app.store
      ensures Valid() && fresh(app.Frame() - old(app.Frame()))
      ensures (View(), r) == ExportSpec(app.P, old(View()), op)
    {
      hide LoadVault, VerifyTotp, Exported, C.Serialize, Succeeds, UnwrapCores;
      var vault :- app.LoadFile();
      if !op.strong { return Err(WeakPasswordForExport); }
      var slots :- UnwrapTwo(vault, op);
      ghost var x, v := View(), vault.View();
      var codeOk := app.VerifyTotp(slots.1, op.code, op.codeNow);
      SameSession(app.P, x, View(), v, slots.0, slots.1, codeOk, op);
      var file :- BuildExport(vault, slots.0, slots.1, codeOk, op);
      vault.SetMetadata(vault.metadata.(lastExportAt := Some(op.exported)));
      var data := vault.ToBytes();
      var _ :- app.store.AtomicWrite(data, op.faults);
      return Ok(File(file));
    }

    method UnwrapTwo(vault: V.Vault, op: Op) returns (r: Result<(bytes, bytes), Error>)
      requires op.Export?
      ensures r == UnwrapCores(vault.View(), op.key, op.seed)
    {
      var kHsm :- UnwrapCore(op.key(vault.kHsmWrapBlob));
      var seed :- UnwrapCore(op.seed(vault.totpSeedWrapBlob));
      return Ok((kHsm, seed));
    }
  }

  lemma SameSession(P: Prims, x: Live, y: Live, v: VaultData, kHsm: bytes, seed: bytes, codeOk: bool, op: Op)
    requires op.Export? && x.s == y.s
    ensures Exported(P, x, v, kHsm, seed, codeOk, op) == Exported(P, y, v, kHsm, seed, codeOk, op)
  {
    hide Backup, DeriveMaster, VerifyProbe;
  }
}
