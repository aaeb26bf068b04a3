/** Rebuilding a vault seals each entry with its own pair of random nonces. */
module Nonces {
  import opened Bytes
  import opened Types
  import opened Primitives
  import opened KeyedLists
  import opened Records
  import opened VaultModel
  import opened RecoveryModel
  import opened Rebuild

  /** The first `n` of these entries carry the first nonces of the first `n` pairs. */
  predicate NoncesFrom(v: VaultData, ids: seq<Id>, n: nat, rng: Rng)
    requires n <= |ids|
  {
    forall j :: 0 <= j < n ==> Find(v.envelopes, ids[j]).Some? && Find(v.envelopes, ids[j]).value.nonce == rng(j).0
  }

  /** The index carries the second nonce of the last pair. */
  predicate IndexNonceFrom(v: VaultData, n: nat, rng: Rng) { n > 0 ==> v.indexNonce == rng(n - 1).1 }

  lemma AddedNonces(P: Prims, v: VaultData, k: Key, ids: seq<Id>, i: nat, body: RowBody, record: EntryRecord, rng: Rng)
    requires i < |ids| && NoDup(ids) && NoncesFrom(v, ids, i, rng)
    requires AddOrUpdate(P, v, k, ids[i], body, record, rng(i).0, rng(i).1).1.Ok?
    ensures var w := AddOrUpdate(P, v, k, ids[i], body, record, rng(i).0, rng(i).1).0;
            NoncesFrom(w, ids, i + 1, rng) && IndexNonceFrom(w, i + 1, rng)
  {
    hide DecryptIndex, SealIndex, Put, Find, EncodeRecord, EntryKey, EntryAd;
    var sealed := EncryptEntry(P, k, v.version, ids[i], record, rng(i).0);
    forall j | 0 <= j < i + 1
      ensures Find(Put(v.envelopes, ids[i], sealed), ids[j])
           == if j == i then Some(sealed) else Find(v.envelopes, ids[j])
    {
      FindPut(v.envelopes, ids[i], sealed, ids[j]);
    }
  }

  /** A password change: entry `j` gets pair `j`, and the index ends with the last. */
  lemma {:induction false} CopyNonces(P: Prims, src: VaultData, ks: Key, dst: VaultData, kd: Key, rows: seq<Row>,
                                      i: nat, rng: Rng)
    requires i <= |rows| && NoDup(Ids(rows)) && CopyRows(P, src, ks, dst, kd, rows, i, rng).Ok?
    requires NoncesFrom(dst, Ids(rows), i, rng) && IndexNonceFrom(dst, i, rng)
    ensures var w := CopyRows(P, src, ks, dst, kd, rows, i, rng).value;
            NoncesFrom(w, Ids(rows), |rows|, rng) && IndexNonceFrom(w, |rows|, rng)
    decreases |rows| - i
  {
    hide NoncesFrom, IndexNonceFrom, NoDup, AddOrUpdate, DecryptEntry;
    if i < |rows| {
      var record := DecryptEntry(P, src, ks, rows[i].id).value;
      var w := AddOrUpdate(P, dst, kd, rows[i].id, rows[i].body, record, rng(i).0, rng(i).1).0;
      assert Ids(rows)[i] == rows[i].id;
      AddedNonces(P, dst, kd, Ids(rows), i, rows[i].body, record, rng);
      CopyNonces(P, src, ks, w, kd, rows, i + 1, rng);
    }
  }

  lemma ReencryptNonces(P: Prims, src: VaultData, ks: Key, rows: seq<Row>, salt: Salt, kdf: KdfParams, kd: Key,
                        now: i64, probeNonce: Nonce, indexNonce: Nonce, rng: Rng)
    requires NoDup(Ids(rows)) && Reencrypt(P, src, ks, rows, salt, kdf, kd, now, probeNonce, indexNonce, rng).Ok?
    ensures var w := Reencrypt(P, src, ks, rows, salt, kdf, kd, now, probeNonce, indexNonce, rng).value;
            NoncesFrom(w, Ids(rows), |rows|, rng) && IndexNonceFrom(w, |rows|, rng)
  {
    hide CopyRows, SealProbe, SealIndex;
    var meta := src.meta.(lastPasswordChange := now);
    var dst := Create(P, kdf, salt, src.kHsmBlob, src.totpBlob, meta, kd, probeNonce, indexNonce).value;
    CopyNonces(P, src, ks, dst, kd, rows, 0, rng);
  }

  function EntryIds(es: seq<RecoveryEntry>): (ids: seq<Id>)
    ensures |ids| == |es| && forall i :: 0 <= i < |es| ==> ids[i] == es[i].id
  {
    seq(|es|, i requires 0 <= i < |es| => es[i].id)
  }

  /** An import: the same, for a backup without repeated ids. */
  lemma {:induction false} ImportNonces(P: Prims, dst: VaultData, kd: Key, es: seq<RecoveryEntry>, i: nat, rng: Rng)
    requires i <= |es| && NoDup(EntryIds(es)) && ImportEntries(P, dst, kd, es, i, rng).Ok?
    requires NoncesFrom(dst, EntryIds(es), i, rng) && IndexNonceFrom(dst, i, rng)
    ensures var w := ImportEntries(P, dst, kd, es, i, rng).value;
            NoncesFrom(w, EntryIds(es), |es|, rng) && IndexNonceFrom(w, |es|, rng)
    decreases |es| - i
  {
    hide NoncesFrom, IndexNonceFrom, NoDup, AddOrUpdate;
    if i < |es| {
      var (row, record) := ImportEntryParts(P, es[i]).value;
      var w := AddOrUpdate(P, dst, kd, row.id, row.body, record, rng(i).0, rng(i).1).0;
      AddedNonces(P, dst, kd, EntryIds(es), i, row.body, record, rng);
      ImportNonces(P, w, kd, es, i + 1, rng);
    }
  }
}
