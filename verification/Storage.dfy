/**
 * The vault file and its atomic replacement, over a file system that may crash. A crash
 * keeps the data of a synced file and may keep any bytes of an unsynced one; it may undo
 * any renames since the last directory sync.
 */
module Storage {
  import opened Bytes
  import opened Errors

  const MAX_VAULT_BYTES: nat := 64 * 1024 * 1024

  datatype Inode = Inode(data: bytes, synced: bool)

  /** What the vault path names, the temporary file, and what the path named before renames not yet durable. */
  datatype Disk = Disk(target: Option<Inode>, temp: Option<Inode>, earlier: seq<Option<Inode>>)

  /** What the running process reads at the vault path. */
  function Seen(d: Disk): Option<bytes> { if d.target.Some? then Some(d.target.value.data) else None }

  predicate Exposes(entry: Option<Inode>, c: Option<bytes>) {
    match entry
    case None => c.None?
    case Some(f) => c.Some? && (f.synced ==> c.value == f.data)
  }

  /** `c` may be what the vault path holds after a crash in state `d`. */
  predicate AfterCrash(d: Disk, c: Option<bytes>) {
    Exposes(d.target, c) || exists i :: 0 <= i < |d.earlier| && Exposes(d.earlier[i], c)
  }

  /** Every crash in `d` leaves what a crash in `before` could have left, or the whole of `data`. */
  ghost predicate CrashSafe(before: Disk, data: bytes, d: Disk) {
    forall c :: AfterCrash(d, c) ==> AfterCrash(before, c) || c == Some(data)
  }

  /** The bytes a read returns: missing and implausibly large files are refused. */
  function ReadSpec(file: Option<bytes>): Result<bytes, Error> {
    match file
    case None => Err(Io)
    case Some(b) => if |b| > MAX_VAULT_BYTES then Err(Io) else Ok(b)
  }

  /** Which steps of one write the operating system lets through; `chunks` are the sizes `write` returns. */
  datatype Faults = Faults(parent: bool, create: bool, chunks: seq<nat>, sync: bool, rename: bool,
                           cleanup: bool, openDir: bool, syncDir: bool)

  /** `write_all` over the returned sizes: a size of zero or running out of sizes is an error. */
  predicate Covers(chunks: seq<nat>, n: nat)
    decreases |chunks|
  {
    n == 0 || (chunks != [] && chunks[0] > 0 && Covers(chunks[1..], if chunks[0] >= n then 0 else n - chunks[0]))
  }

  function Sum(ns: seq<nat>): nat { if ns == [] then 0 else ns[0] + Sum(ns[1..]) }

  /** That is: some of the first writes, none of them empty, add up to the whole. */
  lemma {:induction false} CoversIff(chunks: seq<nat>, n: nat)
    ensures Covers(chunks, n) <==>
            exists k :: 0 <= k <= |chunks| && n <= Sum(chunks[..k]) && forall i :: 0 <= i < k ==> chunks[i] > 0
    decreases |chunks|
  {
    if n == 0 {
      assert chunks[..0] == [] && Sum(chunks[..0]) == 0;
    } else if chunks != [] && chunks[0] > 0 {
      var c, rest := chunks[0], chunks[1..];
      var m: nat := if c >= n then 0 else n - c;
      CoversIff(rest, m);
      forall k | 0 < k <= |chunks| ensures Sum(chunks[..k]) == c + Sum(rest[..k - 1]) {
        assert chunks[..k][1..] == rest[..k - 1];
      }
      if k :| 0 <= k <= |rest| && m <= Sum(rest[..k]) && forall i :: 0 <= i < k ==> rest[i] > 0 {
        assert n <= Sum(chunks[..k + 1]) && forall i :: 0 <= i < k + 1 ==> chunks[i] > 0;
      }
      if k :| 0 <= k <= |chunks| && n <= Sum(chunks[..k]) && forall i :: 0 <= i < k ==> chunks[i] > 0 {
        assert k > 0 && m <= Sum(rest[..k - 1]) && forall i :: 0 <= i < k - 1 ==> rest[i] > 0;
      }
    }
  }

  predicate Succeeds(f: Faults, data: bytes) {
    f.parent && f.create && Covers(f.chunks, |data|) && f.sync && f.rename
  }

  class Store {
    var disk: Disk
    /** Every state the disk went through. */
    ghost var history: seq<Disk>

    constructor (disk: Disk)
      ensures this.disk == disk && history == [disk]
    {
      this.disk := disk;
      history := [disk];
    }

    method Read() returns (r: Result<bytes, Error>)
      ensures r == ReadSpec(Seen(disk))
    {
      if disk.target.None? { return Err(Io); }
      var b := disk.target.value.data;
      if |b| > MAX_VAULT_BYTES { return Err(Io); }
      return Ok(b);
    }

    method Step(d: Disk)
      modifies this
      ensures disk == d && history == old(history) + [d]
    {
      disk := d;
      history := history + [d];
    }

    /** `write_all` into the temporary file. */
    method WriteTemp(data: bytes, chunks: seq<nat>) returns (ok: bool)
      requires disk.temp == Some(Inode([], false))
      modifies this
      ensures ok <==> Covers(chunks, |data|)
      ensures disk.target == old(disk.target) && disk.earlier == old(disk.earlier)
      ensures disk.temp.Some? && !disk.temp.value.synced && (ok ==> disk.temp.value.data == data)
      ensures |history| >= |old(history)| && history[..|old(history)|] == old(history)
      ensures forall i :: |old(history)| <= i < |history| ==>
                history[i].target == old(disk.target) && history[i].earlier == old(disk.earlier)
    {
      var pos, i := 0, 0;
      while pos < |data|
        invariant 0 <= pos <= |data| && 0 <= i <= |chunks|
        invariant Covers(chunks, |data|) <==> Covers(chunks[i..], |data| - pos)
        invariant disk == old(disk).(temp := Some(Inode(data[..pos], false)))
        invariant |history| >= |old(history)| && history[..|old(history)|] == old(history)
        invariant forall j :: |old(history)| <= j < |history| ==>
                    history[j].target == old(disk.target) && history[j].earlier == old(disk.earlier)
        decreases |data| - pos
      {
        if i == |chunks| || chunks[i] == 0 { return false; }
        assert chunks[i..][0] == chunks[i] && chunks[i..][1..] == chunks[i + 1..];
        pos := Min(pos + chunks[i], |data|);
        i := i + 1;
        Step(disk.(temp := Some(Inode(data[..pos], false))));
      }
      return true;
    }

    /** Best-effort removal of the temporary file. */
    method RemoveTemp(f: Faults)
      modifies this
      ensures disk == (if f.cleanup then old(disk).(temp := None) else old(disk))
      ensures history == old(history) + [disk]
    {
      Step(if f.cleanup then disk.(temp := None) else disk);
    }

    /**
     * Replaces the vault file: it then holds the new bytes, or is untouched on an error,
     * and a crash at any step leaves whole contents only.
     */
    method AtomicWrite(data: bytes, f: Faults) returns (r: Result<(), Error>)
      modifies this
      ensures r == if Succeeds(f, data) then Ok(()) else Err(Io)
      ensures r.Ok? <==> f.parent && f.create && Covers(f.chunks, |data|) && f.sync && f.rename
      ensures Seen(disk) == if r.Ok? then Some(data) else old(Seen(disk))
      ensures |history| >= |old(history)| && history[..|old(history)|] == old(history)
      ensures forall i :: |old(history)| <= i < |history| ==> CrashSafe(old(disk), data, history[i])
      ensures CrashSafe(old(disk), data, disk)
      ensures r.Ok? && f.openDir && f.syncDir ==> forall c :: AfterCrash(disk, c) <==> c == Some(data)
      ensures r.Err? ==> disk.target == old(disk.target) && disk.earlier == old(disk.earlier)
    {
      if !f.parent { return Err(Io); }
      Step(disk.(temp := if f.create then Some(Inode([], false)) else disk.temp));
      if !f.create {
        RemoveTemp(f);
        return Err(Io);
      }
      var written := WriteTemp(data, f.chunks);
      if !written {
        RemoveTemp(f);
        return Err(Io);
      }
      Step(disk.(temp := Some(Inode(data, f.sync))));
      if !f.sync {
        RemoveTemp(f);
        return Err(Io);
      }
      RenameIsSafe(old(disk), data, Renamed(disk));
      Step(if f.rename then Renamed(disk) else disk);
      if !f.rename {
        RemoveTemp(f);
        return Err(Io);
      }
      if f.openDir && f.syncDir {
        Step(disk.(earlier := []));
      }
      return Ok(());
    }
  }

  /** The temporary file takes the vault file's place; a crash may undo this until the directory is synced. */
  function Renamed(d: Disk): Disk { Disk(d.temp, None, d.earlier + [d.target]) }

  lemma RenameIsSafe(before: Disk, data: bytes, d: Disk)
    requires d.target == Some(Inode(data, true)) && d.earlier == before.earlier + [before.target]
    ensures CrashSafe(before, data, d)
  {
    forall c | AfterCrash(d, c) ensures AfterCrash(before, c) || c == Some(data) {
      if !Exposes(d.target, c) {
        var i :| 0 <= i < |d.earlier| && Exposes(d.earlier[i], c);
        if i < |before.earlier| {
          assert before.earlier[i] == d.earlier[i];
        }
      }
    }
  }

  /** Over any number of writes, a crash leaves a starting state or the whole of some written buffer. */
  lemma {:induction false} WritesCrashSafe(ds: seq<Disk>, written: seq<bytes>, c: Option<bytes>)
    requires |ds| == |written| + 1
    requires forall i :: 0 <= i < |written| ==> CrashSafe(ds[i], written[i], ds[i + 1])
    requires AfterCrash(ds[|written|], c)
    ensures AfterCrash(ds[0], c) || (c.Some? && c.value in written)
  {
    hide AfterCrash;
    var n := |written|;
    if n > 0 && c != Some(written[n - 1]) {
      WritesCrashSafe(ds[..n], written[..n - 1], c);
    }
  }
}
