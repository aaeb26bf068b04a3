/**
 * The bounds-checked cursor both binary parsers read through.
 *
 * `Cursor` and the `Read*` functions say what each read returns; `Reader` is the
 * mutable object that performs it. `At` drives the "decode after encode"
 * direction, `Consumed` the "encode after decode" direction.
 */
module Cursors {
  import opened Bytes
  import opened Errors

  datatype Cursor_ = Cursor(buf: bytes, pos: nat)
  type Cursor = c: Cursor_ | c.pos <= |c.buf| witness Cursor([], 0)

  type Read<T> = Result<(T, Cursor), Error>

  function Take(c: Cursor, n: nat, field: Field): Read<bytes> {
    if n > |c.buf| - c.pos then Err(Truncated(field, c.pos))
    else Ok((c.buf[c.pos..c.pos + n], Cursor(c.buf, c.pos + n)))
  }

  /** A little-endian unsigned integer of `w` bytes. */
  function ReadUint(c: Cursor, w: nat, field: Field): (r: Read<nat>)
    ensures r.Ok? ==> r.value.0 < Pow256(w)
  {
    var (b, d) :- Take(c, w, field);
    Ok((UnLE(b), d))
  }

  /** A length prefix of `w` bytes, then that many bytes. */
  function ReadPrefixed(c: Cursor, w: nat, field: Field): (r: Read<bytes>)
    ensures r.Ok? ==> |r.value.0| < Pow256(w)
  {
    var (n, d) :- ReadUint(c, w, field);
    Take(d, n, field)
  }

  function ExpectEof(c: Cursor): Result<(), Error> {
    if c.pos == |c.buf| then Ok(()) else Err(TrailingBytes(|c.buf| - c.pos))
  }

  /** `s` is exactly what is left to read. */
  ghost predicate At(c: Cursor, s: bytes) { c.buf[c.pos..] == s }

  /** Reading took the cursor from `c` to `d` over exactly the bytes `s`. */
  ghost predicate Consumed(c: Cursor, s: bytes, d: Cursor) {
    d.buf == c.buf && c.pos <= d.pos && c.buf[c.pos..d.pos] == s
  }

  lemma ConsumedTwice(c: Cursor, s: bytes, d: Cursor, t: bytes, e: Cursor)
    requires Consumed(c, s, d) && Consumed(d, t, e)
    ensures Consumed(c, s + t, e)
  {
    assert c.buf[c.pos..e.pos] == c.buf[c.pos..d.pos] + c.buf[d.pos..e.pos];
  }

  /** The bytes a prefixed field occupies. */
  function Prefixed(b: bytes, w: nat): bytes { LE(|b|, w) + b }

  lemma TakeAt(c: Cursor, s: bytes, t: bytes, field: Field)
    requires At(c, s + t)
    ensures Take(c, |s|, field).Ok?
    ensures Take(c, |s|, field).value.0 == s && At(Take(c, |s|, field).value.1, t)
  {
    assert |c.buf| - c.pos == |s| + |t|;
    assert c.buf[c.pos..c.pos + |s|] == c.buf[c.pos..][..|s|] == (s + t)[..|s|] == s;
    assert c.buf[c.pos + |s|..] == c.buf[c.pos..][|s|..] == (s + t)[|s|..] == t;
  }

  lemma UintAt(c: Cursor, n: nat, w: nat, t: bytes, field: Field)
    requires n < Pow256(w) && At(c, LE(n, w) + t)
    ensures ReadUint(c, w, field).Ok?
    ensures ReadUint(c, w, field).value.0 == n && At(ReadUint(c, w, field).value.1, t)
  {
    TakeAt(c, LE(n, w), t, field);
    UnLEofLE(n, w);
  }

  lemma PrefixedAt(c: Cursor, b: bytes, w: nat, t: bytes, field: Field)
    requires |b| < Pow256(w) && At(c, Prefixed(b, w) + t)
    ensures ReadPrefixed(c, w, field).Ok?
    ensures ReadPrefixed(c, w, field).value.0 == b && At(ReadPrefixed(c, w, field).value.1, t)
  {
    assert Prefixed(b, w) + t == LE(|b|, w) + (b + t);
    UintAt(c, |b|, w, b + t, field);
    TakeAt(ReadUint(c, w, field).value.1, b, t, field);
  }

  lemma UintConsumes(c: Cursor, w: nat, field: Field)
    requires ReadUint(c, w, field).Ok?
    ensures var (n, d) := ReadUint(c, w, field).value; Consumed(c, LE(n, w), d)
  {
    LEofUnLE(Take(c, w, field).value.0);
  }

  lemma PrefixedConsumes(c: Cursor, w: nat, field: Field)
    requires ReadPrefixed(c, w, field).Ok?
    ensures var (b, d) := ReadPrefixed(c, w, field).value; Consumed(c, Prefixed(b, w), d)
  {
    UintConsumes(c, w, field);
    var (n, d) := ReadUint(c, w, field).value;
    var (b, e) := Take(d, n, field).value;
    ConsumedTwice(c, LE(n, w), d, b, e);
  }

  /** A list read with elements read earlier put in front; errors pass through. */
  ghost function PushFront<T>(l: seq<T>, r: Read<seq<T>>): Read<seq<T>> {
    if r.Ok? then Ok((l + r.value.0, r.value.1)) else r
  }

  lemma PushNothing<T>(r: Read<seq<T>>)
    ensures PushFront([], r) == r
  {
    if r.Ok? {
      assert [] + r.value.0 == r.value.0;
    }
  }

  lemma PushOne<T>(l: seq<T>, x: T, r: Read<seq<T>>)
    ensures PushFront(l, PushFront([x], r)) == PushFront(l + [x], r)
  {
    if r.Ok? {
      assert l + ([x] + r.value.0) == l + [x] + r.value.0;
    }
  }

  /** The mutable reader. A failed read reports the position it failed at. */
  class Reader {
    const buf: bytes
    var pos: nat

    ghost predicate Valid() reads this { pos <= |buf| }

    ghost function Here(): Cursor
      requires Valid()
      reads this
    {
      Cursor(buf, pos)
    }

    constructor (buf: bytes)
      ensures Valid() && Here() == Cursor(buf, 0)
    {
      this.buf, this.pos := buf, 0;
    }

    /** Agreement of a method's result and new state with a read function. */
    ghost predicate Did<T>(spec: Read<T>, r: Result<T, Error>)
      reads this
    {
      Valid() &&
      match spec
      case Ok((v, d)) => r == Ok(v) && Here() == d
      case Err(e) => r == Err(e)
    }

    method TakeBytes(n: nat, field: Field) returns (r: Result<bytes, Error>)
      requires Valid()
      modifies this
      ensures Did(old(Take(Here(), n, field)), r)
      ensures r.Err? ==> pos == old(pos)
    {
      if n > |buf| - pos { return Err(Truncated(field, pos)); }
      var start := pos;
      pos := pos + n;
      return Ok(buf[start..pos]);
    }

    method ReadU8(field: Field) returns (r: Result<byte, Error>)
      requires Valid()
      modifies this
      ensures Did(old(Take(Here(), 1, field)), if r.Ok? then Ok([r.value]) else Err(r.error))
    {
      var b :- TakeBytes(1, field);
      assert b == [b[0]];
      return Ok(b[0]);
    }

    method ReadUintLE(w: nat, field: Field) returns (r: Result<nat, Error>)
      requires Valid()
      modifies this
      ensures Did(old(ReadUint(Here(), w, field)), r)
    {
      var b :- TakeBytes(w, field);
      return Ok(UnLE(b));
    }

    method ReadPrefixedVec(w: nat, field: Field) returns (r: Result<bytes, Error>)
      requires Valid()
      modifies this
      ensures Did(old(ReadPrefixed(Here(), w, field)), r)
    {
      var n :- ReadUintLE(w, field);
      r := TakeBytes(n, field);
    }

    method Eof() returns (r: Result<(), Error>)
      requires Valid()
      ensures r == ExpectEof(Here())
    {
      return if pos == |buf| then Ok(()) else Err(TrailingBytes(|buf| - pos));
    }
  }
}
