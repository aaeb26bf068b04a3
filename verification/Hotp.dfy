/** HOTP values and their fixed-width codes (RFC 4226, section 5.3). */
module Hotp {
  import opened Bytes
  import opened Types
  import opened Primitives

  function Pow10(d: nat): (p: nat)
    ensures p > 0
  {
    if d == 0 then 1 else 10 * Pow10(d - 1)
  }

  function Reversed(b: bytes): (r: bytes)
    ensures |r| == |b|
  {
    if b == [] then [] else Reversed(b[1..]) + [b[0]]
  }

  /** `u64::to_be_bytes` */
  function BigEndian(n: u64): bytes { Reversed(LE(n, 8)) }

  /** The number a byte string denotes, most significant byte first. */
  function BigEndianValue(b: bytes): nat {
    if b == [] then 0 else 256 * BigEndianValue(b[..|b| - 1]) + b[|b| - 1]
  }

  lemma {:induction false} ReversedValue(b: bytes)
    ensures BigEndianValue(Reversed(b)) == UnLE(b)
  {
    if b != [] {
      ReversedValue(b[1..]);
      assert Reversed(b)[..|b| - 1] == Reversed(b[1..]);
    }
  }

  lemma {:induction false} ReversedAppend(b: bytes, x: byte)
    ensures Reversed(b + [x]) == [x] + Reversed(b)
  {
    if b == [] {
      assert [] + [x] == [x];
    } else {
      ReversedAppend(b[1..], x);
      assert (b + [x])[1..] == b[1..] + [x];
    }
  }

  lemma {:induction false} ReversedTwice(b: bytes)
    ensures Reversed(Reversed(b)) == b
  {
    if b != [] {
      ReversedTwice(b[1..]);
      ReversedAppend(Reversed(b[1..]), b[0]);
    }
  }

  /** The message hashed for `n` is the one eight-byte string that denotes it. */
  lemma BigEndianIff(n: u64, m: bytes)
    ensures m == BigEndian(n) <==> |m| == 8 && BigEndianValue(m) == n
  {
    Widths();
    UnLEofLE(n, 8);
    ReversedValue(LE(n, 8));
    if |m| == 8 && BigEndianValue(m) == n {
      ReversedTwice(m);
      ReversedValue(Reversed(m));
      LEofUnLE(Reversed(m));
    }
  }

  /** Dynamic truncation: four bytes at the offset in the low nibble of the last byte, top bit masked. */
  function Truncate(tag: bytes): (v: u32)
    requires |tag| >= 20
  {
    var o := tag[|tag| - 1] % 16;
    var (a: int, b: int, c: int, d: int) := (tag[o] % 128, tag[o + 1], tag[o + 2], tag[o + 3]);
    a * 0x100_0000 + b * 0x1_0000 + c * 0x100 + d
  }

  /** Truncation takes the low 31 bits of the big-endian word at the offset. */
  lemma TruncateIsLow31Bits(tag: bytes)
    requires |tag| >= 20
    ensures var o := tag[|tag| - 1] % 16;
            && o + 4 <= |tag|
            && Truncate(tag) == BigEndianValue(tag[o..o + 4]) % 0x8000_0000
            && Truncate(tag) < 0x8000_0000
  {
    hide BigEndianValue;
    var o := tag[|tag| - 1] % 16;
    var w := tag[o..o + 4];
    assert w == [tag[o], tag[o + 1], tag[o + 2], tag[o + 3]];
    FourBytes(tag[o], tag[o + 1], tag[o + 2], tag[o + 3]);
    MaskTop(tag[o], tag[o + 1], tag[o + 2], tag[o + 3]);
  }

  /** Masking the top bit of the first of four bytes reduces the word modulo 2^31. */
  lemma MaskTop(a: int, b: int, c: int, d: int)
    requires 0 <= a < 256 && 0 <= b < 256 && 0 <= c < 256 && 0 <= d < 256
    ensures var low := a % 128 * 0x100_0000 + b * 0x1_0000 + c * 0x100 + d;
            && 0 <= low < 0x8000_0000
            && (a * 0x100_0000 + b * 0x1_0000 + c * 0x100 + d) % 0x8000_0000 == low
  {
    var low := a % 128 * 0x100_0000 + b * 0x1_0000 + c * 0x100 + d;
    assert a == 128 * (a / 128) + a % 128;
    assert a * 0x100_0000 + b * 0x1_0000 + c * 0x100 + d == a / 128 * 0x8000_0000 + low;
  }

  lemma FourBytes(a: byte, b: byte, c: byte, d: byte)
    ensures BigEndianValue([a, b, c, d]) == a * 0x100_0000 + b * 0x1_0000 + c * 0x100 + d
  {
    var s: bytes := [a, b, c, d];
    assert s[..3] == [a, b, c] && s[..3][..2] == [a, b] && [a, b][..1] == [a] && [a][..0] == [];
    assert BigEndianValue([a]) == a && BigEndianValue([a, b]) == 256 * a + b;
    assert [a, b, c][..2] == [a, b] && BigEndianValue([a, b, c]) == 256 * (256 * a + b) + c;
  }

  function Tag(P: Prims, alg: Algorithm, seed: bytes, counter: u64): (tag: bytes)
    ensures |tag| >= 20
  {
    P.hmac(alg, seed, BigEndian(counter))
  }

  function HotpValue(P: Prims, alg: Algorithm, seed: bytes, counter: u64, digits: nat): (v: nat)
    requires 1 <= digits <= 8
    ensures v < Pow10(digits)
  {
    Truncate(Tag(P, alg, seed, counter)) % Pow10(digits)
  }

  // ----- Fixed-width codes ----------------------------------------------------------

  predicate IsDigit(b: byte) { 0x30 <= b <= 0x39 }

  predicate AllDigits(code: bytes) { forall i :: 0 <= i < |code| ==> IsDigit(code[i]) }

  /** The last `d` decimal digits of `v`, zero-padded. */
  function Padded(v: nat, d: nat): (code: bytes)
    ensures |code| == d && AllDigits(code)
  {
    if d == 0 then [] else Padded(v / 10, d - 1) + [0x30 + v % 10]
  }

  /** The number a digit string denotes. */
  function Denotes(code: bytes): (v: nat)
    requires AllDigits(code)
    ensures v < Pow10(|code|)
  {
    if code == [] then 0 else 10 * Denotes(code[..|code| - 1]) + (code[|code| - 1] - 0x30)
  }

  method FormatPadded(value: nat, out: array<byte>)
    modifies out
    ensures out[..] == Padded(value, out.Length)
  {
    var remaining := value;
    var i := out.Length;
    while i > 0
      invariant 0 <= i <= out.Length
      invariant Padded(value, out.Length) == Padded(remaining, i) + out[i..]
    {
      i := i - 1;
      ghost var tail := out[i + 1..];
      out[i] := 0x30 + remaining % 10;
      assert out[i..] == [out[i]] + tail;
      ConcatAssoc(Padded(remaining / 10, i), [out[i]], tail);
      remaining := remaining / 10;
    }
    assert out[0..] == out[..];
  }

  /** A padded code denotes its value modulo the width. */
  lemma {:induction false} DenotesPadded(v: nat, d: nat)
    ensures Denotes(Padded(v, d)) == v % Pow10(d)
    ensures v < Pow10(d) ==> Denotes(Padded(v, d)) == v
  {
    if d > 0 {
      DenotesPadded(v / 10, d - 1);
      var c := Padded(v, d);
      assert c[..d - 1] == Padded(v / 10, d - 1);
      SplitMod(v, Pow10(d - 1));
    }
    if v < Pow10(d) { SmallMod(v, Pow10(d)); }
  }

  lemma SmallMod(v: nat, n: nat)
    requires v < n
    ensures v % n == v
  {
  }

  lemma SplitMod(v: nat, n: nat)
    requires n > 0
    ensures v % (10 * n) == 10 * (v / 10 % n) + v % 10
  {
    var w := v / 10;
    var q, r := w / n, w % n;
    assert w == q * n + r;
    assert v == q * (10 * n) + (10 * r + v % 10) by {
      assert v == 10 * (q * n + r) + v % 10;
      assert 10 * (q * n) == q * (10 * n);
    }
    DivUnique(q, 10 * n, 10 * r + v % 10);
  }

  /** Every digit string is the padded form of the number it denotes. */
  lemma {:induction false} PaddedDenotes(code: bytes)
    requires AllDigits(code)
    ensures Padded(Denotes(code), |code|) == code
  {
    if code != [] {
      PaddedDenotes(code[..|code| - 1]);
      assert code == code[..|code| - 1] + [code[|code| - 1]];
    }
  }

  /** Two codes of one width are equal exactly when the values they stand for are. */
  lemma CodesEqualIff(v: nat, w: nat, d: nat)
    requires v < Pow10(d) && w < Pow10(d)
    ensures Padded(v, d) == Padded(w, d) <==> v == w
  {
    DenotesPadded(v, d);
    DenotesPadded(w, d);
  }

  /** Codes are written most significant digit first, in ASCII. */
  lemma PaddedDigits(v: nat)
    ensures Padded(v, 6) == [0x30 + v / 100000 % 10, 0x30 + v / 10000 % 10, 0x30 + v / 1000 % 10,
                             0x30 + v / 100 % 10, 0x30 + v / 10 % 10, 0x30 + v % 10]
  {
    assert Padded(v / 100000, 1) == [0x30 + v / 100000 % 10];
    assert Padded(v / 10000, 2) == [0x30 + v / 100000 % 10, 0x30 + v / 10000 % 10];
    assert Padded(v / 1000, 3) == Padded(v / 10000, 2) + [0x30 + v / 1000 % 10];
    assert Padded(v / 100, 4) == Padded(v / 1000, 3) + [0x30 + v / 100 % 10];
    assert Padded(v / 10, 5) == Padded(v / 100, 4) + [0x30 + v / 10 % 10];
    assert Padded(v, 6) == Padded(v / 10, 5) + [0x30 + v % 10];
  }

  lemma Widths10()
    ensures Pow10(6) == 1_000_000 && Pow10(7) == 10_000_000 && Pow10(8) == 100_000_000
  {
    assert Pow10(3) == 10 * Pow10(2) && Pow10(2) == 10 * Pow10(1);
    assert Pow10(6) == 10 * (10 * (10 * Pow10(3)));
  }
}
