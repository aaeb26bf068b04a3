/** UTF-8 (RFC 3629): the byte strings taken as text are exactly the encodings of scalar values. */
module Utf8 {
  import opened Bytes

  /** A Unicode scalar value: a code point that is not a surrogate. */
  type Scalar = n: int | 0 <= n < 0xD800 || 0xE000 <= n < 0x11_0000

  /** A continuation byte with the low six bits of `n`. */
  function Tail(n: nat): byte { 0x80 + n % 0x40 }

  function Lead2(n: Scalar): byte
    requires n < 0x800
  {
    0xC0 + n / 0x40
  }

  function Lead3(n: Scalar): byte
    requires n < 0x1_0000
  {
    0xE0 + n / 0x1000
  }

  function Lead4(n: Scalar): byte { 0xF0 + n / 0x4_0000 }

  /** One to four bytes, the fewest that do. */
  function EncodeScalar(n: Scalar): bytes {
    if n < 0x80 then [n]
    else if n < 0x800 then [Lead2(n), Tail(n)]
    else if n < 0x1_0000 then [Lead3(n), Tail(n / 0x40), Tail(n)]
    else [Lead4(n), Tail(n / 0x1000), Tail(n / 0x40), Tail(n)]
  }

  function Encode(s: seq<Scalar>): bytes {
    if s == [] then [] else EncodeScalar(s[0]) + Encode(s[1..])
  }

  lemma StepOfEncoding(n: Scalar, rest: bytes)
    ensures var b := EncodeScalar(n) + rest;
            Utf8Step(b) == |EncodeScalar(n)| && b[Utf8Step(b)..] == rest
  {
    var e := EncodeScalar(n);
    var b := e + rest;
    assert b[|e|..] == rest;
    if n < 0x80 {
      assert b[0] == n;
    } else if n < 0x800 {
      assert b[0] == Lead2(n) && b[1] == Tail(n);
    } else if n < 0x1_0000 {
      assert b[0] == Lead3(n) && b[1] == Tail(n / 0x40) && b[2] == Tail(n);
    } else {
      assert b[0] == Lead4(n) && b[1] == Tail(n / 0x1000) && b[2] == Tail(n / 0x40) && b[3] == Tail(n);
    }
  }

  lemma {:induction false} EncodingIsValid(s: seq<Scalar>)
    ensures ValidUtf8(Encode(s))
  {
    if s != [] {
      EncodingIsValid(s[1..]);
      StepOfEncoding(s[0], Encode(s[1..]));
    }
  }

  /** What one well-formed step encodes. */
  lemma ScalarOfStep(b: bytes) returns (n: Scalar)
    requires b != [] && 0 < Utf8Step(b) <= |b|
    ensures EncodeScalar(n) == b[..Utf8Step(b)]
  {
    if Utf8Step(b) == 1 {
      n := b[0];
    } else if Utf8Step(b) == 2 {
      n := Two(b[0], b[1]);
    } else if Utf8Step(b) == 3 {
      n := Three(b[0], b[1], b[2]);
    } else {
      n := Four(b[0], b[1], b[2], b[3]);
    }
  }

  lemma Two(a: int, b: int) returns (n: Scalar)
    requires 0xC2 <= a <= 0xDF && 0x80 <= b <= 0xBF
    ensures EncodeScalar(n) == [a, b]
  {
    n := (a - 0xC0) * 0x40 + (b - 0x80);
  }

  lemma Three(a: int, b: int, c: int) returns (n: Scalar)
    requires 0xE0 <= a <= 0xEF && 0x80 <= b <= 0xBF && 0x80 <= c <= 0xBF
    requires (a == 0xE0 ==> b >= 0xA0) && (a == 0xED ==> b <= 0x9F)
    ensures EncodeScalar(n) == [a, b, c]
  {
    var m := (a - 0xE0) * 0x1000 + (b - 0x80) * 0x40 + (c - 0x80);
    assert m / 0x40 == (a - 0xE0) * 0x40 + (b - 0x80);
    n := m;
  }

  lemma Four(a: int, b: int, c: int, d: int) returns (n: Scalar)
    requires 0xF0 <= a <= 0xF4 && 0x80 <= b <= 0xBF && 0x80 <= c <= 0xBF && 0x80 <= d <= 0xBF
    requires (a == 0xF0 ==> b >= 0x90) && (a == 0xF4 ==> b <= 0x8F)
    ensures EncodeScalar(n) == [a, b, c, d]
  {
    var m := (a - 0xF0) * 0x4_0000 + (b - 0x80) * 0x1000 + (c - 0x80) * 0x40 + (d - 0x80);
    assert m / 0x40 == (a - 0xF0) * 0x1000 + (b - 0x80) * 0x40 + (c - 0x80);
    assert m / 0x1000 == (a - 0xF0) * 0x40 + (b - 0x80);
    n := m;
  }

  lemma {:induction false} ScalarsOf(b: bytes) returns (s: seq<Scalar>)
    requires ValidUtf8(b)
    ensures Encode(s) == b
    decreases |b|
  {
    if b == [] {
      return [];
    }
    var n := ScalarOfStep(b);
    var rest := ScalarsOf(b[Utf8Step(b)..]);
    s := [n] + rest;
    assert s[1..] == rest && b == b[..Utf8Step(b)] + b[Utf8Step(b)..];
  }

  /** A byte string is text exactly when it encodes some sequence of scalar values. */
  lemma TextIff(b: bytes)
    ensures ValidUtf8(b) <==> exists s: seq<Scalar> :: Encode(s) == b
  {
    if ValidUtf8(b) {
      var s := ScalarsOf(b);
    }
    if s: seq<Scalar> :| Encode(s) == b {
      EncodingIsValid(s);
    }
  }
}
