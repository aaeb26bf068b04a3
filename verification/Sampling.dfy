/**
 * Rejection sampling and the Fisher-Yates shuffle. The random generator is the finite
 * list of 32-bit words it will return; a draw that outruns the list yields `None`.
 */
module Sampling {
  import opened Bytes
  import opened KeyedLists

  // ----- Rejection sampling ---------------------------------------------------------

  /** The largest multiple of `n` that fits in a u32; words at or above it are rejected. */
  function Zone(n: u32): nat
    requires n > 0
  {
    U32_MAX - U32_MAX % n
  }

  /** The residue of the first accepted word, and the words after it. */
  function Draw(words: seq<u32>, n: u32): (r: Option<(nat, seq<u32>)>)
    requires n > 0
    ensures r.Some? ==> r.value.0 < n && |r.value.1| < |words|
    decreases |words|
  {
    if words == [] then None
    else if words[0] < Zone(n) then Some((words[0] % n, words[1..]))
    else Draw(words[1..], n)
  }

  /** The zone is `q` blocks of `n`, with less than a block of words left over. */
  lemma ZoneBlocks(n: u32) returns (q: nat)
    requires n > 0
    ensures Zone(n) == q * n && q >= 1 && U32_MAX < (q + 1) * n
    ensures Zone(n) / n == q && Zone(n) % n == 0
  {
    var u: nat := U32_MAX;
    q := u / n;
    assert u == q * n + u % n;
    assert (q + 1) * n == q * n + n;
    if q < 1 { MulMono(q, 0, n); }
    DivUnique(q, n, 0);
  }

  lemma MultipleInZone(n: u32, m: nat)
    requires n > 0 && m % n == 0 && m <= U32_MAX
    ensures m <= Zone(n)
  {
    var q := ZoneBlocks(n);
    var k := m / n;
    assert m == k * n;
    if k > q { MulMono(q + 1, k, n); } else { MulMono(k, q, n); }
  }

  /** The zone is the largest multiple of `n` a u32 holds, and at least half of all words lie below it. */
  lemma ZoneIsLargestMultiple(n: u32)
    requires n > 0
    ensures Zone(n) % n == 0 && Zone(n) / n * n == Zone(n) && n <= Zone(n) <= U32_MAX
    ensures forall m: nat :: m % n == 0 && m <= U32_MAX ==> m <= Zone(n)
    ensures 2 * Zone(n) >= 0x1_0000_0000
  {
    var q := ZoneBlocks(n);
    MulMono(1, q, n);
    assert (q + 1) * n == q * n + n;
    hide Zone;
    forall m: nat | m % n == 0 && m <= U32_MAX ensures m <= Zone(n) {
      MultipleInZone(n, m);
    }
  }

  /** The words a sampler over `limit` words maps to residue `r`. */
  ghost function WordsFor(limit: nat, n: nat, r: nat): set<nat>
    requires n > 0
  {
    set w: nat | w < limit && w % n == r
  }

  lemma WordsForBlock(q: nat, n: nat, r: nat)
    requires r < n
    ensures WordsFor((q + 1) * n, n, r) == WordsFor(q * n, n, r) + {q * n + r}
    ensures q * n + r !in WordsFor(q * n, n, r)
  {
    ResidueInBlock(q, n, r);
    var a := q * n;
    assert (q + 1) * n == a + n;
    var after, before := WordsFor(a + n, n, r), WordsFor(a, n, r);
    forall w: nat ensures w in after <==> w in before || w == a + r {
      if a <= w < a + n && w % n == r {
        assert w == a + r;
      }
    }
    assert after == before + {a + r};
  }

  lemma {:induction false} WordsForCount(q: nat, n: nat, r: nat)
    requires r < n
    ensures |WordsFor(q * n, n, r)| == q
  {
    if q == 0 {
      assert WordsFor(0, n, r) == {};
    } else {
      WordsForCount(q - 1, n, r);
      WordsForBlock(q - 1, n, r);
    }
  }

  /** Exactly one word of each block of `n` has residue `r`. */
  lemma ResidueInBlock(q: nat, n: nat, r: nat)
    requires r < n
    ensures (q * n + r) % n == r
    ensures forall w: nat :: q * n <= w < q * n + n && w % n == r ==> w == q * n + r
  {
    DivUnique(q, n, r);
    forall w: nat | q * n <= w < q * n + n ensures w % n == w - q * n {
      DivUnique(q, n, w - q * n);
    }
  }

  /** Every residue has the same number of accepted words, and at least half of all words are accepted. */
  lemma RejectionIsUniform(n: u32, r: nat)
    requires n > 0 && r < n
    ensures Zone(n) % n == 0 && |WordsFor(Zone(n), n, r)| == Zone(n) / n
    ensures 2 * Zone(n) >= 0x1_0000_0000
  {
    ZoneIsLargestMultiple(n);
    var q := Zone(n) / n;
    assert Zone(n) == q * n;
    WordsForCount(q, n, r);
  }

  /** A draw skips exactly the words at or above the zone and reduces the first one below it. */
  lemma {:induction false} DrawSkips(words: seq<u32>, n: u32) returns (k: nat)
    requires n > 0
    ensures k <= |words| && forall i :: 0 <= i < k ==> words[i] >= Zone(n)
    ensures k < |words| ==> words[k] < Zone(n) && Draw(words, n) == Some((words[k] % n, words[k + 1..]))
    ensures k == |words| ==> Draw(words, n) == None
    decreases |words|
  {
    hide Zone;
    if words == [] || words[0] < Zone(n) {
      return 0;
    }
    k := DrawSkips(words[1..], n);
    k := k + 1;
  }

  /** The words that are taken for `r` at once are those below the zone with residue `r`: the same number for each. */
  lemma DrawIsUniform(n: u32, r: nat) returns (taken: set<nat>)
    requires n > 0 && r < n
    ensures forall w: u32 :: w in taken <==> Draw([w], n) == Some((r, []))
    ensures forall w :: w in taken ==> w <= U32_MAX
    ensures |taken| == Zone(n) / n
  {
    RejectionIsUniform(n, r);
    ZoneIsLargestMultiple(n);
    taken := WordsFor(Zone(n), n, r);
    forall w: u32 ensures w in taken <==> Draw([w], n) == Some((r, [])) {
      hide Zone;
      var k := DrawSkips([w], n);
    }
  }

  class WordSource {
    var words: seq<u32>

    constructor (words: seq<u32>)
      ensures this.words == words
    {
      this.words := words;
    }

    method NextU32() returns (w: Option<u32>)
      modifies this
      ensures old(words) == [] ==> w == None && words == []
      ensures old(words) != [] ==> w == Some(old(words)[0]) && words == old(words)[1..]
    {
      if words == [] { return None; }
      w := Some(words[0]);
      words := words[1..];
    }

    /** The loop both samplers share: draw until a word falls below the zone. */
    method Below(n: u32) returns (r: Option<nat>)
      requires n > 0
      modifies this
      ensures match Draw(old(words), n)
              case Some((i, rest)) => r == Some(i) && words == rest
              case None => r == None && words == []
    {
      while true
        invariant Draw(words, n) == Draw(old(words), n)
        decreases |words|
      {
        var w := NextU32();
        if w.None? { return None; }
        if w.value < Zone(n) { return Some(w.value % n); }
      }
    }
  }

  /** `uniform_from`: one element of a non-empty pool. */
  function DrawFrom(pool: seq<char>, words: seq<u32>): Option<(char, seq<u32>)>
    requires pool != []
  {
    match Draw(words, ClampU32(|pool|))
    case None => None
    case Some((i, rest)) => Some((pool[i], rest))
  }

  method UniformFrom(pool: seq<char>, rng: WordSource) returns (c: Option<char>)
    requires pool != []
    modifies rng
    ensures match DrawFrom(pool, old(rng.words))
            case Some((x, rest)) => c == Some(x) && rng.words == rest
            case None => c == None && rng.words == []
  {
    var i := rng.Below(ClampU32(|pool|));
    return if i.None? then None else Some(pool[i.value]);
  }

  // ----- Fisher-Yates ------------------------------------------------------------------

  /** Swap positions of a sequence. */
  function Swap<T>(b: seq<T>, i: nat, j: nat): (r: seq<T>)
    requires i < |b| && j < |b|
    ensures |r| == |b|
  {
    b[i := b[j]][j := b[i]]
  }

  lemma SwapPermutes<T>(b: seq<T>, i: nat, j: nat)
    requires i < |b| && j < |b|
    ensures multiset(Swap(b, i, j)) == multiset(b)
  {
  }

  /** The k-th index drawn, for position |js| - k, is at most that position. */
  predicate IsVector(js: seq<nat>) { forall k :: 0 <= k < |js| ==> js[k] <= |js| - k }

  /** The shuffle as a function of the accepted indices: positions |js|, |js| - 1, ..., 1. */
  function ShuffleBy<T>(b: seq<T>, js: seq<nat>): (r: seq<T>)
    requires IsVector(js) && (js == [] || |js| < |b|)
    ensures |r| == |b|
    decreases |js|
  {
    if js == [] then b else ShuffleBy(Swap(b, |js|, js[0]), js[1..])
  }

  /** A shuffle only rearranges, whatever the buffer. */
  lemma {:induction false} ShufflePermutes<T>(b: seq<T>, js: seq<nat>)
    requires IsVector(js) && (js == [] || |js| < |b|)
    ensures multiset(ShuffleBy(b, js)) == multiset(b)
    decreases |js|
  {
    if js != [] {
      SwapPermutes(b, |js|, js[0]);
      ShufflePermutes(Swap(b, |js|, js[0]), js[1..]);
    }
  }

  /** Positions above |js| are not touched. */
  lemma {:induction false} ShuffleKeepsTail<T>(b: seq<T>, js: seq<nat>)
    requires IsVector(js) && (js == [] || |js| < |b|)
    ensures forall k :: |js| < k < |b| ==> ShuffleBy(b, js)[k] == b[k]
    decreases |js|
  {
    if js != [] {
      ShuffleKeepsTail(Swap(b, |js|, js[0]), js[1..]);
    }
  }

  /** The first index can be read off the result. */
  lemma FirstIndexPlaces<T>(b: seq<T>, js: seq<nat>)
    requires IsVector(js) && js != [] && |js| < |b|
    ensures ShuffleBy(b, js)[|js|] == b[js[0]]
  {
    ShuffleKeepsTail(Swap(b, |js|, js[0]), js[1..]);
  }

  /** Different index vectors give different arrangements of distinct elements. */
  lemma {:induction false} ShuffleInjective<T>(b: seq<T>, js: seq<nat>, ks: seq<nat>)
    requires NoDup(b) && IsVector(js) && IsVector(ks) && |js| == |ks| && (js == [] || |js| < |b|)
    requires ShuffleBy(b, js) == ShuffleBy(b, ks)
    ensures js == ks
    decreases |js|
  {
    if js != [] {
      FirstIndexPlaces(b, js);
      FirstIndexPlaces(b, ks);
      assert js[0] == ks[0];
      hide NoDup;
      var c := Swap(b, |js|, js[0]);
      SwapNoDup(b, |js|, js[0]);
      ShuffleInjective(c, js[1..], ks[1..]);
      assert js == [js[0]] + js[1..] && ks == [ks[0]] + ks[1..];
    }
  }

  lemma SwapNoDup<T>(b: seq<T>, i: nat, j: nat)
    requires NoDup(b) && i < |b| && j < |b|
    ensures NoDup(Swap(b, i, j))
  {
  }

  lemma Cancel<T>(a: multiset<T>, b: multiset<T>, c: multiset<T>)
    requires a + c == b + c
    ensures a == b
  {
    forall x ensures a[x] == b[x] {
      assert (a + c)[x] == (b + c)[x];
    }
  }

  /** The element wanted at position `i` is still among the first i + 1. */
  lemma FindBelow<T>(b: seq<T>, p: seq<T>, i: nat) returns (j: nat)
    requires multiset(b) == multiset(p) && i < |b| && |b| == |p|
    requires forall k :: i < k < |b| ==> b[k] == p[k]
    ensures j <= i && b[j] == p[i]
  {
    var b0, b1, p0, p1 := b[..i + 1], b[i + 1..], p[..i + 1], p[i + 1..];
    assert b == b0 + b1 && p == p0 + p1 && b1 == p1;
    assert multiset(b0 + b1) == multiset(b0) + multiset(b1);
    assert multiset(p0 + p1) == multiset(p0) + multiset(p1);
    Cancel(multiset(b0), multiset(p0), multiset(b1));
    assert p0[i] in multiset(p0);
    assert p[i] in multiset(b0);
    assert p[i] in b0;
    j :| 0 <= j < |b0| && b0[j] == p[i];
  }

  /** Every arrangement is reached: the vector that produces `p` from `b`. */
  lemma {:induction false} ShuffleOnto<T>(b: seq<T>, p: seq<T>, i: nat) returns (js: seq<nat>)
    requires multiset(b) == multiset(p) && i < |b| && |b| == |p|
    requires forall k :: i < k < |b| ==> b[k] == p[k]
    ensures |js| == i && IsVector(js) && ShuffleBy(b, js) == p
    decreases i
  {
    var j := FindBelow(b, p, i);
    if i == 0 {
      js := [];
      assert b == p;
    } else {
      SwapPermutes(b, i, j);
      SwapPlaces(b, p, i, j);
      hide Swap;
      var rest := ShuffleOnto(Swap(b, i, j), p, i - 1);
      js := [j] + rest;
      assert js[1..] == rest;
    }
  }

  lemma SwapPlaces<T>(b: seq<T>, p: seq<T>, i: nat, j: nat)
    requires j <= i < |b| && |b| == |p| && b[j] == p[i]
    requires forall k :: i < k < |b| ==> b[k] == p[k]
    ensures forall k :: i - 1 < k < |b| ==> Swap(b, i, j)[k] == p[k]
  {
  }

  /** The shuffle is a bijection between index vectors and arrangements of a distinct buffer. */
  lemma ShuffleIsBijective<T>(b: seq<T>, p: seq<T>)
    requires NoDup(b) && b != []
    ensures multiset(p) == multiset(b) <==>
            exists js: seq<nat> :: |js| == |b| - 1 && IsVector(js) && ShuffleBy(b, js) == p
    ensures forall js: seq<nat>, ks: seq<nat> ::
              (|js| == |ks| == |b| - 1 && IsVector(js) && IsVector(ks) && ShuffleBy(b, js) == ShuffleBy(b, ks))
              ==> js == ks
  {
    if multiset(p) == multiset(b) {
      assert |p| == |multiset(p)| && |b| == |multiset(b)|;
      var js := ShuffleOnto(b, p, |b| - 1);
    }
    if js: seq<nat> :| |js| == |b| - 1 && IsVector(js) && ShuffleBy(b, js) == p {
      ShufflePermutes(b, js);
    }
    forall js: seq<nat>, ks: seq<nat> |
        |js| == |ks| == |b| - 1 && IsVector(js) && IsVector(ks) && ShuffleBy(b, js) == ShuffleBy(b, ks)
      ensures js == ks
    {
      ShuffleInjective(b, js, ks);
    }
  }

  /** The indices a shuffle draws for positions `i`, ..., 1. */
  function DrawIndices(words: seq<u32>, i: nat): (r: Option<(seq<nat>, seq<u32>)>)
    ensures r.Some? ==> |r.value.0| == i && IsVector(r.value.0)
    decreases i
  {
    if i == 0 then Some(([], words))
    else
      match Draw(words, ClampU32(i + 1))
      case None => None
      case Some((j, rest)) =>
        match DrawIndices(rest, i - 1)
        case None => None
        case Some((js, rest')) => Some(([j] + js, rest'))
  }

  /** The whole shuffle: `None` when the generator ran out. */
  function ShuffleSpec(b: seq<char>, words: seq<u32>): Option<(seq<char>, seq<u32>)> {
    match DrawIndices(words, if b == [] then 0 else |b| - 1)
    case None => None
    case Some((js, rest)) => Some((ShuffleBy(b, js), rest))
  }

  method Shuffle(buf: array<char>, rng: WordSource) returns (done: bool)
    modifies buf, rng
    ensures match ShuffleSpec(old(buf[..]), old(rng.words))
            case Some((p, rest)) => done && buf[..] == p && rng.words == rest
            case None => !done
  {
    hide IsVector, ShuffleBy, Draw;
    if buf.Length < 2 {
      ShuffleNothing(buf[..], rng.words);
      return true;
    }
    ghost var before := buf[..];
    var i := buf.Length - 1;
    while i > 0
      invariant 0 <= i < buf.Length
      invariant ShuffleSpec(before, old(rng.words)) == Rest(buf[..], DrawIndices(rng.words, i))
    {
      ghost var here, words := buf[..], rng.words;
      var j := rng.Below(ClampU32(i + 1));
      if j.None? { return false; }
      buf[i], buf[j.value] := buf[j.value], buf[i];
      assert buf[..] == Swap(here, i, j.value);
      RestStep(here, words, i);
      i := i - 1;
    }
    ShuffleNothing(buf[..], rng.words);
    return true;
  }

  lemma ShuffleNothing(b: seq<char>, words: seq<u32>)
    ensures Rest(b, DrawIndices(words, 0)) == Some((b, words))
  {
  }

  ghost function Rest(b: seq<char>, d: Option<(seq<nat>, seq<u32>)>): Option<(seq<char>, seq<u32>)>
    requires d.Some? ==> IsVector(d.value.0) && (d.value.0 == [] || |d.value.0| < |b|)
  {
    if d.None? then None else Some((ShuffleBy(b, d.value.0), d.value.1))
  }

  lemma RestStep(b: seq<char>, words: seq<u32>, i: nat)
    requires 0 < i < |b| && Draw(words, ClampU32(i + 1)).Some?
    ensures var (j, rest) := Draw(words, ClampU32(i + 1)).value;
            j < |b| && Rest(b, DrawIndices(words, i)) == Rest(Swap(b, i, j), DrawIndices(rest, i - 1))
  {
    var (j, rest) := Draw(words, ClampU32(i + 1)).value;
    var d := DrawIndices(rest, i - 1);
    if d.Some? {
      assert ([j] + d.value.0)[1..] == d.value.0;
    }
  }
}
