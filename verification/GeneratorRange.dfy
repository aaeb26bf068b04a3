/** Which passwords the generator can produce. */
module GeneratorRange {
  import opened Bytes
  import opened Types
  import opened KeyedLists
  import opened Sampling
  import opened Policy

  // ----- Pools fit the sampler's word size ------------------------------------------------

  lemma {:induction false} DistinctBelow(s: seq<char>, n: nat)
    requires NoDup(s) && forall i :: 0 <= i < |s| ==> s[i] as int < n
    ensures |s| <= n
    decreases n
  {
    if s != [] {
      assert s[0] as int < n;
      if j :| 0 <= j < |s| && s[j] as int == n - 1 {
        var rest := s[..j] + s[j + 1..];
        assert forall i :: 0 <= i < |rest| ==> rest[i] == s[if i < j then i else i + 1];
        DistinctBelow(rest, n - 1);
      } else {
        DistinctBelow(s, n - 1);
      }
    }
  }

  lemma {:induction false} FilterOutShrinks(s: seq<char>, disallow: seq<char>)
    ensures |FilterOut(s, disallow)| <= |s|
  {
    if s != [] {
      FilterOutShrinks(s[1..], disallow);
    }
  }

  lemma EffectiveIsSmall(c: Charset, k: Class)
    ensures |Effective(c, k)| <= U32_MAX
  {
    var all := match k
      case Lower => LOWERCASE
      case Upper => UPPERCASE
      case Digit => DIGITS
      case Symbol => SymbolChars(c.symbols);
    FilterOutShrinks(all, c.disallow);
    if k == Symbol && c.symbols.Custom? {
      DistinctBelow(c.symbols.set_, 0x11_0000);
    }
  }

  /** Each position is drawn from one class (a symbol minimum included) or from the whole set. */
  lemma PoolKind(req: Request, i: nat) returns (k: Option<Class>)
    requires Precheck(req).None? && i < req.length
    ensures Pools(req)[i] == if k.Some? then Effective(req.charset, k.value) else EffectiveSet(req.charset)
  {
    var r := req.classes;
    if i >= Total(r) {
      RestPool(req, i);
      return None;
    }
    k := Some(if i < Start(r, Upper) then Lower else if i < Start(r, Digit) then Upper
              else if i < Start(r, Symbol) then Digit else Symbol);
    PoolAt(req, k.value, i);
  }

  lemma PoolsAreSmall(req: Request)
    requires Precheck(req).None?
    ensures forall i :: 0 <= i < |Pools(req)| ==> |Pools(req)[i]| <= U32_MAX
  {
    hide Effective, EffectiveSet, Precheck, Pools;
    forall i | 0 <= i < |Pools(req)| ensures |Pools(req)[i]| <= U32_MAX {
      var k := PoolKind(req, i);
      if k.Some? {
        EffectiveIsSmall(req.charset, k.value);
      } else {
        DistinctBelow(EffectiveSet(req.charset), 0x11_0000);
      }
    }
  }

  // ----- A stream for every arrangement ---------------------------------------------------

  predicate SmallPools(ps: seq<seq<char>>) { forall i :: 0 <= i < |ps| ==> |ps[i]| <= U32_MAX }

  /** Each character is on offer at its own position. */
  predicate FitsPools(ps: seq<seq<char>>, buf: seq<char>) {
    |buf| == |ps| && forall i :: 0 <= i < |ps| ==> buf[i] in ps[i]
  }

  function IndexIn(pool: seq<char>, x: char): (i: nat)
    requires x in pool
    ensures i < |pool| && pool[i] == x
  {
    if pool[0] == x then 0
    else
      assert pool == [pool[0]] + pool[1..];
      1 + IndexIn(pool[1..], x)
  }

  /** For each position, the one word that draws its character. */
  function Choosing(ps: seq<seq<char>>, buf: seq<char>): (words: seq<u32>)
    requires SmallPools(ps) && FitsPools(ps, buf)
    decreases |ps|
  {
    if ps == [] then [] else [IndexIn(ps[0], buf[0])] + Choosing(ps[1..], buf[1..])
  }

  lemma DrawsIndex(n: u32, k: u32, rest: seq<u32>)
    requires k < n
    ensures Draw([k] + rest, n) == Some((k, rest))
  {
    ZoneIsLargestMultiple(n);
    DivUnique(0, n, k);
  }

  lemma {:induction false} DrawsChosen(ps: seq<seq<char>>, buf: seq<char>, tail: seq<u32>)
    requires NonEmpty(ps) && SmallPools(ps) && FitsPools(ps, buf)
    ensures DrawAll(ps, Choosing(ps, buf) + tail) == Some((buf, tail))
    decreases |ps|
  {
    if ps == [] {
      assert [] + tail == tail;
    } else {
      var w, rest := IndexIn(ps[0], buf[0]), Choosing(ps[1..], buf[1..]);
      ConcatAssoc([w], rest, tail);
      DrawsIndex(|ps[0]|, w, rest + tail);
      DrawsChosen(ps[1..], buf[1..], tail);
      assert buf == [buf[0]] + buf[1..];
      hide Draw, NonEmpty, SmallPools, FitsPools, IndexIn;
    }
  }

  /** The words that make the shuffle draw exactly these indices are the indices. */
  lemma {:induction false} DrawsVector(js: seq<u32>)
    requires IsVector(js) && |js| < U32_MAX
    ensures DrawIndices(js, |js|) == Some((js, []))
    decreases |js|
  {
    hide Draw;
    if js != [] {
      DrawsIndex(|js| + 1, js[0], js[1..]);
      DrawsVector(js[1..]);
      assert js == [js[0]] + js[1..];
    }
  }

  lemma IndicesAreWords(js: seq<nat>) returns (words: seq<u32>)
    requires IsVector(js) && |js| < U32_MAX
    ensures words == js && DrawIndices(words, |js|) == Some((js, []))
  {
    words := js;
    DrawsVector(words);
  }

  lemma GenerateFrom(req: Request, words: seq<u32>, buf: seq<char>, rest: seq<u32>, js: seq<nat>, left: seq<u32>)
    requires Precheck(req).None? && buf != [] && NonEmpty(Pools(req))
    requires DrawAll(Pools(req), words) == Some((buf, rest)) && DrawIndices(rest, |buf| - 1) == Some((js, left))
    ensures IsVector(js) && |js| == |buf| - 1
    ensures GenerateSpec(req, words) == Password(ShuffleBy(buf, js))
  {
    hide Precheck, Pools, DrawAll, ShuffleBy, IsVector, NonEmpty;
  }

  lemma LengthIsSmall(req: Request)
    requires Precheck(req).None?
    ensures MIN_LENGTH <= req.length <= MAX_LENGTH
  {
  }

  /** Every rearrangement of a buffer that fits the pools is generated from some stream. */
  lemma StreamFor(req: Request, buf: seq<char>, pw: seq<char>) returns (words: seq<u32>)
    requires Precheck(req).None? && FitsPools(Pools(req), buf) && multiset(buf) == multiset(pw)
    ensures GenerateSpec(req, words) == Password(pw)
  {
    LengthIsSmall(req);
    PoolsNonEmpty(req);
    PoolsAreSmall(req);
    hide Precheck, Pools, DrawAll, DrawIndices, ShuffleBy, GenerateSpec, FitsPools, NonEmpty, SmallPools;
    var ps := Pools(req);
    assert |buf| == |ps| by { FitsLength(ps, buf); }
    assert |pw| == |multiset(pw)| && |buf| == |multiset(buf)|;
    var js := ShuffleOnto(buf, pw, |buf| - 1);
    var tail := IndicesAreWords(js);
    DrawsChosen(ps, buf, tail);
    words := Choosing(ps, buf) + tail;
    GenerateFrom(req, words, buf, tail, js, []);
  }

  lemma FitsLength(ps: seq<seq<char>>, buf: seq<char>)
    requires FitsPools(ps, buf)
    ensures |buf| == |ps|
  {
  }

  // ----- The range -------------------------------------------------------------------------

  /** Some rearrangement of `pw` has each character in the pool of its position. */
  ghost predicate Arranged(req: Request, pw: seq<char>)
    requires Precheck(req).None?
  {
    exists buf: seq<char> :: FitsPools(Pools(req), buf) && multiset(buf) == multiset(pw)
  }

  /** A password can be generated exactly when the checks pass and some rearrangement of it fits the pools. */
  lemma GeneratedIff(req: Request, pw: seq<char>)
    ensures (exists words: seq<u32> :: GenerateSpec(req, words) == Password(pw)) <==>
            Precheck(req).None? && Arranged(req, pw)
  {
    hide Precheck, Pools, GenerateSpec, FitsPools;
    if words: seq<u32> :| GenerateSpec(req, words) == Password(pw) {
      var buf := BufferOf(req, words);
    }
    if Precheck(req).None? && Arranged(req, pw) {
      var buf: seq<char> :| FitsPools(Pools(req), buf) && multiset(buf) == multiset(pw);
      var words := StreamFor(req, buf, pw);
    }
  }

  /** The buffer before the shuffle. */
  lemma BufferOf(req: Request, words: seq<u32>) returns (buf: seq<char>)
    requires GenerateSpec(req, words).Password?
    ensures Precheck(req).None? && FitsPools(Pools(req), buf)
    ensures multiset(buf) == multiset(GenerateSpec(req, words).chars)
  {
    hide Precheck, Pools, DrawAll, ShuffleBy, IsVector;
    PoolsNonEmpty(req);
    var (drawn, rest) := DrawAll(Pools(req), words).value;
    buf := drawn;
    ShufflePermutes(buf, DrawIndices(rest, if buf == [] then 0 else |buf| - 1).value.0);
    DrawnFromPools(Pools(req), words);
  }

  // ----- The range in counts --------------------------------------------------------------------

  /** In class `k`, and not offered as a symbol as well. */
  function OnlyIn(c: Charset, k: Class): char -> bool { x => x in Effective(c, k) && x !in Effective(c, Symbol) }

  /** In class `k`, and offered as a symbol as well. */
  function AlsoSymbol(c: Charset, k: Class): char -> bool { x => x in Effective(c, k) && x in Effective(c, Symbol) }

  /** How many of the characters that are symbols too the minimum of class `k` uses up. */
  function Short(req: Request, pw: seq<char>, k: Class): nat {
    var own := CountIf(pw, OnlyIn(req.charset, k));
    if own >= Minimum(req.classes, k) then 0 else Minimum(req.classes, k) - own
  }

  /** Enough of each class, and symbols to spare for the classes whose own characters do not suffice. */
  predicate Enough(req: Request, pw: seq<char>) {
    && CountIf(pw, InPool(Effective(req.charset, Lower))) >= req.classes.minLowercase
    && CountIf(pw, InPool(Effective(req.charset, Upper))) >= req.classes.minUppercase
    && CountIf(pw, InPool(Effective(req.charset, Digit))) >= req.classes.minDigits
    && CountIf(pw, InPool(Effective(req.charset, Symbol)))
       >= req.classes.minSymbols + Short(req, pw, Lower) + Short(req, pw, Upper) + Short(req, pw, Digit)
  }

  predicate OnOffer(req: Request, pw: seq<char>) {
    |pw| == req.length && forall i :: 0 <= i < |pw| ==> pw[i] in EffectiveSet(req.charset)
  }

  lemma LowercaseIs(x: char)
    requires x in LOWERCASE
    ensures 'a' <= x <= 'z'
  {
  }

  lemma UppercaseIs(x: char)
    requires x in UPPERCASE
    ensures 'A' <= x <= 'Z'
  {
  }

  lemma DigitsAre(x: char)
    requires x in DIGITS
    ensures '0' <= x <= '9'
  {
  }

  /** Only symbols can be shared with another class. */
  lemma LettersApart(c: Charset, j: Class, k: Class, x: char)
    requires j != k && j != Symbol && k != Symbol && x in Effective(c, j)
    ensures x !in Effective(c, k)
  {
    forall y: char
      ensures y in Effective(c, Lower) ==> 'a' <= y <= 'z'
      ensures y in Effective(c, Upper) ==> 'A' <= y <= 'Z'
      ensures y in Effective(c, Digit) ==> '0' <= y <= '9'
    {
      if y in LOWERCASE { LowercaseIs(y); }
      if y in UPPERCASE { UppercaseIs(y); }
      if y in DIGITS { DigitsAre(y); }
    }
  }

  lemma {:induction false} CountWeaker(s: seq<char>, f: char -> bool, g: char -> bool)
    requires forall i :: 0 <= i < |s| && f(s[i]) ==> g(s[i])
    ensures CountIf(s, f) <= CountIf(s, g)
  {
    if s != [] {
      CountWeaker(s[1..], f, g);
    }
  }

  lemma {:induction false} CountSplit(s: seq<char>, c: Charset, k: Class)
    ensures CountIf(s, OnlyIn(c, k)) + CountIf(s, AlsoSymbol(c, k)) == CountIf(s, InPool(Effective(c, k)))
  {
    hide Effective;
    if s != [] {
      CountSplit(s[1..], c, k);
    }
  }

  lemma CountParts(s: seq<char>, a: seq<char>, b: seq<char>, f: char -> bool)
    requires multiset(a + b) == multiset(s)
    ensures CountIf(s, f) == CountIf(a, f) + CountIf(b, f)
  {
    hide CountIf;
    CountPermutation(a + b, s, f);
    CountConcat(a, b, f);
  }

  /** The first `n` characters that satisfy `f`, and the others. */
  function PickOut(s: seq<char>, f: char -> bool, n: nat): (r: (seq<char>, seq<char>))
    requires CountIf(s, f) >= n
    ensures |r.0| == n && |r.0| + |r.1| == |s|
    ensures forall i :: 0 <= i < n ==> f(r.0[i])
  {
    if n == 0 then ([], s)
    else if f(s[0]) then
      var (a, b) := PickOut(s[1..], f, n - 1);
      ([s[0]] + a, b)
    else
      var (a, b) := PickOut(s[1..], f, n);
      (a, [s[0]] + b)
  }

  lemma {:induction false} PickOutSplits(s: seq<char>, f: char -> bool, n: nat)
    requires CountIf(s, f) >= n
    ensures var (a, b) := PickOut(s, f, n); multiset(a + b) == multiset(s)
  {
    if n == 0 {
      assert [] + s == s;
    } else {
      var c, rest := s[0], s[1..];
      assert s == [c] + rest;
      var m := if f(c) then n - 1 else n;
      PickOutSplits(rest, f, m);
      var (a, b) := PickOut(rest, f, m);
      assert multiset([c] + a + b) == multiset{c} + multiset(a + b);
      assert multiset(a + ([c] + b)) == multiset{c} + multiset(a + b);
      assert multiset([c] + rest) == multiset{c} + multiset(rest);
    }
  }

  /** Picking from `f` takes nothing that satisfies `g` if no character satisfies both. */
  lemma PickLeaves(s: seq<char>, f: char -> bool, n: nat, g: char -> bool)
    requires CountIf(s, f) >= n && forall x :: f(x) ==> !g(x)
    ensures CountIf(PickOut(s, f, n).1, g) == CountIf(s, g)
  {
    hide CountIf, PickOut;
    var (a, b) := PickOut(s, f, n);
    PickOutSplits(s, f, n);
    CountParts(s, a, b, g);
    CountNone(a, g);
  }

  /** And only such if each of them satisfies `g`. */
  lemma PickTakes(s: seq<char>, f: char -> bool, n: nat, g: char -> bool)
    requires CountIf(s, f) >= n && forall x :: f(x) ==> g(x)
    ensures CountIf(PickOut(s, f, n).1, g) == CountIf(s, g) - n
  {
    hide CountIf, PickOut;
    var (a, b) := PickOut(s, f, n);
    PickOutSplits(s, f, n);
    CountParts(s, a, b, g);
    CountAll(a, g);
  }

  /** What is left once the minimum of class `k` was taken out, from its own characters first. */
  ghost predicate Served(req: Request, s: seq<char>, k: Class, a: seq<char>, b: seq<char>) {
    && |a| == Minimum(req.classes, k) && |a| + |b| == |s| && multiset(a + b) == multiset(s)
    && (forall i :: 0 <= i < |a| ==> a[i] in Effective(req.charset, k))
    && CountIf(b, InPool(Effective(req.charset, Symbol)))
       == CountIf(s, InPool(Effective(req.charset, Symbol))) - Short(req, s, k)
    && (forall j: Class :: j != k && j != Symbol ==>
          CountIf(b, InPool(Effective(req.charset, j))) == CountIf(s, InPool(Effective(req.charset, j))))
    && (forall j: Class :: j != k && j != Symbol ==> Short(req, b, j) == Short(req, s, j))
  }

  lemma ServeClass(req: Request, s: seq<char>, k: Class) returns (a: seq<char>, b: seq<char>)
    requires k != Symbol && CountIf(s, InPool(Effective(req.charset, k))) >= Minimum(req.classes, k)
    ensures Served(req, s, k, a, b)
  {
    hide Effective, CountIf;
    var c := req.charset;
    CountSplit(s, c, k);
    a, b := OwnFirst(s, OnlyIn(c, k), AlsoSymbol(c, k), InPool(Effective(c, Symbol)), Minimum(req.classes, k));
    forall j: Class | j != k && j != Symbol
      ensures CountIf(b, InPool(Effective(c, j))) == CountIf(s, InPool(Effective(c, j)))
      ensures Short(req, b, j) == Short(req, s, j)
    {
      OthersKept(c, s, a, b, k, j);
    }
  }

  /** Takes `m` out of `s`, those that satisfy `own` first and then those that satisfy `both`. */
  lemma OwnFirst(s: seq<char>, own: char -> bool, both: char -> bool, symbol: char -> bool, m: nat)
    returns (a: seq<char>, b: seq<char>)
    requires CountIf(s, own) + CountIf(s, both) >= m
    requires forall x :: own(x) ==> !both(x) && !symbol(x)
    requires forall x :: both(x) ==> symbol(x)
    ensures |a| == m && |a| + |b| == |s| && multiset(a + b) == multiset(s)
    ensures forall i :: 0 <= i < |a| ==> own(a[i]) || both(a[i])
    ensures CountIf(b, symbol) == CountIf(s, symbol) - (if CountIf(s, own) >= m then 0 else m - CountIf(s, own))
  {
    hide CountIf, PickOut;
    var n: nat := Min(m, CountIf(s, own));
    var first := PickOut(s, own, n);
    PickOutSplits(s, own, n);
    PickLeaves(s, own, n, both);
    PickLeaves(s, own, n, symbol);
    var second := PickOut(first.1, both, m - n);
    PickOutSplits(first.1, both, m - n);
    PickTakes(first.1, both, m - n, symbol);
    a, b := first.0 + second.0, second.1;
    TwoPicks(s, first.0, first.1, second.0, second.1);
  }

  lemma TwoPicks(s: seq<char>, a: seq<char>, rest: seq<char>, a': seq<char>, b: seq<char>)
    requires multiset(a + rest) == multiset(s) && multiset(a' + b) == multiset(rest)
    ensures multiset(a + a' + b) == multiset(s)
  {
    assert multiset(a + rest) == multiset(a) + multiset(rest);
    assert a + a' + b == a + (a' + b);
  }

  lemma OthersKept(c: Charset, s: seq<char>, a: seq<char>, b: seq<char>, k: Class, j: Class)
    requires j != k && j != Symbol && k != Symbol && multiset(a + b) == multiset(s)
    requires forall i :: 0 <= i < |a| ==> a[i] in Effective(c, k)
    ensures CountIf(b, InPool(Effective(c, j))) == CountIf(s, InPool(Effective(c, j)))
    ensures CountIf(b, OnlyIn(c, j)) == CountIf(s, OnlyIn(c, j))
  {
    hide Effective, CountIf;
    forall i | 0 <= i < |a| ensures a[i] !in Effective(c, j) {
      LettersApart(c, k, j, a[i]);
    }
    CountParts(s, a, b, InPool(Effective(c, j)));
    CountParts(s, a, b, OnlyIn(c, j));
    CountNone(a, InPool(Effective(c, j)));
    CountNone(a, OnlyIn(c, j));
  }

  /** Minimums first, then the rest: a rearrangement of `pw` that fits the pools. */
  lemma Arrange(req: Request, pw: seq<char>) returns (buf: seq<char>)
    requires Precheck(req).None? && OnOffer(req, pw) && Enough(req, pw)
    ensures FitsPools(Pools(req), buf) && multiset(buf) == multiset(pw)
  {
    hide Effective, EffectiveSet, CountIf, Precheck, Pools, Short, PickOut;
    var l, s1 := ServeClass(req, pw, Lower);
    var u, s2 := ServeClass(req, s1, Upper);
    var d, s3 := ServeClass(req, s2, Digit);
    var symbol := InPool(Effective(req.charset, Symbol));
    var picked := PickOut(s3, symbol, req.classes.minSymbols);
    PickOutSplits(s3, symbol, req.classes.minSymbols);
    var y, rest := picked.0, picked.1;
    buf := l + (u + (d + (y + rest)));
    SameMembers(pw, l, s1);
    SameMembers(s1, u, s2);
    SameMembers(s2, d, s3);
    SameMembers(s3, y, rest);
    forall i | 0 <= i < |buf| ensures buf[i] in Pools(req)[i] {
      InItsPool(req, l, u, d, y, rest, i);
    }
  }

  lemma SameMembers(s: seq<char>, a: seq<char>, b: seq<char>)
    requires multiset(a + b) == multiset(s)
    ensures multiset(a) + multiset(b) == multiset(s)
    ensures forall c :: c in b ==> c in s
  {
    forall c | c in b ensures c in s {
      assert c in multiset(a + b);
    }
  }

  lemma InItsPool(req: Request, l: seq<char>, u: seq<char>, d: seq<char>, y: seq<char>, rest: seq<char>, i: nat)
    requires Precheck(req).None? && |l + (u + (d + (y + rest)))| == req.length
    requires |l| == req.classes.minLowercase && forall c :: c in l ==> c in Effective(req.charset, Lower)
    requires |u| == req.classes.minUppercase && forall c :: c in u ==> c in Effective(req.charset, Upper)
    requires |d| == req.classes.minDigits && forall c :: c in d ==> c in Effective(req.charset, Digit)
    requires |y| == req.classes.minSymbols && forall c :: c in y ==> c in Effective(req.charset, Symbol)
    requires forall c :: c in rest ==> c in EffectiveSet(req.charset)
    requires i < req.length
    ensures (l + (u + (d + (y + rest))))[i] in Pools(req)[i]
  {
    hide Effective, EffectiveSet, Precheck, Pools;
    var r := req.classes;
    var buf := l + (u + (d + (y + rest)));
    if i < Start(r, Upper) {
      PoolAt(req, Lower, i);
      assert buf[i] == l[i];
    } else if i < Start(r, Digit) {
      PoolAt(req, Upper, i);
      assert buf[i] == u[i - |l|];
    } else if i < Start(r, Symbol) {
      PoolAt(req, Digit, i);
      assert buf[i] == d[i - |l| - |u|];
    } else if i < Total(r) {
      PoolAt(req, Symbol, i);
      assert buf[i] == y[i - |l| - |u| - |d|];
    } else {
      RestPool(req, i);
      assert buf[i] == rest[i - Total(r)];
    }
  }

  lemma PoolsOnOffer(req: Request, buf: seq<char>, pw: seq<char>)
    requires Precheck(req).None? && FitsPools(Pools(req), buf) && multiset(buf) == multiset(pw)
    ensures OnOffer(req, pw)
  {
    hide EffectiveSet, Precheck, Pools;
    assert |pw| == |multiset(pw)| && |buf| == |multiset(buf)|;
    forall i | 0 <= i < |pw| ensures pw[i] in EffectiveSet(req.charset) {
      assert pw[i] in multiset(pw);
      var j := PositionOf(buf, pw[i]);
      PoolsEffective(req, j);
    }
  }

  /** The stretch reserved for class `k` takes symbols only where the class runs short. */
  lemma StretchCounts(req: Request, buf: seq<char>, k: Class, part: seq<char>, rest: seq<char>)
    requires k != Symbol && |part| == Minimum(req.classes, k) && multiset(part + rest) == multiset(buf)
    requires forall i :: 0 <= i < |part| ==> part[i] in Effective(req.charset, k)
    ensures CountIf(part, InPool(Effective(req.charset, Symbol))) >= Short(req, buf, k)
    ensures CountIf(buf, InPool(Effective(req.charset, k))) >= Minimum(req.classes, k)
  {
    hide Effective, CountIf;
    var c := req.charset;
    CountSplit(part, c, k);
    CountAll(part, InPool(Effective(c, k)));
    CountParts(buf, part, rest, OnlyIn(c, k));
    CountParts(buf, part, rest, InPool(Effective(c, k)));
    CountWeaker(part, AlsoSymbol(c, k), InPool(Effective(c, Symbol)));
  }

  /** The stretch of positions reserved for class `k`. */
  function Stretch(req: Request, buf: seq<char>, k: Class): seq<char>
    requires |buf| == req.length && Total(req.classes) <= req.length
  {
    buf[Start(req.classes, k)..Start(req.classes, k) + Minimum(req.classes, k)]
  }

  lemma StretchFits(req: Request, buf: seq<char>, k: Class)
    requires Precheck(req).None? && FitsPools(Pools(req), buf) && Total(req.classes) <= req.length
    ensures var part := Stretch(req, buf, k);
            |part| == Minimum(req.classes, k) && forall i :: 0 <= i < |part| ==> part[i] in Effective(req.charset, k)
  {
    hide Effective, Precheck, Pools;
    var part := Stretch(req, buf, k);
    forall i | 0 <= i < |part| ensures part[i] in Effective(req.charset, k) {
      PoolAt(req, k, Start(req.classes, k) + i);
    }
  }

  lemma StretchServes(req: Request, buf: seq<char>, k: Class)
    requires k != Symbol && Precheck(req).None? && FitsPools(Pools(req), buf) && Total(req.classes) <= req.length
    ensures CountIf(Stretch(req, buf, k), InPool(Effective(req.charset, Symbol))) >= Short(req, buf, k)
    ensures CountIf(buf, InPool(Effective(req.charset, k))) >= Minimum(req.classes, k)
  {
    hide Effective, Precheck, Pools, CountIf, Short;
    StretchFits(req, buf, k);
    FitsLength(Pools(req), buf);
    var i, j := StretchBounds(req, k);
    hide FitsPools, Start, Total, Minimum;
    StretchCounts(req, buf, k, buf[i..j], buf[..i] + buf[j..]) by { MoveFirst(buf, i, j); }
  }

  lemma StretchBounds(req: Request, k: Class) returns (i: nat, j: nat)
    requires Total(req.classes) <= req.length
    ensures i == Start(req.classes, k) && j == i + Minimum(req.classes, k) && j <= req.length
  {
    i := Start(req.classes, k);
    j := i + Minimum(req.classes, k);
  }

  lemma MoveFirst(s: seq<char>, i: nat, j: nat)
    requires i <= j <= |s|
    ensures multiset(s[i..j] + (s[..i] + s[j..])) == multiset(s)
  {
    var a, b, c := s[..i], s[i..j], s[j..];
    assert s == a + (b + c);
    assert multiset(a + (b + c)) == multiset(a) + (multiset(b) + multiset(c));
    assert multiset(b + (a + c)) == multiset(b) + (multiset(a) + multiset(c));
  }

  lemma TotalFits(req: Request)
    requires Precheck(req).None?
    ensures Total(req.classes) <= req.length
  {
    hide EffectiveSet, Unavailable;
  }

  lemma FittingIsEnough(req: Request, buf: seq<char>)
    requires Precheck(req).None? && FitsPools(Pools(req), buf)
    ensures Enough(req, buf)
  {
    TotalFits(req);
    hide Effective, Precheck, Pools, CountIf, Short;
    var l, u, d := Stretch(req, buf, Lower), Stretch(req, buf, Upper), Stretch(req, buf, Digit);
    var y, rest := Stretch(req, buf, Symbol), buf[Total(req.classes)..];
    var symbol := InPool(Effective(req.charset, Symbol));
    StretchServes(req, buf, Lower);
    StretchServes(req, buf, Upper);
    StretchServes(req, buf, Digit);
    StretchFits(req, buf, Symbol);
    CountAll(y, symbol);
    StretchesMakeUp(req, buf);
    CountFive(l, u, d, y, rest, symbol);
  }

  lemma StretchesMakeUp(req: Request, buf: seq<char>)
    requires |buf| == req.length && Total(req.classes) <= req.length
    ensures buf == Stretch(req, buf, Lower) + (Stretch(req, buf, Upper) + (Stretch(req, buf, Digit)
                   + (Stretch(req, buf, Symbol) + buf[Total(req.classes)..])))
  {
    CutTwice(buf, Start(req.classes, Symbol), Total(req.classes));
    CutTwice(buf, Start(req.classes, Digit), Start(req.classes, Symbol));
    CutTwice(buf, Start(req.classes, Upper), Start(req.classes, Digit));
    CutTwice(buf, 0, Start(req.classes, Upper));
    assert buf[0..] == buf;
  }

  lemma CutTwice(s: seq<char>, i: nat, j: nat)
    requires i <= j <= |s|
    ensures s[i..] == s[i..j] + s[j..]
  {
  }

  lemma CountFive(l: seq<char>, u: seq<char>, d: seq<char>, y: seq<char>, rest: seq<char>, f: char -> bool)
    ensures CountIf(l + (u + (d + (y + rest))), f)
         == CountIf(l, f) + CountIf(u, f) + CountIf(d, f) + CountIf(y, f) + CountIf(rest, f)
  {
    hide CountIf;
    CountConcat(l, u + (d + (y + rest)), f);
    CountConcat(u, d + (y + rest), f);
    CountConcat(d, y + rest, f);
    CountConcat(y, rest, f);
  }

  lemma EnoughPermutes(req: Request, s: seq<char>, t: seq<char>)
    requires multiset(s) == multiset(t) && Enough(req, s)
    ensures Enough(req, t)
  {
    hide Effective, CountIf;
    forall k: Class
      ensures CountIf(s, InPool(Effective(req.charset, k))) == CountIf(t, InPool(Effective(req.charset, k)))
      ensures CountIf(s, OnlyIn(req.charset, k)) == CountIf(t, OnlyIn(req.charset, k))
    {
      CountPermutation(s, t, InPool(Effective(req.charset, k)));
      CountPermutation(s, t, OnlyIn(req.charset, k));
    }
  }

  lemma ArrangedBy(req: Request, buf: seq<char>, pw: seq<char>)
    requires Precheck(req).None? && FitsPools(Pools(req), buf) && multiset(buf) == multiset(pw)
    ensures Arranged(req, pw)
  {
  }

  /**
   * The exact range of the generator: the checks pass, the length and the characters are
   * right, each class reaches its minimum, and symbols are to spare where classes share them.
   */
  lemma GeneratedRange(req: Request, pw: seq<char>)
    ensures (exists words: seq<u32> :: GenerateSpec(req, words) == Password(pw)) <==>
            Precheck(req).None? && OnOffer(req, pw) && Enough(req, pw)
  {
    hide Precheck, Enough, OnOffer, GenerateSpec, FitsPools, Pools;
    GeneratedIff(req, pw);
    if Precheck(req).None? && Arranged(req, pw) {
      var buf: seq<char> :| FitsPools(Pools(req), buf) && multiset(buf) == multiset(pw);
      PoolsOnOffer(req, buf, pw);
      FittingIsEnough(req, buf);
      EnoughPermutes(req, buf, pw);
    }
    if Precheck(req).None? && OnOffer(req, pw) && Enough(req, pw) {
      var buf := Arrange(req, pw);
      ArrangedBy(req, buf, pw);
    }
  }

  /** No symbol on offer is a letter or a digit on offer. */
  predicate SymbolsApart(c: Charset) {
    forall i :: 0 <= i < |Effective(c, Symbol)| ==>
      var x := Effective(c, Symbol)[i];
      x !in Effective(c, Lower) && x !in Effective(c, Upper) && x !in Effective(c, Digit)
  }

  /** With separate classes that is everything that meets the request. */
  lemma SeparateRange(req: Request, pw: seq<char>)
    requires SymbolsApart(req.charset)
    ensures (exists words: seq<u32> :: GenerateSpec(req, words) == Password(pw)) <==>
            Precheck(req).None? && Meets(req, pw)
  {
    hide Precheck, GenerateSpec, Effective, EffectiveSet, CountIf, Arranged;
    GeneratedRange(req, pw);
    forall k: Class | k != Symbol
      ensures CountIf(pw, OnlyIn(req.charset, k)) == CountIf(pw, InPool(Effective(req.charset, k)))
    {
      CountSplit(pw, req.charset, k);
      CountNone(pw, AlsoSymbol(req.charset, k));
    }
    MinimumsAre(req, pw);
  }

  lemma MinimumsAre(req: Request, pw: seq<char>)
    ensures (forall k: Class :: CountIf(pw, InPool(Effective(req.charset, k))) >= Minimum(req.classes, k)) <==>
            && CountIf(pw, InPool(Effective(req.charset, Lower))) >= req.classes.minLowercase
            && CountIf(pw, InPool(Effective(req.charset, Upper))) >= req.classes.minUppercase
            && CountIf(pw, InPool(Effective(req.charset, Digit))) >= req.classes.minDigits
            && CountIf(pw, InPool(Effective(req.charset, Symbol))) >= req.classes.minSymbols
  {
    hide Effective, CountIf;
    if forall k: Class :: CountIf(pw, InPool(Effective(req.charset, k))) >= Minimum(req.classes, k) {
      assert CountIf(pw, InPool(Effective(req.charset, Lower))) >= Minimum(req.classes, Lower);
      assert CountIf(pw, InPool(Effective(req.charset, Upper))) >= Minimum(req.classes, Upper);
      assert CountIf(pw, InPool(Effective(req.charset, Digit))) >= Minimum(req.classes, Digit);
      assert CountIf(pw, InPool(Effective(req.charset, Symbol))) >= Minimum(req.classes, Symbol);
    }
  }
}
