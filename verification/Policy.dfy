/** Password policies: effective character sets, generation and import validation. */
module Policy {
  import opened Bytes
  import opened Types
  import opened KeyedLists
  import opened Sampling

  const LOWERCASE: seq<char> := "abcdefghijklmnopqrstuvwxyz"
  const UPPERCASE: seq<char> := "ABCDEFGHIJKLMNOPQRSTUVWXYZ"
  const DIGITS: seq<char> := "0123456789"
  const BASIC_SYMBOLS: seq<char> := "!@#$%^&*-_=+"
  const FULL_SYMBOLS: seq<char> := "!\"#$%&'()*+,-./:;<=>?@[\\]^_`{|}~"

  const MIN_LENGTH: nat := 16
  const MAX_LENGTH: nat := 256
  const DEFAULT_LENGTH: u16 := 40

  datatype Class = Lower | Upper | Digit | Symbol

  datatype Request = Request(length: u16, charset: Charset, classes: RequiredClasses)

  datatype PolicyError =
    | LengthOutOfRange(got: u16)
    | EmptyCharset
    | ImpossibleConstraints(required: nat, limit: u16)
    | RequiredClassUnavailable(cls: Class, minimum: byte)

  // ----- Character sets -------------------------------------------------------------

  /** The characters of `s` that survive `disallow`. */
  function FilterOut(s: seq<char>, disallow: seq<char>): (r: seq<char>)
    ensures forall c :: c in r <==> c in s && c !in disallow
  {
    if s == [] then []
    else
      assert s == [s[0]] + s[1..];
      if s[0] in disallow then FilterOut(s[1..], disallow) else [s[0]] + FilterOut(s[1..], disallow)
  }

  function SymbolChars(s: SymbolSet): seq<char> {
    match s
    case NoSymbols => []
    case Basic => BASIC_SYMBOLS
    case Full => FULL_SYMBOLS
    case Custom(c) => c
  }

  /** The characters of one class that the charset selects and allows. */
  function Effective(c: Charset, k: Class): seq<char> {
    match k
    case Lower => if c.lowercase then FilterOut(LOWERCASE, c.disallow) else []
    case Upper => if c.uppercase then FilterOut(UPPERCASE, c.disallow) else []
    case Digit => if c.digits then FilterOut(DIGITS, c.disallow) else []
    case Symbol => FilterOut(SymbolChars(c.symbols), c.disallow)
  }

  lemma {:induction false} RangeHas(s: seq<char>, first: char, x: char)
    requires forall i :: 0 <= i < |s| ==> s[i] as int == first as int + i
    ensures x in s <==> first <= x && x as int < first as int + |s|
  {
    if first <= x && x as int < first as int + |s| {
      assert s[x as int - first as int] == x;
    }
  }

  /** A symbol set is none, twelve named characters, the ASCII punctuation, or what the caller lists. */
  predicate IsSymbolOf(s: SymbolSet, x: char) {
    match s
    case NoSymbols => false
    case Basic => x in "!@#$%^&*-_=+"
    case Full => '!' <= x <= '/' || ':' <= x <= '@' || '[' <= x <= '`' || '{' <= x <= '~'
    case Custom(listed) => x in listed
  }

  /** A class is what its flag selects of its ASCII range, minus what is disallowed. */
  lemma EffectiveIs(c: Charset, x: char)
    ensures x in Effective(c, Lower) <==> c.lowercase && 'a' <= x <= 'z' && x !in c.disallow
    ensures x in Effective(c, Upper) <==> c.uppercase && 'A' <= x <= 'Z' && x !in c.disallow
    ensures x in Effective(c, Digit) <==> c.digits && '0' <= x <= '9' && x !in c.disallow
    ensures x in Effective(c, Symbol) <==> IsSymbolOf(c.symbols, x) && x !in c.disallow
  {
    hide FilterOut, IsSymbolOf, SymbolChars;
    LettersAre(x);
    SymbolsAre(c.symbols, x);
  }

  lemma LettersAre(x: char)
    ensures x in LOWERCASE <==> 'a' <= x <= 'z'
    ensures x in UPPERCASE <==> 'A' <= x <= 'Z'
    ensures x in DIGITS <==> '0' <= x <= '9'
  {
    RangeHas(LOWERCASE, 'a', x);
    RangeHas(UPPERCASE, 'A', x);
    RangeHas(DIGITS, '0', x);
  }

  lemma SymbolsAre(s: SymbolSet, x: char)
    ensures x in SymbolChars(s) <==> IsSymbolOf(s, x)
  {
    if s.Full? { FullIs(x); }
  }

  /** The full symbol set is the ASCII punctuation. */
  lemma FullIs(x: char)
    ensures x in FULL_SYMBOLS <==> '!' <= x <= '/' || ':' <= x <= '@' || '[' <= x <= '`' || '{' <= x <= '~'
  {
    assert FULL_SYMBOLS == FULL_SYMBOLS[..15] + FULL_SYMBOLS[15..22] + FULL_SYMBOLS[22..28] + FULL_SYMBOLS[28..];
    RangeHas(FULL_SYMBOLS[..15], '!', x);
    RangeHas(FULL_SYMBOLS[15..22], ':', x);
    RangeHas(FULL_SYMBOLS[22..28], '[', x);
    RangeHas(FULL_SYMBOLS[28..], '{', x);
  }

  /** First occurrences, in order. */
  function Dedup(s: seq<char>): (r: seq<char>)
    ensures NoDup(r)
    ensures forall c :: c in r <==> c in s
    decreases |s|
  {
    if s == [] then []
    else
      var front, last := s[..|s| - 1], s[|s| - 1];
      assert s == front + [last];
      if last in Dedup(front) then Dedup(front) else Dedup(front) + [last]
  }

  function AllClasses(c: Charset): seq<char> {
    Effective(c, Lower) + Effective(c, Upper) + Effective(c, Digit) + Effective(c, Symbol)
  }

  /** Every selected class minus `disallow`, without duplicates. */
  function EffectiveSet(c: Charset): (r: seq<char>)
    ensures NoDup(r)
    ensures forall x :: x in r <==> exists k: Class :: x in Effective(c, k)
  {
    var all := AllClasses(c);
    assert forall x :: x in all <==>
      (x in Effective(c, Lower) || x in Effective(c, Upper) || x in Effective(c, Digit) || x in Effective(c, Symbol));
    Dedup(all)
  }

  method CollectEffectiveSet(c: Charset) returns (out: seq<char>)
    ensures out == EffectiveSet(c)
  {
    hide NoDup, Effective;
    var all := AllClasses(c);
    var seen: set<char> := {};
    out := [];
    for i := 0 to |all|
      invariant out == Dedup(all[..i]) && seen == set x | x in out
    {
      assert all[..i + 1][..i] == all[..i];
      if all[i] !in seen {
        seen := seen + {all[i]};
        out := out + [all[i]];
      }
    }
    assert all[..|all|] == all;
  }

  // ----- Requests -------------------------------------------------------------------------

  /** `EntryPolicy::resolve_over` */
  function ResolveOver(p: EntryPolicy, d: Request): Request {
    Request(if p.length.Some? then p.length.value else d.length,
            if p.charset.Some? then p.charset.value else d.charset,
            if p.classes.Some? then p.classes.value else d.classes)
  }

  function DefaultVault(): Request {
    Request(DEFAULT_LENGTH, Charset(true, true, true, Full, []), RequiredClasses(1, 1, 1, 1))
  }

  function Minimum(r: RequiredClasses, k: Class): byte {
    match k
    case Lower => r.minLowercase
    case Upper => r.minUppercase
    case Digit => r.minDigits
    case Symbol => r.minSymbols
  }

  function Total(r: RequiredClasses): nat {
    r.minLowercase + r.minUppercase + r.minDigits + r.minSymbols
  }

  predicate Unavailable(req: Request, k: Class) { Minimum(req.classes, k) > 0 && Effective(req.charset, k) == [] }

  /** The four checks, in the order they are made. */
  function Precheck(req: Request): Option<PolicyError> {
    if !(MIN_LENGTH <= req.length <= MAX_LENGTH) then Some(LengthOutOfRange(req.length))
    else if |EffectiveSet(req.charset)| < 2 then Some(EmptyCharset)
    else if Total(req.classes) > req.length then Some(ImpossibleConstraints(Total(req.classes), req.length))
    else if Unavailable(req, Lower) then Some(RequiredClassUnavailable(Lower, req.classes.minLowercase))
    else if Unavailable(req, Upper) then Some(RequiredClassUnavailable(Upper, req.classes.minUppercase))
    else if Unavailable(req, Digit) then Some(RequiredClassUnavailable(Digit, req.classes.minDigits))
    else if Unavailable(req, Symbol) then Some(RequiredClassUnavailable(Symbol, req.classes.minSymbols))
    else None
  }

  // ----- Generation -------------------------------------------------------------------------

  datatype Outcome = Password(chars: seq<char>) | Failed(error: PolicyError) | Starved

  function Copies<T>(x: T, n: nat): (s: seq<T>)
    ensures |s| == n
  {
    seq(n, i => x)
  }

  /** The pool each position is drawn from before the shuffle: the minimums, then the rest. */
  function Pools(req: Request): (ps: seq<seq<char>>)
    requires Precheck(req).None?
    ensures |ps| == req.length
  {
    Copies(Effective(req.charset, Lower), req.classes.minLowercase)
    + Copies(Effective(req.charset, Upper), req.classes.minUppercase)
    + Copies(Effective(req.charset, Digit), req.classes.minDigits)
    + Copies(Effective(req.charset, Symbol), req.classes.minSymbols)
    + Copies(EffectiveSet(req.charset), req.length - Total(req.classes))
  }

  predicate NonEmpty(ps: seq<seq<char>>) { forall i :: 0 <= i < |ps| ==> ps[i] != [] }

  function DrawAll(ps: seq<seq<char>>, words: seq<u32>): (r: Option<(seq<char>, seq<u32>)>)
    requires NonEmpty(ps)
    ensures r.Some? ==> |r.value.0| == |ps|
    decreases |ps|
  {
    if ps == [] then Some(([], words))
    else
      match DrawFrom(ps[0], words)
      case None => None
      case Some((c, rest)) =>
        match DrawAll(ps[1..], rest)
        case None => None
        case Some((cs, rest')) => Some(([c] + cs, rest'))
  }

  lemma PoolsNonEmpty(req: Request)
    requires Precheck(req).None?
    ensures NonEmpty(Pools(req))
  {
    hide EffectiveSet, Effective;
  }

  function GenerateSpec(req: Request, words: seq<u32>): Outcome {
    if Precheck(req).Some? then Failed(Precheck(req).value)
    else
      PoolsNonEmpty(req);
      match DrawAll(Pools(req), words)
      case None => Starved
      case Some((buf, rest)) =>
        match ShuffleSpec(buf, rest)
        case None => Starved
        case Some((pw, _)) => Password(pw)
  }

  // ----- Counting ------------------------------------------------------------------------------

  function CountIf(s: seq<char>, f: char -> bool): nat {
    if s == [] then 0 else (if f(s[0]) then 1 else 0) + CountIf(s[1..], f)
  }

  lemma {:induction false} CountConcat(s: seq<char>, t: seq<char>, f: char -> bool)
    ensures CountIf(s + t, f) == CountIf(s, f) + CountIf(t, f)
  {
    if s == [] {
      assert s + t == t;
    } else {
      CountConcat(s[1..], t, f);
      assert (s + t)[1..] == s[1..] + t;
    }
  }

  lemma {:induction false} CountAll(s: seq<char>, f: char -> bool)
    requires forall i :: 0 <= i < |s| ==> f(s[i])
    ensures CountIf(s, f) == |s|
  {
    if s != [] { CountAll(s[1..], f); }
  }

  lemma {:induction false} CountNone(s: seq<char>, f: char -> bool)
    requires forall i :: 0 <= i < |s| ==> !f(s[i])
    ensures CountIf(s, f) == 0
  {
    if s != [] { CountNone(s[1..], f); }
  }

  /** Counting does not depend on the order. */
  lemma {:induction false} CountPermutation(s: seq<char>, t: seq<char>, f: char -> bool)
    requires multiset(s) == multiset(t)
    ensures CountIf(s, f) == CountIf(t, f)
  {
    if s == [] {
      assert multiset(t) == multiset{};
      assert |multiset(t)| == |t|;
    } else {
      var c, rest := s[0], s[1..];
      assert s == [c] + rest;
      var j := PositionOf(t, c);
      var a, b := t[..j], t[j + 1..];
      assert t == a + ([c] + b) && multiset(t) == multiset(a + ([c] + b));
      RemoveOne(rest, a, b, c);
      CountPermutation(rest, a + b, f);
      CountConcat(a, b, f);
      CountConcat(a, [c] + b, f);
      CountConcat([c], b, f);
      CountConcat([c], rest, f);
    }
  }

  lemma PositionOf(t: seq<char>, c: char) returns (j: nat)
    requires c in multiset(t)
    ensures j < |t| && t[j] == c
  {
    assert c in t;
    j :| 0 <= j < |t| && t[j] == c;
  }

  lemma RemoveOne(rest: seq<char>, a: seq<char>, b: seq<char>, c: char)
    requires multiset([c] + rest) == multiset(a + ([c] + b))
    ensures multiset(rest) == multiset(a + b)
  {
    assert multiset([c] + rest) == multiset(rest) + multiset{c};
    assert multiset(a + ([c] + b)) == multiset(a + b) + multiset{c};
    Cancel(multiset(rest), multiset(a + b), multiset{c});
  }

  // ----- What a generated password satisfies -------------------------------------------------------

  lemma {:induction false} DrawnFromPools(ps: seq<seq<char>>, words: seq<u32>)
    requires NonEmpty(ps) && DrawAll(ps, words).Some?
    ensures forall i :: 0 <= i < |ps| ==> DrawAll(ps, words).value.0[i] in ps[i]
    decreases |ps|
  {
    if ps != [] {
      DrawnFromPools(ps[1..], DrawFrom(ps[0], words).value.1);
    }
  }

  function InPool(pool: seq<char>): char -> bool { c => c in pool }

  /** Where the positions reserved for class `k` start. */
  function Start(r: RequiredClasses, k: Class): nat {
    match k
    case Lower => 0
    case Upper => r.minLowercase
    case Digit => r.minLowercase + r.minUppercase
    case Symbol => r.minLowercase + r.minUppercase + r.minDigits
  }

  lemma PoolAt(req: Request, k: Class, i: nat)
    requires Precheck(req).None? && Start(req.classes, k) <= i < Start(req.classes, k) + Minimum(req.classes, k)
    ensures i < |Pools(req)| && Pools(req)[i] == Effective(req.charset, k)
  {
    hide EffectiveSet, Effective;
  }

  lemma PoolsEffective(req: Request, i: nat)
    requires Precheck(req).None? && i < req.length
    ensures forall c :: c in Pools(req)[i] ==> c in EffectiveSet(req.charset)
  {
    hide Effective, Dedup, AllClasses, NoDup;
  }

  /** A buffer with at least `n` characters satisfying `f` in one stretch counts at least `n`. */
  lemma CountStretch(s: seq<char>, start: nat, n: nat, f: char -> bool)
    requires start + n <= |s| && forall i :: start <= i < start + n ==> f(s[i])
    ensures CountIf(s, f) >= n
  {
    var a, b, c := s[..start], s[start..start + n], s[start + n..];
    assert s == a + (b + c);
    CountConcat(a, b + c, f);
    CountConcat(b, c, f);
    CountAll(b, f);
  }

  /** The requested length, only effective characters, and every class minimum. */
  predicate Meets(req: Request, pw: seq<char>) {
    && |pw| == req.length
    && (forall i :: 0 <= i < |pw| ==> pw[i] in EffectiveSet(req.charset))
    && forall k: Class :: CountIf(pw, InPool(Effective(req.charset, k))) >= Minimum(req.classes, k)
  }

  /** Generation fails exactly on the first failing check, whatever the random words. */
  lemma GenerateFailsExactly(req: Request, words: seq<u32>, e: PolicyError)
    ensures GenerateSpec(req, words) == Failed(e) <==> Precheck(req) == Some(e)
  {
    hide Precheck, Pools;
  }

  /** Every generated password meets its request, for every random stream. */
  lemma GeneratedMeets(req: Request, words: seq<u32>)
    requires GenerateSpec(req, words).Password?
    ensures Meets(req, GenerateSpec(req, words).chars)
  {
    hide EffectiveSet, Effective, Pools, Precheck, DrawAll, ShuffleBy, IsVector;
    PoolsNonEmpty(req);
    var (buf, rest) := DrawAll(Pools(req), words).value;
    var pw := GenerateSpec(req, words).chars;
    var js := DrawIndices(rest, if buf == [] then 0 else |buf| - 1).value.0;
    ShufflePermutes(buf, js);
    DrawnFromPools(Pools(req), words);
    forall i | 0 <= i < |pw| ensures pw[i] in EffectiveSet(req.charset) {
      assert pw[i] in multiset(pw);
      var j := PositionOf(buf, pw[i]);
      PoolsEffective(req, j);
    }
    forall k: Class ensures CountIf(pw, InPool(Effective(req.charset, k))) >= Minimum(req.classes, k) {
      ClassMet(req, buf, k);
      CountPermutation(buf, pw, InPool(Effective(req.charset, k)));
    }
  }

  lemma ClassMet(req: Request, buf: seq<char>, k: Class)
    requires Precheck(req).None? && |buf| == req.length
    requires forall i :: 0 <= i < |buf| ==> buf[i] in Pools(req)[i]
    ensures CountIf(buf, InPool(Effective(req.charset, k))) >= Minimum(req.classes, k)
  {
    hide EffectiveSet, Effective, Pools, EffectiveSet;
    var start, n := Start(req.classes, k), Minimum(req.classes, k);
    forall i | start <= i < start + n ensures InPool(Effective(req.charset, k))(buf[i]) {
      PoolAt(req, k, i);
    }
    CountStretch(buf, start, n, InPool(Effective(req.charset, k)));
  }

  // ----- Generation, step by step --------------------------------------------------------------------

  ghost function Drawn(front: seq<char>, r: Option<(seq<char>, seq<u32>)>): Option<(seq<char>, seq<u32>)> {
    if r.None? then None else Some((front + r.value.0, r.value.1))
  }

  lemma DrawnOne(front: seq<char>, ps: seq<seq<char>>, i: nat, words: seq<u32>)
    requires NonEmpty(ps) && i < |ps| && |front| == i
    ensures NonEmpty(ps[i..]) && NonEmpty(ps[i + 1..])
    ensures Drawn(front, DrawAll(ps[i..], words)) ==
              match DrawFrom(ps[i], words)
              case None => None
              case Some((c, rest)) => Drawn(front + [c], DrawAll(ps[i + 1..], rest))
  {
    assert ps[i..][0] == ps[i] && ps[i..][1..] == ps[i + 1..];
    var d := DrawFrom(ps[i], words);
    if d.Some? {
      var more := DrawAll(ps[i + 1..], d.value.1);
      if more.Some? {
        ConcatAssoc(front, [d.value.0], more.value.0);
      }
    }
  }

  /** One push: draws for position `len` and records it in the buffer. */
  method PushDraw(pool: seq<char>, buf: array<char>, len: nat, rng: WordSource,
                  ghost ps: seq<seq<char>>, ghost all: Option<(seq<char>, seq<u32>)>)
    returns (done: bool)
    requires NonEmpty(ps) && len < |ps| == buf.Length && ps[len] == pool
    requires NonEmpty(ps[len..]) && all == Drawn(buf[..len], DrawAll(ps[len..], rng.words))
    modifies buf, rng
    ensures done ==> NonEmpty(ps[len + 1..]) && all == Drawn(buf[..len + 1], DrawAll(ps[len + 1..], rng.words))
    ensures !done ==> all == None
  {
    DrawnOne(buf[..len], ps, len, rng.words);
    var c := UniformFrom(pool, rng);
    if c.None? { return false; }
    ghost var front := buf[..len];
    buf[len] := c.value;
    assert buf[..len + 1] == front + [c.value];
    return true;
  }

  method FirstUnavailable(req: Request) returns (r: Option<PolicyError>)
    requires MIN_LENGTH <= req.length <= MAX_LENGTH && |EffectiveSet(req.charset)| >= 2
    requires Total(req.classes) <= req.length
    ensures r == Precheck(req)
  {
    hide EffectiveSet, Effective;
    var classes := [Lower, Upper, Digit, Symbol];
    for i := 0 to 4
      invariant forall j :: 0 <= j < i ==> !Unavailable(req, classes[j])
    {
      if Minimum(req.classes, classes[i]) > 0 && |Effective(req.charset, classes[i])| == 0 {
        assert Unavailable(req, classes[i]);
        assert 0 < i ==> !Unavailable(req, classes[0]);
        assert 1 < i ==> !Unavailable(req, classes[1]);
        assert 2 < i ==> !Unavailable(req, classes[2]);
        return Some(RequiredClassUnavailable(classes[i], Minimum(req.classes, classes[i])));
      }
    }
    assert !Unavailable(req, classes[0]) && !Unavailable(req, classes[1])
        && !Unavailable(req, classes[2]) && !Unavailable(req, classes[3]);
    return None;
  }

  method Generate(req: Request, rng: WordSource) returns (out: Outcome)
    modifies rng
    ensures out == GenerateSpec(req, old(rng.words))
  {
    hide EffectiveSet, Effective, DrawAll, NonEmpty, Pools, ShuffleSpec, Precheck;
    if !(MIN_LENGTH <= req.length <= MAX_LENGTH) {
      PrecheckLength(req);
      return Failed(LengthOutOfRange(req.length));
    }
    var effective := CollectEffectiveSet(req.charset);
    if |effective| < 2 {
      PrecheckEmpty(req);
      return Failed(EmptyCharset);
    }
    if Total(req.classes) > req.length {
      PrecheckTotal(req);
      return Failed(ImpossibleConstraints(Total(req.classes), req.length));
    }
    var failed := FirstUnavailable(req);
    if failed.Some? { return Failed(failed.value); }

    PoolsNonEmpty(req);
    var buf := new char[req.length];
    ghost var ps := Pools(req);
    ghost var all := DrawAll(ps, rng.words);
    var filled := FillBuffer(req, effective, buf, rng, ps, all);
    if !filled { return Starved; }
    var shuffled := Shuffle(buf, rng);
    return if shuffled then Password(buf[..]) else Starved;
  }

  lemma PrecheckLength(req: Request)
    requires !(MIN_LENGTH <= req.length <= MAX_LENGTH)
    ensures Precheck(req) == Some(LengthOutOfRange(req.length))
  {
  }

  lemma PrecheckEmpty(req: Request)
    requires MIN_LENGTH <= req.length <= MAX_LENGTH && |EffectiveSet(req.charset)| < 2
    ensures Precheck(req) == Some(EmptyCharset)
  {
  }

  lemma PrecheckTotal(req: Request)
    requires MIN_LENGTH <= req.length <= MAX_LENGTH && |EffectiveSet(req.charset)| >= 2
    requires Total(req.classes) > req.length
    ensures Precheck(req) == Some(ImpossibleConstraints(Total(req.classes), req.length))
  {
  }

  /** The required minimums class by class, then the rest from the whole effective set. */
  method FillBuffer(req: Request, effective: seq<char>, buf: array<char>, rng: WordSource,
                    ghost ps: seq<seq<char>>, ghost all: Option<(seq<char>, seq<u32>)>)
    returns (done: bool)
    requires Precheck(req).None? && effective == EffectiveSet(req.charset) && buf.Length == req.length
    requires ps == Pools(req) && NonEmpty(ps) && all == DrawAll(ps, rng.words)
    modifies buf, rng
    ensures done ==> all == Some((buf[..], rng.words))
    ensures !done ==> all == None
  {
    hide EffectiveSet, Effective, DrawAll, NonEmpty, Pools, Precheck;
    var classes := [Lower, Upper, Digit, Symbol];
    var len := 0;
    StartDraw(ps, rng.words);
    assert buf[..0] == [] && ps[0..] == ps;
    for i := 0 to 4
      invariant len == if i < 4 then Start(req.classes, classes[i]) else Total(req.classes)
      invariant len <= req.length
      invariant NonEmpty(ps[len..]) && all == Drawn(buf[..len], DrawAll(ps[len..], rng.words))
    {
      var k := classes[i];
      var pool := Effective(req.charset, k);
      for n := 0 to Minimum(req.classes, k)
        invariant len == Start(req.classes, k) + n
        invariant len <= req.length
        invariant NonEmpty(ps[len..]) && all == Drawn(buf[..len], DrawAll(ps[len..], rng.words))
      {
        PoolAt(req, k, len);
        var ok := PushDraw(pool, buf, len, rng, ps, all);
        if !ok { return false; }
        len := len + 1;
      }
    }
    while len < req.length
      invariant Total(req.classes) <= len <= req.length
      invariant NonEmpty(ps[len..]) && all == Drawn(buf[..len], DrawAll(ps[len..], rng.words))
    {
      RestPool(req, len);
      var ok := PushDraw(effective, buf, len, rng, ps, all);
      if !ok { return false; }
      len := len + 1;
    }
    assert ps[len..] == [] && buf[..len] == buf[..];
    EndDraw(ps[len..], buf[..len], rng.words);
    return true;
  }

  lemma StartDraw(ps: seq<seq<char>>, words: seq<u32>)
    requires NonEmpty(ps)
    ensures DrawAll(ps, words) == Drawn([], DrawAll(ps, words))
  {
    var d := DrawAll(ps, words);
    assert d.Some? ==> [] + d.value.0 == d.value.0;
  }

  lemma EndDraw(ps: seq<seq<char>>, front: seq<char>, words: seq<u32>)
    requires ps == [] && NonEmpty(ps)
    ensures Drawn(front, DrawAll(ps, words)) == Some((front, words))
  {
    assert front + [] == front;
  }

  lemma RestPool(req: Request, i: nat)
    requires Precheck(req).None? && Total(req.classes) <= i < req.length
    ensures Pools(req)[i] == EffectiveSet(req.charset)
  {
    hide EffectiveSet, Effective;
  }
}
