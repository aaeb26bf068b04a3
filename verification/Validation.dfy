/** Advice on imported passwords, and how it fits the passwords the generator makes. */
module Validation {
  import opened Bytes
  import opened Types
  import opened KeyedLists
  import opened Policy
  import opened GeneratorRange

  datatype Issue =
    | TooShort(len: nat)
    | TooLong(len: nat)
    | NotPermitted(chars: set<char>)
    | Missing(cls: Class, have: nat, want: byte)

  predicate AsciiPunctuation(c: char) {
    '!' <= c <= '/' || ':' <= c <= '@' || '[' <= c <= '`' || '{' <= c <= '~'
  }

  /** The class `validate` counts a character towards: ASCII only. */
  function AsciiClass(c: char): Option<Class> {
    if 'a' <= c <= 'z' then Some(Lower)
    else if 'A' <= c <= 'Z' then Some(Upper)
    else if '0' <= c <= '9' then Some(Digit)
    else if AsciiPunctuation(c) then Some(Symbol)
    else None
  }

  function IsClass(k: Class): char -> bool { c => AsciiClass(c) == Some(k) }

  function Have(pw: seq<char>, k: Class): nat { CountIf(pw, IsClass(k)) }

  function Resolved(p: EntryPolicy): Request { ResolveOver(p, DefaultVault()) }

  function LengthIssues(pw: seq<char>): seq<Issue> {
    if |pw| < MIN_LENGTH then [TooShort(|pw|)]
    else if |pw| > MAX_LENGTH then [TooLong(|pw|)]
    else []
  }

  function Offending(pw: seq<char>, allowed: seq<char>): set<char> {
    set c | c in pw && c !in allowed
  }

  function CharsetIssues(pw: seq<char>, allowed: seq<char>): seq<Issue> {
    if Offending(pw, allowed) == {} then [] else [NotPermitted(Offending(pw, allowed))]
  }

  /** `check_class` */
  function ClassIssues(k: Class, have: nat, want: byte): seq<Issue> {
    if have < want then [Missing(k, have, want)] else []
  }

  function ValidateSpec(pw: seq<char>, p: EntryPolicy): seq<Issue> {
    var req := Resolved(p);
    LengthIssues(pw) + CharsetIssues(pw, EffectiveSet(req.charset))
    + ClassIssues(Lower, Have(pw, Lower), req.classes.minLowercase)
    + ClassIssues(Upper, Have(pw, Upper), req.classes.minUppercase)
    + ClassIssues(Digit, Have(pw, Digit), req.classes.minDigits)
    + ClassIssues(Symbol, Have(pw, Symbol), req.classes.minSymbols)
  }

  lemma CountNext(pw: seq<char>, i: nat, f: char -> bool)
    requires i < |pw|
    ensures CountIf(pw[..i + 1], f) == CountIf(pw[..i], f) + (if f(pw[i]) then 1 else 0)
  {
    assert pw[..i + 1] == pw[..i] + [pw[i]];
    CountConcat(pw[..i], [pw[i]], f);
  }

  method Validate(pw: seq<char>, p: EntryPolicy) returns (issues: seq<Issue>)
    ensures issues == ValidateSpec(pw, p)
  {
    hide EffectiveSet, CountIf, Offending, Resolved, ClassIssues, Have;
    var req := Resolved(p);
    issues := [];
    if |pw| < MIN_LENGTH {
      issues := issues + [TooShort(|pw|)];
    } else if |pw| > MAX_LENGTH {
      issues := issues + [TooLong(|pw|)];
    }

    assert issues == LengthIssues(pw);
    var allowed := CollectEffectiveSet(req.charset);
    var offending := CollectOffending(pw, allowed);
    if offending != {} {
      issues := issues + [NotPermitted(offending)];
    }

    assert issues == LengthIssues(pw) + CharsetIssues(pw, allowed);
    var lo, up, di, sy := CountClasses(pw);
    issues := issues + ClassIssues(Lower, lo, req.classes.minLowercase);
    issues := issues + ClassIssues(Upper, up, req.classes.minUppercase);
    issues := issues + ClassIssues(Digit, di, req.classes.minDigits);
    issues := issues + ClassIssues(Symbol, sy, req.classes.minSymbols);
  }

  method CollectOffending(pw: seq<char>, allowed: seq<char>) returns (offending: set<char>)
    ensures offending == Offending(pw, allowed)
  {
    offending := {};
    for i := 0 to |pw|
      invariant offending == Offending(pw[..i], allowed)
    {
      if pw[i] !in allowed {
        offending := offending + {pw[i]};
      }
    }
    assert pw[..|pw|] == pw;
  }

  method CountClasses(pw: seq<char>) returns (lo: nat, up: nat, di: nat, sy: nat)
    ensures lo == Have(pw, Lower) && up == Have(pw, Upper) && di == Have(pw, Digit) && sy == Have(pw, Symbol)
  {
    lo, up, di, sy := 0, 0, 0, 0;
    for i := 0 to |pw|
      invariant lo == Have(pw[..i], Lower) && up == Have(pw[..i], Upper)
      invariant di == Have(pw[..i], Digit) && sy == Have(pw[..i], Symbol)
    {
      CountNext(pw, i, IsClass(Lower));
      CountNext(pw, i, IsClass(Upper));
      CountNext(pw, i, IsClass(Digit));
      CountNext(pw, i, IsClass(Symbol));
      var c := pw[i];
      if 'a' <= c <= 'z' { lo := lo + 1; }
      else if 'A' <= c <= 'Z' { up := up + 1; }
      else if '0' <= c <= '9' { di := di + 1; }
      else if AsciiPunctuation(c) { sy := sy + 1; }
    }
    assert pw[..|pw|] == pw;
  }

  lemma ClassIssuesNone(pw: seq<char>, k: Class, r: RequiredClasses)
    ensures ClassIssues(k, Have(pw, k), Minimum(r, k)) == [] <==> Have(pw, k) >= Minimum(r, k)
  {
    hide CountIf;
  }

  lemma CharsetIssuesNone(pw: seq<char>, allowed: seq<char>)
    ensures CharsetIssues(pw, allowed) == [] <==> forall i :: 0 <= i < |pw| ==> pw[i] in allowed
  {
    if i :| 0 <= i < |pw| && pw[i] !in allowed {
      assert pw[i] in Offending(pw, allowed);
    }
  }

  /** No issue is reported exactly when all four requirements are met. */
  lemma NoIssuesIff(pw: seq<char>, p: EntryPolicy)
    ensures ValidateSpec(pw, p) == [] <==>
            && 16 <= |pw| <= 256
            && (forall i :: 0 <= i < |pw| ==> pw[i] in EffectiveSet(Resolved(p).charset))
            && forall k: Class :: Have(pw, k) >= Minimum(Resolved(p).classes, k)
  {
    hide EffectiveSet, CharsetIssues, ClassIssues, Have, Resolved;
    var req := Resolved(p);
    CharsetIssuesNone(pw, EffectiveSet(req.charset));
    ClassIssuesNone(pw, Lower, req.classes);
    ClassIssuesNone(pw, Upper, req.classes);
    ClassIssuesNone(pw, Digit, req.classes);
    ClassIssuesNone(pw, Symbol, req.classes);
    AllClassesMeet(pw, req.classes);
  }

  /** Each field of the entry's policy counts where it is given, and the vault's default where it is not. */
  lemma ResolvedIs(p: EntryPolicy)
    ensures Resolved(p)
         == Request(if p.length.Some? then p.length.value else 40,
                    if p.charset.Some? then p.charset.value else Charset(true, true, true, Full, []),
                    if p.classes.Some? then p.classes.value else RequiredClasses(1, 1, 1, 1))
  {
  }

  /** The charset selects this character. */
  predicate Permitted(c: Charset, x: char) {
    && x !in c.disallow
    && ((c.lowercase && 'a' <= x <= 'z') || (c.uppercase && 'A' <= x <= 'Z') || (c.digits && '0' <= x <= '9')
        || IsSymbolOf(c.symbols, x))
  }

  lemma PermittedIff(c: Charset, x: char)
    ensures x in EffectiveSet(c) <==> Permitted(c, x)
  {
    EffectiveIs(c, x);
    hide Effective, IsSymbolOf;
    var all := AllClasses(c);
    if x in EffectiveSet(c) {
      var k: Class :| x in Effective(c, k);
    }
    if Permitted(c, x) {
      var k := if x in Effective(c, Lower) then Lower
               else if x in Effective(c, Upper) then Upper
               else if x in Effective(c, Digit) then Digit
               else Symbol;
      assert x in Effective(c, k);
    }
  }

  /** The ASCII punctuation is the full symbol set. */
  lemma PunctuationIsFull(c: char)
    ensures AsciiPunctuation(c) <==> c in FULL_SYMBOLS
  {
    FullIs(c);
  }

  /** With the defaults filled in: length, permitted characters and the four minimums. */
  lemma ValidExactly(pw: seq<char>, p: EntryPolicy)
    ensures var charset := if p.charset.Some? then p.charset.value else Charset(true, true, true, Full, []);
            var classes := if p.classes.Some? then p.classes.value else RequiredClasses(1, 1, 1, 1);
            ValidateSpec(pw, p) == [] <==>
            && 16 <= |pw| <= 256 && (forall i :: 0 <= i < |pw| ==> Permitted(charset, pw[i]))
            && Have(pw, Lower) >= classes.minLowercase && Have(pw, Upper) >= classes.minUppercase
            && Have(pw, Digit) >= classes.minDigits && Have(pw, Symbol) >= classes.minSymbols
  {
    ResolvedIs(p);
    hide ValidateSpec, Have, Permitted, EffectiveSet, Resolved;
    NoIssuesIff(pw, p);
    var req := Resolved(p);
    AllClassesMeet(pw, req.classes);
    forall i | 0 <= i < |pw| ensures pw[i] in EffectiveSet(req.charset) <==> Permitted(req.charset, pw[i]) {
      PermittedIff(req.charset, pw[i]);
    }
  }

  lemma AllClassesMeet(pw: seq<char>, r: RequiredClasses)
    ensures (forall k: Class :: Have(pw, k) >= Minimum(r, k)) <==>
            && Have(pw, Lower) >= r.minLowercase && Have(pw, Upper) >= r.minUppercase
            && Have(pw, Digit) >= r.minDigits && Have(pw, Symbol) >= r.minSymbols
  {
    hide Have;
    if forall k: Class :: Have(pw, k) >= Minimum(r, k) {
      assert Have(pw, Lower) >= Minimum(r, Lower) && Have(pw, Upper) >= Minimum(r, Upper);
      assert Have(pw, Digit) >= Minimum(r, Digit) && Have(pw, Symbol) >= Minimum(r, Symbol);
    }
  }

  /** Each issue is reported exactly when its own requirement fails, with the figures that show it. */
  lemma IssueIff(pw: seq<char>, p: EntryPolicy, i: Issue)
    ensures i in ValidateSpec(pw, p) <==>
              match i
              case TooShort(n) => n == |pw| && |pw| < 16
              case TooLong(n) => n == |pw| && |pw| > 256
              case NotPermitted(chars) =>
                chars != {} && forall x: char :: x in chars <==> x in pw && !Permitted(Resolved(p).charset, x)
              case Missing(k, have, want) =>
                have == Have(pw, k) && want == Minimum(Resolved(p).classes, k) && have < want
  {
    hide EffectiveSet, Have, Resolved, Permitted, CharsetIssues;
    var req := Resolved(p);
    OffendingIs(pw, req.charset, i);
    var a, b := LengthIssues(pw), CharsetIssues(pw, EffectiveSet(req.charset));
    var c, d := ClassIssues(Lower, Have(pw, Lower), req.classes.minLowercase),
                ClassIssues(Upper, Have(pw, Upper), req.classes.minUppercase);
    var e, f := ClassIssues(Digit, Have(pw, Digit), req.classes.minDigits),
                ClassIssues(Symbol, Have(pw, Symbol), req.classes.minSymbols);
    InSix(a, b, c, d, e, f, i);
    assert ValidateSpec(pw, p) == a + b + c + d + e + f;
  }

  lemma InSix(a: seq<Issue>, b: seq<Issue>, c: seq<Issue>, d: seq<Issue>, e: seq<Issue>, f: seq<Issue>, i: Issue)
    ensures i in a + b + c + d + e + f <==> i in a || i in b || i in c || i in d || i in e || i in f
  {
  }

  lemma OffendingIs(pw: seq<char>, c: Charset, i: Issue)
    ensures i in CharsetIssues(pw, EffectiveSet(c)) <==>
              && i.NotPermitted? && i.chars != {}
              && forall x: char :: x in i.chars <==> x in pw && !Permitted(c, x)
  {
    hide EffectiveSet, Permitted;
    var all := Offending(pw, EffectiveSet(c));
    forall x: char ensures x in all <==> x in pw && !Permitted(c, x) {
      PermittedIff(c, x);
    }
    if i.NotPermitted? && forall x: char :: x in i.chars <==> x in pw && !Permitted(c, x) {
      assert i.chars == all;
    }
  }

  // ----- Generated passwords against the validator -----------------------------------------

  /** The guard: every symbol the charset offers is one the validator counts as a symbol. */
  predicate SymbolsCounted(req: Request) {
    req.classes.minSymbols == 0
    || forall i :: 0 <= i < |Effective(req.charset, Symbol)| ==> AsciiPunctuation(Effective(req.charset, Symbol)[i])
  }

  /** Letters and digits are always counted towards their own class. */
  lemma PoolsAreAscii(c: Charset, k: Class, x: char)
    requires k != Symbol && x in Effective(c, k)
    ensures AsciiClass(x) == Some(k)
  {
    match k
    case Lower => LowercaseIs(x);
    case Upper => UppercaseIs(x);
    case Digit => DigitsAre(x);
  }

  lemma MeetsIsValid(req: Request, pw: seq<char>, k: Class)
    requires Meets(req, pw) && SymbolsCounted(req)
    ensures Have(pw, k) >= Minimum(req.classes, k)
  {
    hide EffectiveSet, CountIf, Effective;
    if Minimum(req.classes, k) > 0 {
      var pool := Effective(req.charset, k);
      forall i | 0 <= i < |pw| && InPool(pool)(pw[i]) ensures IsClass(k)(pw[i]) {
        if k == Symbol {
          var j :| 0 <= j < |pool| && pool[j] == pw[i];
        } else {
          PoolsAreAscii(req.charset, k, pw[i]);
        }
      }
      CountWeaker(pw, InPool(pool), IsClass(k));
    }
  }

  /** Given the checks pass, a buffer that has `x` wherever it is on offer is generated from some stream. */
  lemma ChoosingStream(req: Request, x: char) returns (buf: seq<char>, words: seq<u32>)
    requires Precheck(req).None?
    ensures FitsPools(Pools(req), buf) && GenerateSpec(req, words) == Password(buf)
    ensures forall i :: 0 <= i < |Pools(req)| ==> (x in Pools(req)[i] ==> buf[i] == x)
  {
    hide Precheck, Pools, GenerateSpec;
    var ps := Pools(req);
    PoolsNonEmpty(req);
    buf := seq(|ps|, i requires 0 <= i < |ps| => if x in ps[i] then x else ps[i][0]);
    words := StreamFor(req, buf, buf);
  }

  /** The length is in range, two characters are allowed, the minimums fit, and each can be met. */
  ghost predicate Satisfiable(req: Request) {
    && 16 <= req.length <= 256
    && (exists a: char, b: char :: a in EffectiveSet(req.charset) && b in EffectiveSet(req.charset) && a != b)
    && Total(req.classes) <= req.length
    && forall k: Class :: Minimum(req.classes, k) > 0 ==> exists c: char :: c in Effective(req.charset, k)
  }

  lemma TwoCharactersIff(s: seq<char>)
    requires NoDup(s)
    ensures |s| >= 2 <==> exists a: char, b: char :: a in s && b in s && a != b
  {
    if |s| >= 2 {
      assert s[0] in s && s[1] in s && s[0] != s[1];
    }
  }

  lemma AvailableIff(req: Request, k: Class)
    ensures !Unavailable(req, k) <==> (Minimum(req.classes, k) > 0 ==> exists c: char :: c in Effective(req.charset, k))
  {
    hide Effective;
    if Effective(req.charset, k) != [] {
      assert Effective(req.charset, k)[0] in Effective(req.charset, k);
    }
  }

  lemma PrecheckPassesIff(req: Request)
    ensures Precheck(req).None? <==> Satisfiable(req)
  {
    TwoCharactersIff(EffectiveSet(req.charset));
    AvailableIff(req, Lower);
    AvailableIff(req, Upper);
    AvailableIff(req, Digit);
    AvailableIff(req, Symbol);
    hide EffectiveSet, Effective, Unavailable, NoDup, Minimum;
    if Precheck(req).None? {
      forall k: Class ensures Minimum(req.classes, k) > 0 ==> exists c: char :: c in Effective(req.charset, k) {
        match k
        case Lower =>
        case Upper =>
        case Digit =>
        case Symbol =>
      }
    }
  }

  /** Two different characters are permitted. */
  ghost predicate TwoPermitted(c: Charset) { exists a: char, b: char :: Permitted(c, a) && Permitted(c, b) && a != b }

  /** A class is required, but none of its characters is left. */
  ghost predicate LeftOut(req: Request, k: Class) {
    Minimum(req.classes, k) > 0 && forall c: char :: c !in Effective(req.charset, k)
  }

  /** Which refusal: the first of length, characters, sum of the minimums, and class by class. */
  lemma PrecheckIs(req: Request)
    ensures Precheck(req) ==
              if !(16 <= req.length <= 256) then Some(LengthOutOfRange(req.length))
              else if !TwoPermitted(req.charset) then Some(EmptyCharset)
              else if Total(req.classes) > req.length then Some(ImpossibleConstraints(Total(req.classes), req.length))
              else if LeftOut(req, Lower) then Some(RequiredClassUnavailable(Lower, req.classes.minLowercase))
              else if LeftOut(req, Upper) then Some(RequiredClassUnavailable(Upper, req.classes.minUppercase))
              else if LeftOut(req, Digit) then Some(RequiredClassUnavailable(Digit, req.classes.minDigits))
              else if LeftOut(req, Symbol) then Some(RequiredClassUnavailable(Symbol, req.classes.minSymbols))
              else None
  {
    hide Effective, EffectiveSet, Permitted, Minimum;
    TwoCharactersIff(EffectiveSet(req.charset));
    forall x: char ensures x in EffectiveSet(req.charset) <==> Permitted(req.charset, x) {
      PermittedIff(req.charset, x);
    }
    AvailableIff(req, Lower);
    AvailableIff(req, Upper);
    AvailableIff(req, Digit);
    AvailableIff(req, Symbol);
  }

  /** Generation can succeed exactly when the request is satisfiable. */
  lemma GenerateSucceedsIff(req: Request)
    ensures Satisfiable(req) <==> exists words: seq<u32> :: GenerateSpec(req, words).Password?
  {
    hide Effective, EffectiveSet, Precheck, GenerateSpec, DrawAll, Pools, NonEmpty, Satisfiable;
    PrecheckPassesIff(req);
    if Precheck(req).None? {
      var _, words := ChoosingStream(req, 'a');
    } else {
      forall words: seq<u32> ensures GenerateSpec(req, words).Failed? {
        GenerateFailsExactly(req, words, Precheck(req).value);
      }
    }
  }

  /** With one uncounted symbol on offer, some stream yields a password without counted symbols. */
  lemma UncountedStream(req: Request, x: char) returns (words: seq<u32>)
    requires Precheck(req).None? && x in Effective(req.charset, Symbol) && !AsciiPunctuation(x)
    ensures GenerateSpec(req, words).Password?
    ensures Have(GenerateSpec(req, words).chars, Symbol) == 0
  {
    hide Effective, EffectiveSet, Precheck, Pools, CountIf, DrawAll, GenerateSpec, NonEmpty;
    var buf;
    buf, words := ChoosingStream(req, x);
    ChosenBuffer(req, x, buf);
  }

  lemma ChosenBuffer(req: Request, x: char, buf: seq<char>)
    requires Precheck(req).None? && x in Effective(req.charset, Symbol) && !AsciiPunctuation(x)
    requires FitsPools(Pools(req), buf)
    requires forall i :: 0 <= i < |Pools(req)| ==> (x in Pools(req)[i] ==> buf[i] == x)
    ensures Have(buf, Symbol) == 0
  {
    hide Effective, EffectiveSet, Precheck, Pools, CountIf;
    forall i | 0 <= i < |buf| ensures !IsClass(Symbol)(buf[i]) {
      ChosenIsNotPunctuation(req, x, i, buf[i]);
    }
    CountNone(buf, IsClass(Symbol));
  }

  lemma ChosenIsNotPunctuation(req: Request, x: char, i: nat, c: char)
    requires Precheck(req).None? && i < req.length && c in Pools(req)[i]
    requires x in Effective(req.charset, Symbol) && !AsciiPunctuation(x)
    requires x in Pools(req)[i] ==> c == x
    ensures AsciiClass(c) != Some(Symbol)
  {
    hide Effective, EffectiveSet, Precheck;
    if AsciiClass(c) == Some(Symbol) {
      assert x in EffectiveSet(req.charset);
      var k := PoolKind(req, i);
      PoolsAreAscii(req.charset, k.value, c);
    }
  }

  /**
   * The generator satisfies the validator for every random stream exactly when it never
   * succeeds, no symbol is required, or every symbol on offer is ASCII punctuation.
   */
  lemma GeneratedValidatesIff(p: EntryPolicy)
    ensures (forall words: seq<u32> :: GenerateSpec(Resolved(p), words).Password? ==>
               ValidateSpec(GenerateSpec(Resolved(p), words).chars, p) == [])
        <==> Precheck(Resolved(p)).Some? || SymbolsCounted(Resolved(p))
  {
    hide Effective, EffectiveSet, Precheck, ValidateSpec, GenerateSpec, CountIf, Resolved;
    var req := Resolved(p);
    if Precheck(req).Some? {
      forall words: seq<u32> ensures GenerateSpec(req, words).Failed? {
        GenerateFailsExactly(req, words, Precheck(req).value);
      }
    } else if SymbolsCounted(req) {
      forall words: seq<u32> | GenerateSpec(req, words).Password?
        ensures ValidateSpec(GenerateSpec(req, words).chars, p) == []
      {
        GeneratedValidates(p, words);
      }
    } else {
      var pool := Effective(req.charset, Symbol);
      var i :| 0 <= i < |pool| && !AsciiPunctuation(pool[i]);
      var words := UncountedStream(req, pool[i]);
      var pw := GenerateSpec(req, words).chars;
      NoIssuesIff(pw, p);
      assert Have(pw, Symbol) < Minimum(req.classes, Symbol);
    }
  }

  lemma GeneratedValidates(p: EntryPolicy, words: seq<u32>)
    requires GenerateSpec(Resolved(p), words).Password? && SymbolsCounted(Resolved(p))
    ensures ValidateSpec(GenerateSpec(Resolved(p), words).chars, p) == []
  {
    hide EffectiveSet, Effective, CountIf, Resolved, GenerateSpec, ValidateSpec;
    var req := Resolved(p);
    var pw := GenerateSpec(req, words).chars;
    GeneratedMeets(req, words);
    forall k: Class ensures Have(pw, k) >= Minimum(req.classes, k) {
      MeetsIsValid(req, pw, k);
    }
    LengthInRange(req, words);
    NoIssuesIff(pw, p);
  }

  lemma LengthInRange(req: Request, words: seq<u32>)
    requires GenerateSpec(req, words).Password?
    ensures MIN_LENGTH <= req.length <= MAX_LENGTH
  {
  }
}
