/**
 * A small self-delimiting code for policies and rows. It stands in for postcard only
 * to show that the laws asked of postcard can be met together.
 */
module ToyCodec {
  import opened Bytes
  import opened Types

  type Dec<T> = Option<(T, bytes)>

  function EncNat(n: nat): bytes { if n == 0 then [0] else [1] + EncNat(n - 1) }

  function DecNat(b: bytes): Dec<nat> {
    if b == [] then None
    else if b[0] == 0 then Some((0, b[1..]))
    else match DecNat(b[1..]) case None => None case Some((n, t)) => Some((n + 1, t))
  }

  lemma {:induction false} NatRoundTrip(n: nat, t: bytes)
    ensures DecNat(EncNat(n) + t) == Some((n, t))
  {
    if n == 0 {
      assert ([0] + t)[1..] == t;
    } else {
      NatRoundTrip(n - 1, t);
      assert (EncNat(n) + t)[1..] == EncNat(n - 1) + t;
    }
  }

  function EncBytes(b: bytes): bytes { EncNat(|b|) + b }

  function DecBytes(b: bytes): Dec<bytes> {
    match DecNat(b)
    case None => None
    case Some((n, t)) => if n <= |t| then Some((t[..n], t[n..])) else None
  }

  lemma {:induction false} BytesRoundTrip(b: bytes, t: bytes)
    ensures DecBytes(EncBytes(b) + t) == Some((b, t))
  {
    NatRoundTrip(|b|, b + t);
    assert EncBytes(b) + t == EncNat(|b|) + (b + t);
  }

  function EncChars(s: seq<char>): bytes {
    if s == [] then [0] else [1] + EncNat(s[0] as int) + EncChars(s[1..])
  }

  predicate IsChar(n: nat) { n < 0xD800 || 0xE000 <= n < 0x11_0000 }

  function DecChars(b: bytes): Dec<seq<char>>
    decreases |b|
  {
    if b == [] then None
    else if b[0] == 0 then Some(([], b[1..]))
    else match DecNat(b[1..])
      case None => None
      case Some((n, t)) =>
        if |t| < |b| && IsChar(n) then
          (match DecChars(t) case None => None case Some((s, u)) => Some(([n as char] + s, u)))
        else None
  }

  lemma {:induction false} CharsRoundTrip(s: seq<char>, t: bytes)
    ensures DecChars(EncChars(s) + t) == Some((s, t))
  {
    hide EncNat, DecNat;
    var b := EncChars(s) + t;
    if s == [] {
      assert b[1..] == t;
    } else {
      var u := EncChars(s[1..]) + t;
      NatRoundTrip(s[0] as int, u);
      CharsRoundTrip(s[1..], t);
      assert b[1..] == EncNat(s[0] as int) + u;
      assert s == [s[0]] + s[1..];
    }
  }

  function SymbolsTag(s: SymbolSet): byte {
    match s case NoSymbols => 0 case Basic => 1 case Full => 2 case Custom(_) => 3
  }

  function SymbolsChars(s: SymbolSet): CharSet { if s.Custom? then s.set_ else [] }

  function EncSymbols(s: SymbolSet): bytes { [SymbolsTag(s)] + EncChars(SymbolsChars(s)) }

  function MakeSymbols(tag: byte, c: CharSet): SymbolSet {
    if tag == 0 then NoSymbols else if tag == 1 then Basic else if tag == 2 then Full else Custom(c)
  }

  function DecSymbols(b: bytes): Dec<SymbolSet> {
    if b == [] then None
    else match DecChars(b[1..])
      case None => None
      case Some((c, t)) => if StrictlyIncreasing(c) then Some((MakeSymbols(b[0], c), t)) else None
  }

  lemma {:induction false} SymbolsRoundTrip(s: SymbolSet, t: bytes)
    ensures DecSymbols(EncSymbols(s) + t) == Some((s, t))
  {
    hide EncChars, DecChars;
    var k, c := SymbolsTag(s), SymbolsChars(s);
    assert MakeSymbols(k, c) == s && StrictlyIncreasing(c);
    var b := [k] + EncChars(c) + t;
    assert b[1..] == EncChars(c) + t;
    CharsRoundTrip(c, t);
  }

  function EncBool(b: bool): bytes { if b then [1] else [0] }

  function EncFlags(c: Charset): (b: bytes)
    ensures |b| == 3
  {
    EncBool(c.lowercase) + EncBool(c.uppercase) + EncBool(c.digits)
  }

  lemma FlagsRead(c: Charset)
    ensures var f := EncFlags(c);
            c.lowercase == (f[0] == 1) && c.uppercase == (f[1] == 1) && c.digits == (f[2] == 1)
  {
  }

  function EncCharset(c: Option<Charset>): bytes {
    if c.None? then [0]
    else [1] + EncFlags(c.value) + (EncSymbols(c.value.symbols) + EncChars(c.value.disallow))
  }

  function DecSets(b: bytes): Dec<(SymbolSet, CharSet)> {
    match DecSymbols(b)
    case None => None
    case Some((s, t)) =>
      match DecChars(t)
      case None => None
      case Some((d, u)) => if StrictlyIncreasing(d) then Some(((s, d), u)) else None
  }

  function DecCharset(b: bytes): Dec<Option<Charset>> {
    if b == [] then None
    else if b[0] == 0 then Some((None, b[1..]))
    else if |b| < 4 then None
    else match DecSets(b[4..])
      case None => None
      case Some((sd, u)) => Some((Some(Charset(b[1] == 1, b[2] == 1, b[3] == 1, sd.0, sd.1)), u))
  }

  lemma {:induction false} SetsRoundTrip(s: SymbolSet, d: CharSet, t: bytes)
    ensures DecSets(EncSymbols(s) + EncChars(d) + t) == Some(((s, d), t))
  {
    hide EncSymbols, DecSymbols, EncChars, DecChars;
    SymbolsRoundTrip(s, EncChars(d) + t);
    CharsRoundTrip(d, t);
    assert EncSymbols(s) + EncChars(d) + t == EncSymbols(s) + (EncChars(d) + t);
  }

  lemma {:induction false} CharsetRoundTrip(c: Option<Charset>, t: bytes)
    ensures DecCharset(EncCharset(c) + t) == Some((c, t))
  {
    hide EncSymbols, EncChars, DecSets, EncFlags;
    var b := EncCharset(c) + t;
    if c.None? {
      assert b[1..] == t;
    } else {
      var v := c.value;
      SetsRoundTrip(v.symbols, v.disallow, t);
      assert b[4..] == EncSymbols(v.symbols) + EncChars(v.disallow) + t;
      FlagsRead(v);
      assert b[1..4] == EncFlags(v);
      assert b[1] == b[1..4][0] && b[2] == b[1..4][1] && b[3] == b[1..4][2];
    }
  }

  function EncLength(l: Option<u16>): bytes { EncNat(if l.None? then 0 else l.value + 1) }

  function DecLength(b: bytes): Dec<Option<u16>> {
    match DecNat(b)
    case None => None
    case Some((n, t)) =>
      if n == 0 then Some((None, t)) else if n <= 0x1_0000 then Some((Some(n - 1), t)) else None
  }

  lemma {:induction false} LengthRoundTrip(l: Option<u16>, t: bytes)
    ensures DecLength(EncLength(l) + t) == Some((l, t))
  {
    NatRoundTrip(if l.None? then 0 else l.value + 1, t);
  }

  function EncClasses(c: Option<RequiredClasses>): bytes {
    if c.None? then [0] else [1, c.value.minLowercase, c.value.minUppercase, c.value.minDigits, c.value.minSymbols]
  }

  function DecClasses(b: bytes): Dec<Option<RequiredClasses>> {
    if b == [] then None
    else if b[0] == 0 then Some((None, b[1..]))
    else if |b| < 5 then None
    else Some((Some(RequiredClasses(b[1], b[2], b[3], b[4])), b[5..]))
  }

  function EncNote(n: Option<Text>): bytes { if n.None? then [0] else [1] + EncBytes(n.value) }

  function DecNote(b: bytes): Dec<Option<Text>> {
    if b == [] then None
    else if b[0] == 0 then Some((None, b[1..]))
    else match DecBytes(b[1..])
      case None => None
      case Some((n, t)) => if ValidUtf8(n) then Some((Some(n), t)) else None
  }

  function EncodePolicy(p: EntryPolicy): bytes {
    EncLength(p.length) + (EncCharset(p.charset) + (EncClasses(p.classes) + EncNote(p.userNote)))
  }

  function DecTail(b: bytes): Dec<(Option<RequiredClasses>, Option<Text>)> {
    match DecClasses(b)
    case None => None
    case Some((r, v)) => match DecNote(v) case None => None case Some((n, w)) => Some(((r, n), w))
  }

  function DecodePolicy(b: bytes): Dec<EntryPolicy> {
    match DecLength(b)
    case None => None
    case Some((l, t)) =>
      match DecCharset(t)
      case None => None
      case Some((c, u)) =>
        match DecTail(u) case None => None case Some((rn, w)) => Some((EntryPolicy(l, c, rn.0, rn.1), w))
  }

  lemma {:induction false} NoteRoundTrip(n: Option<Text>, t: bytes)
    ensures DecNote(EncNote(n) + t) == Some((n, t))
  {
    if n.None? {
      assert (EncNote(n) + t)[1..] == t;
    } else {
      BytesRoundTrip(n.value, t);
      assert (EncNote(n) + t)[1..] == EncBytes(n.value) + t;
    }
  }

  lemma {:induction false} TailRoundTrip(r: Option<RequiredClasses>, n: Option<Text>, t: bytes)
    ensures DecTail(EncClasses(r) + (EncNote(n) + t)) == Some(((r, n), t))
  {
    var u := EncClasses(r) + (EncNote(n) + t);
    assert u[|EncClasses(r)|..] == EncNote(n) + t;
    NoteRoundTrip(n, t);
  }

  lemma {:induction false} PolicyRoundTrip(p: EntryPolicy, t: bytes)
    ensures DecodePolicy(EncodePolicy(p) + t) == Some((p, t))
  {
    hide EncLength, EncCharset, EncClasses, EncNote, DecLength, DecCharset, DecTail;
    var u := EncClasses(p.classes) + (EncNote(p.userNote) + t);
    var w := EncCharset(p.charset) + u;
    assert EncodePolicy(p) + t == EncLength(p.length) + w;
    LengthRoundTrip(p.length, w);
    CharsetRoundTrip(p.charset, u);
    TailRoundTrip(p.classes, p.userNote, t);
  }

  function DecodePolicyBytes(b: bytes): Option<EntryPolicy> {
    match DecodePolicy(b) case None => None case Some((p, _)) => Some(p)
  }

  function EncRow(r: Row): bytes { r.id + (EncBytes(r.body.name) + EncodePolicy(r.body.policy)) }

  function DecRow(b: bytes): Dec<Row> {
    if |b| < 16 then None
    else match DecBytes(b[16..])
      case None => None
      case Some((l, t)) =>
        match DecodePolicy(t)
        case None => None
        case Some((p, u)) => if ValidUtf8(l) then Some((Keyed(b[..16], RowBody(l, p)), u)) else None
  }

  lemma {:induction false} RowRoundTrip(r: Row, t: bytes)
    ensures DecRow(EncRow(r) + t) == Some((r, t))
  {
    hide EncodePolicy, DecodePolicy, EncBytes, DecBytes, ValidUtf8;
    var b := EncRow(r) + t;
    PolicyRoundTrip(r.body.policy, t);
    BytesRoundTrip(r.body.name, EncodePolicy(r.body.policy) + t);
    assert b[16..] == EncBytes(r.body.name) + (EncodePolicy(r.body.policy) + t);
    assert b[..16] == r.id;
  }

  function EncodeRows(rs: seq<Row>): bytes {
    if rs == [] then [0] else [1] + EncRow(rs[0]) + EncodeRows(rs[1..])
  }

  function DecodeRows(b: bytes): Option<seq<Row>>
    decreases |b|
  {
    if b == [] then None
    else if b[0] == 0 then Some([])
    else match DecRow(b[1..])
      case None => None
      case Some((r, t)) =>
        if |t| < |b| then
          (match DecodeRows(t) case None => None case Some(rs) => Some([r] + rs))
        else None
  }

  lemma RowsStep(r: Row, tail: bytes)
    ensures var b := [1] + EncRow(r) + tail;
            DecodeRows(b) == match DecodeRows(tail) case None => None case Some(rs) => Some([r] + rs)
  {
    hide EncRow, DecRow;
    var b := [1] + EncRow(r) + tail;
    assert b[1..] == EncRow(r) + tail;
    RowRoundTrip(r, tail);
  }

  lemma {:induction false} RowsRoundTrip(rs: seq<Row>)
    ensures DecodeRows(EncodeRows(rs)) == Some(rs)
  {
    if rs != [] {
      var r, rest := rs[0], rs[1..];
      assert rs == [r] + rest;
      RowsStep(r, EncodeRows(rest));
      RowsRoundTrip(rest);
    }
  }

  lemma {:induction false} RowsMonotone(rs: seq<Row>, ss: seq<Row>)
    requires rs <= ss
    ensures |EncodeRows(rs)| <= |EncodeRows(ss)|
  {
    if rs != [] {
      RowsMonotone(rs[1..], ss[1..]);
    }
  }
}
