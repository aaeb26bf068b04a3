/**
 * Bucket padding and the per-entry record code.
 *
 * A padded plaintext is `true_len (u32-LE) | body | zeros`, a multiple of 256 bytes.
 * The sealed index pads its postcard bytes this way, an entry its four fields.
 */
module Records {
  import opened Bytes
  import opened Errors

  const BUCKET: nat := 256

  const FIELD_COUNT: nat := 4

  /** `n.div_ceil(BUCKET) * BUCKET` */
  function PaddedLen(n: nat): nat { (n + BUCKET - 1) / BUCKET * BUCKET }

  function Pad(body: bytes): bytes {
    LE(ClampU32(|body|), 4) + body + Zeros(PaddedLen(4 + |body|) - (4 + |body|))
  }

  /** `strip_index_padding`, and the first half of `EntryRecord::decode`. */
  function Unpad(plaintext: bytes): Result<bytes, Error> {
    if |plaintext| < 4 then Err(MalformedRecord(MissingLengthPrefix))
    else
      var end := 4 + UnLE(plaintext[..4]);
      if end > |plaintext| then Err(MalformedRecord(LengthExceedsPlaintext))
      else Ok(plaintext[4..end])
  }

  /** The padded length is the least multiple of the bucket that holds prefix and body. */
  lemma PaddedLenIsLeast(n: nat)
    ensures PaddedLen(n) % 256 == 0
    ensures n <= PaddedLen(n) < n + 256
    ensures forall m: nat :: m % 256 == 0 && n <= m ==> PaddedLen(n) <= m
  {
    var q := (n + BUCKET - 1) / BUCKET;
    forall m: nat | m % 256 == 0 && n <= m ensures PaddedLen(n) <= m {
      assert m == 256 * (m / 256) && q <= m / 256;
    }
  }

  lemma PadSize(body: bytes)
    ensures |Pad(body)| == PaddedLen(4 + |body|)
  {
    PaddedLenIsLeast(4 + |body|);
  }

  /** Padding is lossless exactly while the length prefix does not clamp. */
  lemma UnpadOfPad(body: bytes)
    ensures Unpad(Pad(body)) == Ok(body) <==> |body| <= U32_MAX
    ensures Unpad(Pad(body)).Ok?
  {
    var p, n := Pad(body), ClampU32(|body|);
    PadSize(body);
    Widths();
    UnLEofLE(n, 4);
    assert p[..4] == LE(n, 4);
    assert p[4..4 + n] == body[..n];
  }

  // ----- Fields -------------------------------------------------------------------

  function EncodeFields(fs: seq<bytes>): bytes {
    if fs == [] then [] else PushU32Prefixed(fs[0]) + EncodeFields(fs[1..])
  }

  predicate AllText(fs: seq<bytes>) { forall i :: 0 <= i < |fs| ==> ValidUtf8(fs[i]) }

  /** Exactly `n` length-prefixed UTF-8 fields that use up all of `region`. */
  function ParseFields(region: bytes, n: nat): (r: Result<seq<bytes>, Error>)
    ensures r.Ok? ==> |r.value| == n && AllText(r.value)
    decreases n
  {
    if n == 0 then
      if region == [] then Ok([]) else Err(MalformedRecord(RegionNotConsumed))
    else if |region| < 4 then Err(MalformedRecord(FieldPrefixOverrun))
    else
      var end := 4 + UnLE(region[..4]);
      if end > |region| then Err(MalformedRecord(FieldBodyOverrun))
      else if !ValidUtf8(region[4..end]) then Err(MalformedRecord(NotUtf8))
      else
        var rest :- ParseFields(region[end..], n - 1);
        Ok([region[4..end]] + rest)
  }

  predicate ShortFields(fs: seq<bytes>) { forall i :: 0 <= i < |fs| ==> |fs[i]| <= U32_MAX }

  lemma {:induction false} EncodeFieldsConcat(fs: seq<bytes>, gs: seq<bytes>)
    ensures EncodeFields(fs + gs) == EncodeFields(fs) + EncodeFields(gs)
  {
    if fs == [] {
      assert fs + gs == gs;
    } else {
      var f, rest := fs[0], fs[1..];
      EncodeFieldsConcat(rest, gs);
      EncodeFieldsCons(f, rest);
      EncodeFieldsCons(f, rest + gs);
      assert fs == [f] + rest && fs + gs == [f] + (rest + gs);
      ConcatAssoc(PushU32Prefixed(f), EncodeFields(rest), EncodeFields(gs));
    }
  }

  lemma EncodeFieldsCons(f: bytes, fs: seq<bytes>)
    ensures EncodeFields([f] + fs) == PushU32Prefixed(f) + EncodeFields(fs)
  {
    assert ([f] + fs)[1..] == fs;
  }

  lemma EncodeNoFields(fs: seq<bytes>)
    ensures EncodeFields([]) == EncodeFields(fs[..0]) == []
  {
  }

  lemma EncodeOneField(f: bytes)
    ensures EncodeFields([f]) == PushU32Prefixed(f)
  {
    assert EncodeFields([f]) == PushU32Prefixed(f) + EncodeFields([]);
  }

  lemma ParseStep(f: bytes, tail: bytes, n: nat)
    requires |f| <= U32_MAX && ValidUtf8(f)
    ensures var r := ParseFields(tail, n);
            ParseFields(PushU32Prefixed(f) + tail, n + 1) == if r.Ok? then Ok([f] + r.value) else r
  {
    var region := PushU32Prefixed(f) + tail;
    Widths();
    UnLEofLE(|f|, 4);
    assert region[..4] == LE(|f|, 4);
    assert region[4..4 + |f|] == f;
    assert region[4 + |f|..] == tail;
  }

  lemma {:induction false} ParseOfEncode(fs: seq<bytes>)
    requires ShortFields(fs) && AllText(fs)
    ensures ParseFields(EncodeFields(fs), |fs|) == Ok(fs)
  {
    hide ValidUtf8, LE;
    if fs != [] {
      var f, rest := fs[0], fs[1..];
      assert fs == [f] + rest;
      ParseOfEncode(rest);
      ParseStep(f, EncodeFields(rest), |rest|);
    }
  }

  lemma FieldSplit(region: bytes)
    requires |region| >= 4 && 4 + UnLE(region[..4]) <= |region|
    ensures var end := 4 + UnLE(region[..4]);
            |region[4..end]| <= U32_MAX && region == PushU32Prefixed(region[4..end]) + region[end..]
  {
    Widths();
    LEofUnLE(region[..4]);
  }

  /** Only the encoding of short fields parses, and it parses to those fields. */
  lemma {:induction false} EncodeOfParse(region: bytes, n: nat)
    requires ParseFields(region, n).Ok?
    ensures ShortFields(ParseFields(region, n).value)
    ensures EncodeFields(ParseFields(region, n).value) == region
    decreases n
  {
    hide ValidUtf8, LE, UnLE, EncodeFields;
    if n == 0 {
      EncodeNoFields([]);
    } else {
      FieldSplit(region);
      var end := 4 + UnLE(region[..4]);
      EncodeOfParse(region[end..], n - 1);
      EncodeFieldsCons(region[4..end], ParseFields(region[end..], n - 1).value);
    }
  }

  // ----- Records --------------------------------------------------------------------

  datatype EntryRecord = EntryRecord(username: Text, password: Text, url: Text, notes: Text)

  function Fields(r: EntryRecord): (fs: seq<bytes>)
    ensures |fs| == FIELD_COUNT
  {
    [r.username, r.password, r.url, r.notes]
  }

  function RecordLen(r: EntryRecord): nat {
    16 + |r.username| + |r.password| + |r.url| + |r.notes|
  }

  /** What `encode_padded` writes. */
  function EncodeRecord(r: EntryRecord): bytes { Pad(EncodeFields(Fields(r))) }

  function DecodeRecord(plaintext: bytes): Result<EntryRecord, Error> {
    var region :- Unpad(plaintext);
    var fs :- ParseFields(region, FIELD_COUNT);
    Ok(EntryRecord(fs[0], fs[1], fs[2], fs[3]))
  }

  lemma FieldsLen(r: EntryRecord)
    ensures |EncodeFields(Fields(r))| == RecordLen(r)
  {
    var a, b, c, d: seq<bytes> := [r.username], [r.password], [r.url], [r.notes];
    assert Fields(r) == a + (b + (c + d));
    EncodeFieldsConcat(c, d);
    EncodeFieldsConcat(b, c + d);
    EncodeFieldsConcat(a, b + (c + d));
    EncodeOneField(r.username);
    EncodeOneField(r.password);
    EncodeOneField(r.url);
    EncodeOneField(r.notes);
  }

  /** The plaintext of an entry: its length, then username, password, URL and notes, then zeros. */
  lemma RecordLayout(r: EntryRecord)
    ensures var head := LE(ClampU32(RecordLen(r)), 4)
              + LE(ClampU32(|r.username|), 4) + r.username + LE(ClampU32(|r.password|), 4) + r.password
              + LE(ClampU32(|r.url|), 4) + r.url + LE(ClampU32(|r.notes|), 4) + r.notes;
            |head| == 4 + RecordLen(r) && EncodeRecord(r) == head + Zeros(PaddedLen(|head|) - |head|)
  {
    hide ValidUtf8, LE, PaddedLen, EncodeFields;
    FieldsLen(r);
    PaddedLenIsLeast(4 + RecordLen(r));
    FourFields(r.username, r.password, r.url, r.notes);
    FourPairs(LE(ClampU32(RecordLen(r)), 4), LE(ClampU32(|r.username|), 4), r.username,
              LE(ClampU32(|r.password|), 4), r.password, LE(ClampU32(|r.url|), 4), r.url,
              LE(ClampU32(|r.notes|), 4), r.notes);
  }

  lemma FourPairs(h: bytes, m: bytes, a: bytes, n: bytes, b: bytes, o: bytes, c: bytes, p: bytes, d: bytes)
    ensures h + ((m + a) + (n + b) + (o + c) + (p + d)) == h + m + a + n + b + o + c + p + d
  {
    var ab, abc := (m + a) + (n + b), (m + a) + (n + b) + (o + c);
    ConcatAssoc(h, abc, p + d);
    ConcatAssoc(h, ab, o + c);
    ConcatAssoc(h, m + a, n + b);
    ConcatAssoc(h, m, a);
    ConcatAssoc(h + m + a, n, b);
    ConcatAssoc(h + m + a + n + b, o, c);
    ConcatAssoc(h + m + a + n + b + o + c, p, d);
  }

  lemma FourFields(a: bytes, b: bytes, c: bytes, d: bytes)
    ensures EncodeFields([a, b, c, d])
         == PushU32Prefixed(a) + PushU32Prefixed(b) + PushU32Prefixed(c) + PushU32Prefixed(d)
  {
    hide PushU32Prefixed;
    var w, x, y, z: seq<bytes> := [a], [b], [c], [d];
    assert [a, b, c, d] == w + (x + (y + z));
    EncodeFieldsConcat(y, z);
    EncodeFieldsConcat(x, y + z);
    EncodeFieldsConcat(w, x + (y + z));
    EncodeOneField(a);
    EncodeOneField(b);
    EncodeOneField(c);
    EncodeOneField(d);
  }

  /** The padded record has the least bucket-multiple length that holds it. */
  lemma RecordSize(r: EntryRecord)
    ensures |EncodeRecord(r)| == PaddedLen(4 + RecordLen(r))
  {
    FieldsLen(r);
    PadSize(EncodeFields(Fields(r)));
  }

  /** A stored record is read back exactly when its region length fits the u32 prefix. */
  lemma RecordRoundTrip(r: EntryRecord)
    ensures DecodeRecord(EncodeRecord(r)) == Ok(r) <==> RecordLen(r) <= U32_MAX
  {
    var fs := Fields(r);
    FieldsLen(r);
    UnpadOfPad(EncodeFields(fs));
    if RecordLen(r) <= U32_MAX {
      assert ShortFields(fs);
      ParseOfEncode(fs);
    } else if DecodeRecord(EncodeRecord(r)) == Ok(r) {
      DecodedIsEncoding(EncodeRecord(r));
    }
  }

  lemma UnpadIsPrefix(plaintext: bytes)
    requires Unpad(plaintext).Ok?
    ensures var region := Unpad(plaintext).value;
            |region| <= U32_MAX && LE(|region|, 4) + region <= plaintext
  {
    var region := Unpad(plaintext).value;
    Widths();
    LEofUnLE(plaintext[..4]);
    assert plaintext[..4 + |region|] == plaintext[..4] + region;
  }

  /** A plaintext decodes only if it begins with the length prefix and fields of its record. */
  lemma DecodedIsEncoding(plaintext: bytes)
    requires DecodeRecord(plaintext).Ok?
    ensures var r := DecodeRecord(plaintext).value;
            RecordLen(r) <= U32_MAX && LE(RecordLen(r), 4) + EncodeFields(Fields(r)) <= plaintext
  {
    hide ValidUtf8, LE, UnLE;
    var region := Unpad(plaintext).value;
    var fs := ParseFields(region, FIELD_COUNT).value;
    UnpadIsPrefix(plaintext);
    EncodeOfParse(region, FIELD_COUNT);
    assert fs == [fs[0], fs[1], fs[2], fs[3]];
    FieldsLen(DecodeRecord(plaintext).value);
  }

  // ----- In-place encoding and decoding ------------------------------------------------

  method CopyInto(buf: array<byte>, off: nat, src: bytes)
    requires off + |src| <= buf.Length
    modifies buf
    ensures buf[..] == old(buf[..off]) + src + old(buf[off + |src|..])
  {
    forall i | 0 <= i < |src| { buf[off + i] := src[i]; }
  }

  method WriteU32(buf: array<byte>, off: nat, value: nat)
    requires off + 4 <= buf.Length
    modifies buf
    ensures buf[..] == old(buf[..off]) + LE(ClampU32(value), 4) + old(buf[off + 4..])
  {
    CopyInto(buf, off, LE(ClampU32(value), 4));
  }

  method PadIndexPlaintext(postcard: bytes) returns (out: bytes)
    ensures out == Pad(postcard)
  {
    hide LE, PaddedLen;
    PaddedLenIsLeast(4 + |postcard|);
    var buf := new byte[PaddedLen(4 + |postcard|)](_ => 0);
    WriteU32(buf, 0, |postcard|);
    assert buf[..] == LE(ClampU32(|postcard|), 4) + Zeros(buf.Length - 4);
    CopyInto(buf, 4, postcard);
    assert buf[..] == LE(ClampU32(|postcard|), 4) + postcard + Zeros(buf.Length - (4 + |postcard|));
    out := buf[..];
  }

  /** Appends one field at `off`, leaving the zeros after it. */
  method WriteField(buf: array<byte>, off: nat, field: bytes, ghost done: bytes) returns (next: nat)
    requires off == |done| && off + 4 + |field| <= buf.Length
    requires buf[..] == done + Zeros(buf.Length - off)
    modifies buf
    ensures next == off + 4 + |field|
    ensures buf[..] == done + PushU32Prefixed(field) + Zeros(buf.Length - next)
  {
    hide LE;
    WriteU32(buf, off, |field|);
    assert buf[..] == done + LE(ClampU32(|field|), 4) + Zeros(buf.Length - off - 4);
    CopyInto(buf, off + 4, field);
    next := off + 4 + |field|;
    assert buf[..] == done + LE(ClampU32(|field|), 4) + field + Zeros(buf.Length - next);
  }

  method EncodePadded(r: EntryRecord) returns (out: bytes)
    ensures out == EncodeRecord(r)
  {
    FieldsLen(r);
    hide ValidUtf8, LE, EncodeFields, PaddedLen, PushU32Prefixed;
    var fields := Fields(r);
    var recordLen := 16 + |r.username| + |r.password| + |r.url| + |r.notes|;
    var unpadded := 4 + recordLen;
    PaddedLenIsLeast(unpadded);
    var buf := new byte[PaddedLen(unpadded)](_ => 0);
    WriteU32(buf, 0, recordLen);
    var off := 4;
    ghost var head := LE(ClampU32(recordLen), 4);
    EncodeNoFields(fields);
    for k := 0 to |fields|
      invariant off == 4 + |EncodeFields(fields[..k])| <= unpadded
      invariant buf[..] == head + EncodeFields(fields[..k]) + Zeros(buf.Length - off)
    {
      FieldFits(fields, k);
      assert |EncodeFields(fields)| == recordLen;
      off := WriteField(buf, off, fields[k], head + EncodeFields(fields[..k]));
      ConcatAssoc(head, EncodeFields(fields[..k]), PushU32Prefixed(fields[k]));
    }
    assert fields[..|fields|] == fields;
    PadSize(EncodeFields(fields));
    out := buf[..];
  }

  lemma FieldFits(fs: seq<bytes>, k: nat)
    requires k < |fs|
    ensures EncodeFields(fs[..k + 1]) == EncodeFields(fs[..k]) + PushU32Prefixed(fs[k])
    ensures |EncodeFields(fs[..k])| + 4 + |fs[k]| <= |EncodeFields(fs)|
  {
    EncodeFieldsConcat(fs[..k], [fs[k]]);
    EncodeOneField(fs[k]);
    EncodeFieldsConcat(fs[..k + 1], fs[k + 1..]);
    assert fs[..k + 1] == fs[..k] + [fs[k]] && fs == fs[..k + 1] + fs[k + 1..];
  }

  method Decode(plaintext: bytes) returns (r: Result<EntryRecord, Error>)
    ensures r == DecodeRecord(plaintext)
  {
    hide ValidUtf8, UnLE, ParseFields;
    if |plaintext| < 4 { return Err(MalformedRecord(MissingLengthPrefix)); }
    var regionEnd := 4 + UnLE(plaintext[..4]);
    if regionEnd > |plaintext| { return Err(MalformedRecord(LengthExceedsPlaintext)); }
    var values :- DecodeFields(plaintext, regionEnd);
    return Ok(EntryRecord(values[0], values[1], values[2], values[3]));
  }

  method DecodeFields(plaintext: bytes, regionEnd: nat) returns (r: Result<seq<bytes>, Error>)
    requires 4 <= regionEnd <= |plaintext|
    ensures r == ParseFields(plaintext[4..regionEnd], FIELD_COUNT)
  {
    hide ValidUtf8, UnLE, AllText, ParseFields;
    ghost var all := ParseFields(plaintext[4..regionEnd], FIELD_COUNT);
    var cursor := 4;
    var values: seq<bytes> := [];
    PrependNothing(all);
    for k := 0 to FIELD_COUNT
      invariant |values| == k && 4 <= cursor <= regionEnd
      invariant all == Prepend(values, ParseFields(plaintext[cursor..regionEnd], FIELD_COUNT - k))
    {
      if cursor + 4 > regionEnd {
        ParseShort(plaintext[cursor..regionEnd], FIELD_COUNT - k);
        return Err(MalformedRecord(FieldPrefixOverrun));
      }
      ParseAt(plaintext, cursor, regionEnd, FIELD_COUNT - k);
      var flen := UnLE(plaintext[cursor..cursor + 4]);
      var fieldEnd := cursor + 4 + flen;
      if fieldEnd > regionEnd { return Err(MalformedRecord(FieldBodyOverrun)); }
      var field := plaintext[cursor + 4..fieldEnd];
      if !ValidUtf8(field) { return Err(MalformedRecord(NotUtf8)); }
      PrependTwice(values, field, ParseFields(plaintext[fieldEnd..regionEnd], FIELD_COUNT - k - 1));
      values := values + [field];
      cursor := fieldEnd;
    }
    ParseEnd(plaintext[cursor..regionEnd]);
    if cursor != regionEnd { return Err(MalformedRecord(RegionNotConsumed)); }
    assert values + [] == values;
    return Ok(values);
  }

  lemma ParseShort(region: bytes, n: nat)
    requires n > 0 && |region| < 4
    ensures ParseFields(region, n) == Err(MalformedRecord(FieldPrefixOverrun))
  {
  }

  lemma ParseEnd(region: bytes)
    ensures ParseFields(region, 0) == if region == [] then Ok([]) else Err(MalformedRecord(RegionNotConsumed))
  {
  }

  /** One field of `ParseFields`, in positions of the whole plaintext. */
  lemma ParseAt(b: bytes, cursor: nat, end: nat, n: nat)
    requires n > 0 && cursor + 4 <= end <= |b|
    ensures var fieldEnd := cursor + 4 + UnLE(b[cursor..cursor + 4]);
            ParseFields(b[cursor..end], n) ==
              if fieldEnd > end then Err(MalformedRecord(FieldBodyOverrun))
              else if !ValidUtf8(b[cursor + 4..fieldEnd]) then Err(MalformedRecord(NotUtf8))
              else Prepend([b[cursor + 4..fieldEnd]], ParseFields(b[fieldEnd..end], n - 1))
  {
    hide ValidUtf8, UnLE;
    var region := b[cursor..end];
    SubSlice(b, cursor, end, 0, 4);
    var flen := UnLE(region[..4]);
    if cursor + 4 + flen <= end {
      SubSlice(b, cursor, end, 4, 4 + flen);
      SubSlice(b, cursor, end, 4 + flen, end - cursor);
    }
  }
}
