/** The binary image of a captured event. */
module Serializer {
  // `Encode` and `Decode` say what the two cursor loops compute. The decoder reads
  // off the front of the bytes not yet consumed.

  import opened Bytes
  import opened GatewayTypes
  import Crc

  const EVENT_MAGIC: u32 := 0x47574E54
  const HEADER_SIZE := 33

  // ----- Encoding -----

  function EncodeStr(s: string): (b: seq<byte>)
    requires IsText(s) && |s| < 0x100
    ensures |b| == 1 + |s|
  {
    [|s|] + TextBytes(s)
  }

  function Flag(b: bool): byte {
    if b then 1 else 0
  }

  function Unsigned(i: i64): u64 {
    if i < 0 then i + 0x1_0000_0000_0000_0000 else i
  }

  function Signed(u: u64): i64 {
    if u >= 0x8000_0000_0000_0000 then u - 0x1_0000_0000_0000_0000 else u
  }

  function Header(ev: CapturedEvent): (b: seq<byte>)
    requires |ev.fields| < 0x1_0000
    ensures |b| == HEADER_SIZE
  {
    Le32(EVENT_MAGIC) + ([1, 0] + (Le64(ev.eventId)
    + (Words(ev.plcId, ev.mappingId, ev.configRevision, ev.captureSecs) + ([ev.operation] + Le16(|ev.fields|)))))
  }

  function Words(a: u32, b: u32, c: u32, d: u32): (s: seq<byte>)
    ensures |s| == 16
  {
    Le32(a) + (Le32(b) + (Le32(c) + Le32(d)))
  }

  /** The fixed-size middle of a field: two type codes, five flags, two numbers. */
  function FieldFixed(f: FieldMapping, v: FieldValue): (b: seq<byte>)
    ensures |b| == 19
  {
    FieldFlags(f, v) + (Le64(Unsigned(v.i64)) + Le32(v.f32))
  }

  function FieldFlags(f: FieldMapping, v: FieldValue): (b: seq<byte>)
    ensures |b| == 7
  {
    [f.plcType, f.sqlType, Flag(f.required), Flag(f.nullable), Flag(f.isWhereKey), Flag(v.valid), Flag(v.isNull)]
  }

  function EncodeField(f: FieldMapping, v: FieldValue): seq<byte>
    requires ValidField(f) && ValidValue(v)
  {
    EncodeStr(f.plcTag) + (EncodeStr(f.sqlColumn) + (FieldFixed(f, v) + EncodeStr(v.text)))
  }

  function EncodeFields(fs: seq<FieldMapping>, vs: seq<FieldValue>): seq<byte>
    requires ValidFields(fs, vs)
  {
    if fs == [] then [] else EncodeField(fs[0], vs[0]) + EncodeFields(fs[1..], vs[1..])
  }

  function Encode(ev: CapturedEvent): seq<byte>
    requires ValidEvent(ev)
  {
    Header(ev) + (EncodeNames(ev) + EncodeFields(ev.fields, ev.values))
  }

  function EncodeNames(ev: CapturedEvent): seq<byte>
    requires ValidEvent(ev)
  {
    EncodeStr(ev.database) + (EncodeStr(ev.schema) + EncodeStr(ev.table))
  }

  // ----- The layout, byte by byte -----

  /** The letters "TNWG", version 1, the id, four numbers, the operation, and how many fields follow. */
  lemma HeaderLayout(ev: CapturedEvent)
    requires |ev.fields| < 0x1_0000
    ensures var h := Header(ev);
      && |h| == 33 && h[..4] == [0x54, 0x4E, 0x57, 0x47] && h[4] == 1 && h[5] == 0 && Get64(h[6..]) == ev.eventId
      && Get32(h[14..]) == ev.plcId && Get32(h[18..]) == ev.mappingId && Get32(h[22..]) == ev.configRevision
      && Get32(h[26..]) == ev.captureSecs && h[30] == ev.operation && Get16(h[31..]) == |ev.fields|
  {
    assert Le32(EVENT_MAGIC) == [0x54, 0x4E, 0x57, 0x47];
    hide Get16, Get32, Get64, Le64, Le16, Le32;
    var h, last := Header(ev), [ev.operation] + Le16(|ev.fields|);
    var w4 := Le32(ev.captureSecs) + last;
    var w3 := Le32(ev.configRevision) + w4;
    var w2 := Le32(ev.mappingId) + w3;
    var w1 := Le32(ev.plcId) + w2;
    HeaderParts(ev, h, w1, w2, w3, w4, last);
    hide Header;
    Get64Le64(ev.eventId, w1);
    Get32Le32(ev.plcId, w2);
    Get32Le32(ev.mappingId, w3);
    Get32Le32(ev.configRevision, w4);
    Get32Le32(ev.captureSecs, last);
    Get16Le16(|ev.fields|, []);
    assert Le16(|ev.fields|) + [] == Le16(|ev.fields|);
  }

  lemma HeaderParts(ev: CapturedEvent, h: seq<byte>, w1: seq<byte>, w2: seq<byte>, w3: seq<byte>, w4: seq<byte>, last: seq<byte>)
    requires |ev.fields| < 0x1_0000 && h == Header(ev)
    requires w1 == Le32(ev.plcId) + w2 && w2 == Le32(ev.mappingId) + w3 && w3 == Le32(ev.configRevision) + w4
    requires w4 == Le32(ev.captureSecs) + last && last == [ev.operation] + Le16(|ev.fields|)
    ensures h[..4] == Le32(EVENT_MAGIC) && h[4] == 1 && h[5] == 0 && h[6..] == Le64(ev.eventId) + w1
    ensures h[14..] == w1 && h[18..] == w2 && h[22..] == w3 && h[26..] == w4
    ensures h[30] == ev.operation && h[31..] == Le16(|ev.fields|)
  {
    assert Words(ev.plcId, ev.mappingId, ev.configRevision, ev.captureSecs) + last == w1;
    assert h[0..] == h == Le32(EVENT_MAGIC) + ([1, 0] + (Le64(ev.eventId) + w1));
    hide *;
    Behind(h, 0, Le32(EVENT_MAGIC), [1, 0] + (Le64(ev.eventId) + w1));
    Behind(h, 4, [1, 0], Le64(ev.eventId) + w1);
    Behind(h, 6, Le64(ev.eventId), w1);
    Behind(h, 14, Le32(ev.plcId), w2);
    Behind(h, 18, Le32(ev.mappingId), w3);
    Behind(h, 22, Le32(ev.configRevision), w4);
    Behind(h, 26, Le32(ev.captureSecs), last);
    Behind(h, 30, [ev.operation], Le16(|ev.fields|));
  }

  /** What stands at a place, and what behind it. */
  lemma Behind(s: seq<byte>, i: nat, a: seq<byte>, b: seq<byte>)
    requires i <= |s| && s[i..] == a + b
    ensures i + |a| <= |s| && s[i..i + |a|] == a && s[i + |a|..] == b
    ensures forall k :: 0 <= k < |a| ==> s[i + k] == a[k]
  {
    assert s[i..][..|a|] == a && s[i..][|a|..] == b;
    assert forall k :: 0 <= k < |a| ==> s[i..][k] == a[k];
  }

  /** A field after its two names: types, five flags, the 64-bit slot in two's complement, and the float's bytes. */
  lemma FieldLayout(f: FieldMapping, v: FieldValue)
    ensures var b := FieldFixed(f, v);
      && |b| == 19 && b[0] == f.plcType && b[1] == f.sqlType && (b[2] == 1 <==> f.required) && (b[3] == 1 <==> f.nullable)
      && (b[4] == 1 <==> f.isWhereKey) && (b[5] == 1 <==> v.valid) && (b[6] == 1 <==> v.isNull)
      && (forall i :: 2 <= i < 7 ==> b[i] <= 1)
      && Get64(b[7..]) == (var n: int := v.i64; n % 0x1_0000_0000_0000_0000) && Get32(b[15..]) == v.f32
  {
    hide Get32, Get64, Le32, Le64;
    var b := FieldFixed(f, v);
    assert b[7..] == Le64(Unsigned(v.i64)) + Le32(v.f32) && b[15..] == Le32(v.f32) + [];
    Get64Le64(Unsigned(v.i64), Le32(v.f32));
    Get32Le32(v.f32, []);
  }

  /** A text: its length in one byte, and its characters. */
  lemma TextLayout(s: string)
    requires IsText(s) && |s| < 0x100
    ensures |EncodeStr(s)| == 1 + |s| && EncodeStr(s)[0] == |s|
    ensures forall i :: 0 <= i < |s| ==> EncodeStr(s)[1 + i] == s[i] as int
  {
    TextBytesAt(s);
  }

  // ----- Decoding -----

  /** A value read off the front, and the bytes after it. */
  datatype Parsed<+T> = Parsed(value: T, rest: seq<byte>)

  function UpToNul(s: string): (t: string)
    ensures |t| <= |s|
  {
    if s == [] || s[0] as int == 0 then [] else [s[0]] + UpToNul(s[1..])
  }

  function GetStr(s: seq<byte>, cap: nat): Option<Parsed<string>> {
    if |s| == 0 then None
    else
      var len := s[0];
      if |s| - 1 < len || len >= cap then None
      else Some(Parsed(UpToNul(BytesText(s[1..1 + len])), s[1 + len..]))
  }

  function GetMapping(tag: string, column: string, s: seq<byte>): FieldMapping
    requires |s| >= 19
  {
    FieldMapping(tag, s[0], column, s[1], s[2] != 0, s[3] != 0, s[4] != 0, 1.0, 0.0, MAX_STRING_VALUE_LEN)
  }

  function GetValue(s: seq<byte>, text: string): FieldValue
    requires |s| >= 19
  {
    FieldValue(s[5] != 0, s[6] != 0, s[0], Signed(Get64(s[7..])), Get32(s[15..]), text)
  }

  function GetField(s: seq<byte>): Option<Parsed<(FieldMapping, FieldValue)>> {
    match GetStr(s, MAX_TAG_LEN)
    case None => None
    case Some(Parsed(tag, s1)) =>
      match GetStr(s1, MAX_SQL_IDENT_LEN)
      case None => None
      case Some(Parsed(column, s2)) =>
        if |s2| < 19 then None
        else
          match GetStr(s2[19..], MAX_STRING_VALUE_LEN)
          case None => None
          case Some(Parsed(text, s3)) => Some(Parsed((GetMapping(tag, column, s2), GetValue(s2, text)), s3))
  }

  function GetFields(s: seq<byte>, count: nat, fs: seq<FieldMapping>, vs: seq<FieldValue>)
    : Option<(seq<FieldMapping>, seq<FieldValue>)>
    decreases count
  {
    if count == 0 then Some((fs, vs))
    else
      match GetField(s)
      case None => None
      case Some(Parsed((f, v), rest)) => GetFields(rest, count - 1, fs + [f], vs + [v])
  }

  /** Database, schema and table, in that order. */
  function GetNames(s: seq<byte>): Option<Parsed<(string, string, string)>> {
    match GetStr(s, DATABASE_LEN)
    case None => None
    case Some(Parsed(database, s1)) =>
      match GetStr(s1, SCHEMA_LEN)
      case None => None
      case Some(Parsed(schema, s2)) =>
        match GetStr(s2, TABLE_LEN)
        case None => None
        case Some(Parsed(table, s3)) => Some(Parsed((database, schema, table), s3))
  }

  function GetHeader(s: seq<byte>): CapturedEvent
    requires |s| >= HEADER_SIZE
  {
    var w := s[14..];
    CapturedEvent(Get64(s[6..]), Get32(w), Get32(w[4..]), Get32(w[8..]), Get32(w[12..]), s[30], "", "", "", [], [])
  }

  /** What follows the header. */
  function GetBody(s: seq<byte>, count: nat, header: CapturedEvent): Option<CapturedEvent> {
    match GetNames(s)
    case None => None
    case Some(Parsed((database, schema, table), s1)) =>
      match GetFields(s1, count, [], [])
      case None => None
      case Some((fs, vs)) =>
        Some(header.(database := database, schema := schema, table := table, fields := fs, values := vs))
  }

  /** The field count of an acceptable header. */
  function HeaderCount(h: seq<byte>): Option<nat>
    requires |h| == HEADER_SIZE
  {
    var count := Get16(h[31..]);
    if Get32(h) == EVENT_MAGIC && h[4] == 1 && count <= MAX_FIELDS_PER_MAPPING then Some(count) else None
  }

  function Decode(s: seq<byte>): Option<CapturedEvent> {
    if |s| < HEADER_SIZE then None
    else
      var h := s[..HEADER_SIZE];
      match HeaderCount(h)
      case None => None
      case Some(count) => GetBody(s[HEADER_SIZE..], count, GetHeader(h))
  }

  // ----- What survives: the persisted projection -----

  function PersistedField(f: FieldMapping): FieldMapping {
    f.(scale := 1.0, offset := 0.0, maxStringLength := MAX_STRING_VALUE_LEN)
  }

  /** The captured type is not stored; the mapping's type takes its place. */
  function PersistedValue(f: FieldMapping, v: FieldValue): FieldValue {
    v.(plcType := f.plcType)
  }

  function PersistedFields(fs: seq<FieldMapping>): (gs: seq<FieldMapping>)
    ensures |gs| == |fs|
  {
    if fs == [] then [] else [PersistedField(fs[0])] + PersistedFields(fs[1..])
  }

  function PersistedValues(fs: seq<FieldMapping>, vs: seq<FieldValue>): (ws: seq<FieldValue>)
    requires |fs| == |vs|
    ensures |ws| == |vs|
  {
    if vs == [] then [] else [PersistedValue(fs[0], vs[0])] + PersistedValues(fs[1..], vs[1..])
  }

  function Persisted(ev: CapturedEvent): CapturedEvent
    requires |ev.fields| == |ev.values|
  {
    ev.(fields := PersistedFields(ev.fields), values := PersistedValues(ev.fields, ev.values))
  }

  // ----- Round trip -----

  lemma {:induction false} UpToNulText(s: string)
    requires IsText(s)
    ensures UpToNul(s) == s
    decreases |s|
  {
    if s != [] {
      UpToNulText(s[1..]);
    }
  }

  lemma GetStrEncoded(s: string, cap: nat, tail: seq<byte>)
    requires Fits(s, cap) && cap <= 0x100
    ensures GetStr(EncodeStr(s) + tail, cap) == Some(Parsed(s, tail))
  {
    var b := EncodeStr(s) + tail;
    assert b[1..1 + |s|] == TextBytes(s);
    assert b[1 + |s|..] == tail;
    BytesTextInverse(s);
    UpToNulText(s);
  }

  lemma GetNamesEncoded(ev: CapturedEvent, tail: seq<byte>)
    requires ValidEvent(ev)
    ensures GetNames(EncodeNames(ev) + tail) == Some(Parsed((ev.database, ev.schema, ev.table), tail))
  {
    hide EncodeStr, GetStr;
    var t2 := EncodeStr(ev.table) + tail;
    var t1 := EncodeStr(ev.schema) + t2;
    assert EncodeNames(ev) + tail == EncodeStr(ev.database) + t1;
    GetStrEncoded(ev.database, DATABASE_LEN, t1);
    GetStrEncoded(ev.schema, SCHEMA_LEN, t2);
    GetStrEncoded(ev.table, TABLE_LEN, tail);
  }

  lemma GetFixedEncoded(f: FieldMapping, v: FieldValue, tail: seq<byte>)
    ensures GetMapping(f.plcTag, f.sqlColumn, FieldFixed(f, v) + tail) == PersistedField(f)
    ensures GetValue(FieldFixed(f, v) + tail, v.text) == PersistedValue(f, v)
  {
    hide Get64, Get32, Le64, Le32;
    var b := FieldFixed(f, v) + tail;
    assert b[7..] == Le64(Unsigned(v.i64)) + (Le32(v.f32) + tail);
    assert b[15..] == Le32(v.f32) + tail;
    Get64Le64(Unsigned(v.i64), Le32(v.f32) + tail);
    Get32Le32(v.f32, tail);
  }

  lemma GetFieldEncoded(f: FieldMapping, v: FieldValue, tail: seq<byte>)
    requires ValidField(f) && ValidValue(v)
    ensures GetField(EncodeField(f, v) + tail) == Some(Parsed((PersistedField(f), PersistedValue(f, v)), tail))
  {
    hide EncodeStr, GetStr, FieldFixed, GetMapping, GetValue, PersistedField, PersistedValue;
    var c := EncodeStr(v.text) + tail;
    var b := FieldFixed(f, v) + c;
    var a := EncodeStr(f.sqlColumn) + b;
    assert EncodeField(f, v) + tail == EncodeStr(f.plcTag) + a;
    GetStrEncoded(f.plcTag, MAX_TAG_LEN, a);
    GetStrEncoded(f.sqlColumn, MAX_SQL_IDENT_LEN, b);
    GetFixedEncoded(f, v, c);
    assert b[19..] == c;
    GetStrEncoded(v.text, MAX_STRING_VALUE_LEN, tail);
  }

  lemma {:induction false} GetFieldsEncoded(fs: seq<FieldMapping>, vs: seq<FieldValue>,
                                            gs: seq<FieldMapping>, ws: seq<FieldValue>)
    requires ValidFields(fs, vs)
    ensures GetFields(EncodeFields(fs, vs), |fs|, gs, ws)
         == Some((gs + PersistedFields(fs), ws + PersistedValues(fs, vs)))
    decreases |fs|
  {
    hide GetField, EncodeField, PersistedField, PersistedValue;
    if fs == [] {
      assert gs + PersistedFields(fs) == gs && ws + PersistedValues(fs, vs) == ws;
    } else {
      var f, v := PersistedField(fs[0]), PersistedValue(fs[0], vs[0]);
      GetFieldEncoded(fs[0], vs[0], EncodeFields(fs[1..], vs[1..]));
      GetFieldsEncoded(fs[1..], vs[1..], gs + [f], ws + [v]);
      assert gs + PersistedFields(fs) == gs + [f] + PersistedFields(fs[1..]);
      assert ws + PersistedValues(fs, vs) == ws + [v] + PersistedValues(fs[1..], vs[1..]);
    }
  }

  lemma WordsDecoded(a: u32, b: u32, c: u32, d: u32, tail: seq<byte>)
    ensures var s := Words(a, b, c, d) + tail;
      Get32(s) == a && Get32(s[4..]) == b && Get32(s[8..]) == c && Get32(s[12..]) == d
  {
    hide Get32, Le32;
    var s := Words(a, b, c, d) + tail;
    var t3 := Le32(d) + tail;
    var t2 := Le32(c) + t3;
    var t1 := Le32(b) + t2;
    assert s == Le32(a) + t1 && s[4..] == t1 && s[8..] == t2 && s[12..] == t3;
    Get32Le32(a, t1);
    Get32Le32(b, t2);
    Get32Le32(c, t3);
    Get32Le32(d, tail);
  }

  lemma HeaderDecoded(ev: CapturedEvent)
    requires |ev.fields| <= MAX_FIELDS_PER_MAPPING
    ensures HeaderCount(Header(ev)) == Some(|ev.fields|)
    ensures GetHeader(Header(ev)) == ev.(database := "", schema := "", table := "", fields := [], values := [])
  {
    hide Get16, Get32, Get64, Le16, Le32, Le64, Words;
    var s := Header(ev);
    var count := Le16(|ev.fields|) + [];
    var back := [ev.operation] + count;
    var words := Words(ev.plcId, ev.mappingId, ev.configRevision, ev.captureSecs) + back;
    var front := [1, 0] + (Le64(ev.eventId) + words);
    assert s == Le32(EVENT_MAGIC) + front;
    assert s[6..] == Le64(ev.eventId) + words && s[14..] == words;
    Get32Le32(EVENT_MAGIC, front);
    Get64Le64(ev.eventId, words);
    WordsDecoded(ev.plcId, ev.mappingId, ev.configRevision, ev.captureSecs, back);
    assert s[30..] == back && s[31..] == count;
    Get16Le16(|ev.fields|, []);
  }

  lemma BodyDecoded(ev: CapturedEvent, header: CapturedEvent)
    requires ValidEvent(ev)
    ensures GetBody(EncodeNames(ev) + EncodeFields(ev.fields, ev.values), |ev.fields|, header)
         == Some(header.(database := ev.database, schema := ev.schema, table := ev.table,
                         fields := PersistedFields(ev.fields), values := PersistedValues(ev.fields, ev.values)))
  {
    hide GetNames, GetFields, EncodeNames, EncodeFields;
    var fields := EncodeFields(ev.fields, ev.values);
    GetNamesEncoded(ev, fields);
    GetFieldsEncoded(ev.fields, ev.values, [], []);
    assert [] + PersistedFields(ev.fields) == PersistedFields(ev.fields);
    assert [] + PersistedValues(ev.fields, ev.values) == PersistedValues(ev.fields, ev.values);
  }

  /** What was serialized comes back as its persisted projection. */
  lemma DecodeEncode(ev: CapturedEvent)
    requires ValidEvent(ev)
    ensures Decode(Encode(ev)) == Some(Persisted(ev))
  {
    hide GetBody, GetHeader, EncodeNames, EncodeFields, Header, HeaderCount;
    var body := EncodeNames(ev) + EncodeFields(ev.fields, ev.values);
    HeaderDecoded(ev);
    assert Encode(ev)[..HEADER_SIZE] == Header(ev) && Encode(ev)[HEADER_SIZE..] == body;
    BodyDecoded(ev, GetHeader(Header(ev)));
  }

  // ----- Truncation -----

  /** `t` is what remains of `e` after losing at least one byte at the end. */
  ghost predicate Cut(e: seq<byte>, t: seq<byte>) {
    |t| < |e| && t == e[..|t|]
  }

  lemma CutParts(a: seq<byte>, b: seq<byte>, t: seq<byte>)
    requires Cut(a + b, t)
    ensures Cut(a, t) || (|t| >= |a| && t == a + t[|a|..] && Cut(b, t[|a|..]))
  {
    if |t| < |a| {
      assert (a + b)[..|t|] == a[..|t|];
    } else {
      assert (a + b)[..|t|] == a + b[..|t| - |a|];
    }
  }

  lemma GetStrCut(s: string, cap: nat, t: seq<byte>)
    requires Fits(s, cap) && cap <= 0x100 && Cut(EncodeStr(s), t)
    ensures GetStr(t, cap) == None
  {
  }

  lemma GetNamesCut(ev: CapturedEvent, t: seq<byte>)
    requires ValidEvent(ev) && Cut(EncodeNames(ev), t)
    ensures GetNames(t) == None
  {
    hide EncodeStr, GetStr, Cut;
    var a, b, c := EncodeStr(ev.database), EncodeStr(ev.schema), EncodeStr(ev.table);
    CutParts(a, b + c, t);
    if Cut(a, t) {
      GetStrCut(ev.database, DATABASE_LEN, t);
    } else {
      var t1 := t[|a|..];
      GetStrEncoded(ev.database, DATABASE_LEN, t1);
      CutParts(b, c, t1);
      if Cut(b, t1) {
        GetStrCut(ev.schema, SCHEMA_LEN, t1);
      } else {
        GetStrEncoded(ev.schema, SCHEMA_LEN, t1[|b|..]);
        GetStrCut(ev.table, TABLE_LEN, t1[|b|..]);
      }
    }
  }

  lemma GetFieldCut(f: FieldMapping, v: FieldValue, t: seq<byte>)
    requires ValidField(f) && ValidValue(v) && Cut(EncodeField(f, v), t)
    ensures GetField(t) == None
  {
    hide EncodeStr, GetStr, Cut, FieldFixed;
    var a, b, c, d := EncodeStr(f.plcTag), EncodeStr(f.sqlColumn), FieldFixed(f, v), EncodeStr(v.text);
    CutParts(a, b + (c + d), t);
    if Cut(a, t) {
      GetStrCut(f.plcTag, MAX_TAG_LEN, t);
    } else {
      var t1 := t[|a|..];
      GetStrEncoded(f.plcTag, MAX_TAG_LEN, t1);
      CutParts(b, c + d, t1);
      if Cut(b, t1) {
        GetStrCut(f.sqlColumn, MAX_SQL_IDENT_LEN, t1);
      } else {
        var t2 := t1[|b|..];
        GetStrEncoded(f.sqlColumn, MAX_SQL_IDENT_LEN, t2);
        CutParts(c, d, t2);
        if Cut(c, t2) {
          CutShorter(c, t2);
        } else {
          GetStrCut(v.text, MAX_STRING_VALUE_LEN, t2[19..]);
        }
      }
    }
  }

  lemma CutShorter(e: seq<byte>, t: seq<byte>)
    requires Cut(e, t)
    ensures |t| < |e|
  {
  }

  lemma {:induction false} GetFieldsCut(fs: seq<FieldMapping>, vs: seq<FieldValue>,
                                        gs: seq<FieldMapping>, ws: seq<FieldValue>, t: seq<byte>)
    requires ValidFields(fs, vs) && Cut(EncodeFields(fs, vs), t)
    ensures GetFields(t, |fs|, gs, ws) == None
    decreases |fs|
  {
    hide GetField, EncodeField, PersistedField, PersistedValue;
    if fs != [] {
      var e, rest := EncodeField(fs[0], vs[0]), EncodeFields(fs[1..], vs[1..]);
      CutParts(e, rest, t);
      if Cut(e, t) {
        GetFieldCut(fs[0], vs[0], t);
      } else {
        GetFieldEncoded(fs[0], vs[0], t[|e|..]);
        GetFieldsCut(fs[1..], vs[1..], gs + [PersistedField(fs[0])], ws + [PersistedValue(fs[0], vs[0])], t[|e|..]);
      }
    }
  }

  lemma BodyCut(ev: CapturedEvent, header: CapturedEvent, t: seq<byte>)
    requires ValidEvent(ev) && Cut(EncodeNames(ev) + EncodeFields(ev.fields, ev.values), t)
    ensures GetBody(t, |ev.fields|, header) == None
  {
    hide GetNames, GetFields, EncodeNames, EncodeFields, Cut;
    var a, b := EncodeNames(ev), EncodeFields(ev.fields, ev.values);
    CutParts(a, b, t);
    if Cut(a, t) {
      GetNamesCut(ev, t);
    } else {
      GetNamesEncoded(ev, t[|a|..]);
      GetFieldsCut(ev.fields, ev.values, [], [], t[|a|..]);
    }
  }

  /** No truncated image decodes, at any cut. */
  lemma DecodeTruncated(ev: CapturedEvent, t: seq<byte>)
    requires ValidEvent(ev) && Cut(Encode(ev), t)
    ensures Decode(t) == None
  {
    hide GetBody, GetHeader, EncodeNames, EncodeFields, Header, HeaderCount, Cut;
    var body := EncodeNames(ev) + EncodeFields(ev.fields, ev.values);
    CutParts(Header(ev), body, t);
    if Cut(Header(ev), t) {
      CutShorter(Header(ev), t);
    } else {
      HeaderDecoded(ev);
      assert t[..HEADER_SIZE] == Header(ev);
      BodyCut(ev, GetHeader(Header(ev)), t[HEADER_SIZE..]);
    }
  }

  // ----- The cursor loops -----

  /** memcpy to the cursor, if the buffer has room. */
  method Put(out: array<byte>, n: nat, bytes: seq<byte>) returns (ok: bool, m: nat)
    requires n <= out.Length
    modifies out
    ensures ok <==> n + |bytes| <= out.Length
    ensures ok ==> m == n + |bytes| && out[..m] == old(out[..n]) + bytes
  {
    ok, m := n + |bytes| <= out.Length, n;
    if ok {
      forall i | 0 <= i < |bytes| {
        out[n + i] := bytes[i];
      }
      m := n + |bytes|;
    }
  }

  lemma Join<T>(p: seq<T>, a: seq<T>, b: seq<T>, c: seq<T>, d: seq<T>)
    ensures p + a + b + c + d == p + (a + (b + (c + d)))
    ensures p + a + b + c == p + (a + (b + c))
    ensures p + a + b == p + (a + b)
  {
  }

  method PutField(f: FieldMapping, v: FieldValue, out: array<byte>, start: nat) returns (ok: bool, n: nat)
    requires ValidField(f) && ValidValue(v) && start <= out.Length
    modifies out
    ensures ok <==> start + |EncodeField(f, v)| <= out.Length
    ensures ok ==> n == start + |EncodeField(f, v)| && out[..n] == old(out[..start]) + EncodeField(f, v)
  {
    hide EncodeStr, FieldFixed;
    ghost var before := out[..start];
    Join(before, EncodeStr(f.plcTag), EncodeStr(f.sqlColumn), FieldFixed(f, v), EncodeStr(v.text));
    ok, n := Put(out, start, EncodeStr(f.plcTag));
    if !ok { return; }
    ok, n := Put(out, n, EncodeStr(f.sqlColumn));
    if !ok { return; }
    ok, n := Put(out, n, FieldFixed(f, v));
    if !ok { return; }
    ok, n := Put(out, n, EncodeStr(v.text));
  }

  method PutNames(ev: CapturedEvent, out: array<byte>, start: nat) returns (ok: bool, n: nat)
    requires ValidEvent(ev) && start <= out.Length
    modifies out
    ensures ok <==> start + |EncodeNames(ev)| <= out.Length
    ensures ok ==> n == start + |EncodeNames(ev)| && out[..n] == old(out[..start]) + EncodeNames(ev)
  {
    hide EncodeStr;
    ghost var before := out[..start];
    Join(before, EncodeStr(ev.database), EncodeStr(ev.schema), EncodeStr(ev.table), []);
    ok, n := Put(out, start, EncodeStr(ev.database));
    if !ok { return; }
    ok, n := Put(out, n, EncodeStr(ev.schema));
    if !ok { return; }
    ok, n := Put(out, n, EncodeStr(ev.table));
  }

  method PutFields(fs: seq<FieldMapping>, vs: seq<FieldValue>, out: array<byte>, start: nat)
    returns (ok: bool, n: nat)
    requires ValidFields(fs, vs) && start <= out.Length
    modifies out
    ensures ok <==> start + |EncodeFields(fs, vs)| <= out.Length
    ensures ok ==> n == start + |EncodeFields(fs, vs)| && out[..n] == old(out[..start]) + EncodeFields(fs, vs)
  {
    hide EncodeField;
    ok, n := true, start;
    ghost var before, done := out[..start], [];
    for i := 0 to |fs|
      invariant start <= n <= out.Length && ok
      invariant done + EncodeFields(fs[i..], vs[i..]) == EncodeFields(fs, vs)
      invariant out[..n] == before + done && n == start + |done|
    {
      var e, rest := EncodeField(fs[i], vs[i]), EncodeFields(fs[i + 1..], vs[i + 1..]);
      FieldsFrom(fs, vs, i);
      Join(before, done, e, rest, []);
      Join(done, e, rest, [], []);
      ok, n := PutField(fs[i], vs[i], out, n);
      if !ok { return; }
      done := done + e;
    }
  }

  lemma FieldsFrom(fs: seq<FieldMapping>, vs: seq<FieldValue>, i: nat)
    requires ValidFields(fs, vs) && i < |fs|
    ensures EncodeFields(fs[i..], vs[i..]) == EncodeField(fs[i], vs[i]) + EncodeFields(fs[i + 1..], vs[i + 1..])
  {
    assert fs[i..][1..] == fs[i + 1..] && vs[i..][1..] == vs[i + 1..];
  }

  method SerializeEvent(ev: CapturedEvent, out: array<byte>) returns (ok: bool, outLen: nat, crc: u32)
    requires ValidEvent(ev)
    modifies out
    ensures ok <==> out.Length >= 64 && |Encode(ev)| <= out.Length
    ensures ok ==> outLen == |Encode(ev)| && out[..outLen] == Encode(ev) && crc == Crc.Checksum(Encode(ev))
    ensures !ok ==> outLen == 0 && crc == 0
  {
    hide Header, EncodeNames, EncodeFields;
    ok, outLen, crc := false, 0, 0;
    if out.Length < 64 {
      return;
    }
    Join([], Header(ev), EncodeNames(ev), EncodeFields(ev.fields, ev.values), []);
    var fits, n := Put(out, 0, Header(ev));
    if !fits { return; }
    fits, n := PutNames(ev, out, n);
    if !fits { return; }
    fits, n := PutFields(ev.fields, ev.values, out, n);
    if !fits { return; }
    ok, outLen := true, n;
    crc := Crc.Crc32(out[..], outLen);
  }

  /** Reads a string at the cursor; `next` is the cursor after it. */
  method TakeStr(buf: array<byte>, lim: nat, n: nat, cap: nat) returns (ok: bool, text: string, next: nat)
    requires n <= lim <= buf.Length
    ensures ok ==> n < next <= lim && GetStr(buf[n..lim], cap) == Some(Parsed(text, buf[next..lim]))
    ensures !ok ==> GetStr(buf[n..lim], cap) == None
  {
    ok, text, next := false, "", n;
    if n >= lim { return; }
    var len := buf[n];
    next := n + 1;
    if next + len > lim || len >= cap { return; }
    SliceOfSlice(buf[..], n, lim, 1, 1 + len);
    SliceOfSlice(buf[..], n, lim, 1 + len, lim - n);
    text := UpToNul(BytesText(buf[next..next + len]));
    ok, next := true, next + len;
  }

  method TakeField(buf: array<byte>, lim: nat, n: nat) returns (ok: bool, f: FieldMapping, v: FieldValue, next: nat)
    requires n <= lim <= buf.Length
    ensures ok ==> next <= lim && GetField(buf[n..lim]) == Some(Parsed((f, v), buf[next..lim]))
    ensures !ok ==> GetField(buf[n..lim]) == None
  {
    hide GetStr, GetMapping, GetValue;
    f := FieldMapping("", PLC_UNKNOWN, "", 0, true, false, false, 1.0, 0.0, MAX_STRING_VALUE_LEN);
    v := FieldValue(false, false, PLC_UNKNOWN, 0, 0, "");
    ok, next := false, n;
    var fits, tag, column, text;
    fits, tag, next := TakeStr(buf, lim, next, MAX_TAG_LEN);
    if !fits { return; }
    fits, column, next := TakeStr(buf, lim, next, MAX_SQL_IDENT_LEN);
    if !fits || next + 7 + 8 + 4 > lim { return; }
    var fixed := buf[next..lim];
    assert fixed[19..] == buf[next + 19..lim];
    fits, text, next := TakeStr(buf, lim, next + 19, MAX_STRING_VALUE_LEN);
    if !fits { return; }
    ok, f, v := true, GetMapping(tag, column, fixed), GetValue(fixed, text);
  }

  method TakeNames(buf: array<byte>, lim: nat, n: nat)
    returns (ok: bool, database: string, schema: string, table: string, next: nat)
    requires n <= lim <= buf.Length
    ensures ok ==> next <= lim && GetNames(buf[n..lim]) == Some(Parsed((database, schema, table), buf[next..lim]))
    ensures !ok ==> GetNames(buf[n..lim]) == None
  {
    hide GetStr;
    schema, table := "", "";
    ok, database, next := TakeStr(buf, lim, n, DATABASE_LEN);
    if !ok { return; }
    ok, schema, next := TakeStr(buf, lim, next, SCHEMA_LEN);
    if !ok { return; }
    ok, table, next := TakeStr(buf, lim, next, TABLE_LEN);
  }

  /**
   * `buf` is the 1024-byte payload buffer, of which `lim` bytes are the blob.
   * A blob of 32 bytes passes the length check although the header ends one
   * byte beyond it; no event comes of it either way.
   */
  method DeserializeEvent(buf: array<byte>, lim: nat) returns (r: Option<CapturedEvent>)
    requires lim <= buf.Length && HEADER_SIZE <= buf.Length
    ensures r == Decode(buf[..lim])
  {
    hide GetField, GetNames, GetHeader, HeaderCount;
    if lim < 32 { return None; }
    var h := buf[..HEADER_SIZE];
    assert lim >= HEADER_SIZE ==> buf[..lim][..HEADER_SIZE] == h;
    assert lim >= HEADER_SIZE ==> buf[..lim][HEADER_SIZE..] == buf[HEADER_SIZE..lim];
    var accepted := HeaderCount(h);
    if accepted == None { return None; }
    var count, header := accepted.value, GetHeader(h);
    NoNames();
    assert lim == HEADER_SIZE ==> buf[HEADER_SIZE..lim] == [];
    if HEADER_SIZE >= lim { return None; } // the first string has no length byte
    var ok, database, schema, table, n := TakeNames(buf, lim, HEADER_SIZE);
    if !ok { return None; }
    var fs: seq<FieldMapping>, vs: seq<FieldValue> := [], [];
    ghost var result := GetFields(buf[n..lim], count, [], []);
    for i := 0 to count
      invariant 0 <= n <= lim
      invariant GetFields(buf[n..lim], count - i, fs, vs) == result
    {
      var f, v;
      ok, f, v, n := TakeField(buf, lim, n);
      if !ok { return None; }
      fs, vs := fs + [f], vs + [v];
    }
    r := Some(header.(database := database, schema := schema, table := table, fields := fs, values := vs));
  }

  lemma NoNames()
    ensures GetNames([]) == None
  {
  }
}
