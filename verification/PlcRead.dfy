/** Reading one tag. */
module PlcRead {
  // A tag becomes a captured value; and what becomes of an integer tag on its way
  // through the queue into the SQL text.

  import opened Bytes
  import opened GatewayTypes
  import opened Decimals
  import opened SqlText
  import Serializer
  import SqlParse

  /** A tag as the PLC returned it: a CIP type code and raw bytes. */
  datatype TagValue = TagValue(typeCode: u16, data: seq<byte>)

  /** Floating point and the generic tag text, which are opaque here. The texts are those left in 64-byte buffers. */
  datatype FloatOps = FloatOps(
    text: u32 -> string,
    wideText: u64 -> string,
    narrow: u64 -> u32,
    toInt: u32 -> i64,
    wideToInt: u64 -> i64,
    rescale: (u32, real, real) -> u32,
    rescaleInt: (i64, real, real) -> i64,
    tagText: TagValue -> string)

  ghost predicate TextsFit(ops: FloatOps) {
    && (forall x: u32 :: Fits(ops.text(x), MAX_STRING_VALUE_LEN))
    && (forall x: u64 :: Fits(ops.wideText(x), MAX_STRING_VALUE_LEN))
    && (forall t: TagValue :: Fits(ops.tagText(t), MAX_STRING_VALUE_LEN))
  }

  /** PlcTypeFromSymbol */
  function LiveType(typeCode: u16): byte {
    match typeCode % 0x1000
    case 0x0C1 => PLC_BOOL
    case 0x0C2 => PLC_SINT
    case 0x0C3 => PLC_INT
    case 0x0C4 => PLC_DINT
    case 0x0C5 => PLC_LINT
    case 0x0C6 => PLC_USINT
    case 0x0D1 => PLC_USINT
    case 0x0C7 => PLC_UINT
    case 0x0D2 => PLC_UINT
    case 0x0C8 => PLC_UDINT
    case 0x0D3 => PLC_UDINT
    case 0x0C9 => PLC_ULINT
    case 0x0D4 => PLC_ULINT
    case 0x0CA => PLC_REAL
    case 0x0CB => PLC_LREAL
    case 0x0DA => PLC_STRING
    case 0x0D0 => PLC_STRING
    case _ => PLC_UNKNOWN
  }

  /** The live type is preferred to the configured one. */
  function InferredType(f: FieldMapping, tag: TagValue): byte {
    if LiveType(tag.typeCode) != PLC_UNKNOWN then LiveType(tag.typeCode) else f.plcType
  }

  predicate IsSignedInt(t: byte) {
    t in {PLC_SINT, PLC_INT, PLC_DINT, PLC_LINT}
  }

  predicate IsInteger(t: byte) {
    IsSignedInt(t) || IsUnsigned(t)
  }

  function Width(t: byte): nat {
    if t == PLC_SINT || t == PLC_USINT then 1
    else if t == PLC_INT || t == PLC_UINT then 2
    else if t == PLC_DINT || t == PLC_UDINT then 4
    else 8
  }

  /** The casts of an integer read: what is left in the 64-bit slot. Too few bytes leave it zero. */
  function IntSlot(t: byte, data: seq<byte>): i64 {
    if |data| < Width(t) then 0
    else if t == PLC_SINT then (var v: int := data[0]; if v < 0x80 then v else v - 0x100)
    else if t == PLC_USINT then (var v: int := data[0]; v)
    else if t == PLC_INT then (var v: int := Get16(data); if v < 0x8000 then v else v - 0x1_0000)
    else if t == PLC_UINT then (var v: int := Get16(data); v)
    else if t == PLC_DINT then (var v: int := Get32(data); if v < 0x8000_0000 then v else v - 0x1_0000_0000)
    else if t == PLC_UDINT then (var v: int := Get32(data); v)
    else Serializer.Signed(Get64(data))
  }

  /** PlcReadField before scaling. */
  function RawValue(ops: FloatOps, t: byte, tag: TagValue): FieldValue {
    var data := tag.data;
    if t == PLC_BOOL then
      var on := |data| > 0 && data[0] != 0;
      FieldValue(true, false, t, if on then 1 else 0, 0, if on then "1" else "0")
    else if IsInteger(t) then FieldValue(true, false, t, IntSlot(t, data), 0, IntText(t, IntSlot(t, data)))
    else if t == PLC_REAL then
      if |data| >= 4 then FieldValue(true, false, t, ops.toInt(Get32(data)), Get32(data), ops.text(Get32(data)))
      else FieldValue(true, false, t, 0, 0, ops.text(0))
    else if t == PLC_LREAL then
      if |data| >= 8 then
        FieldValue(true, false, t, ops.wideToInt(Get64(data)), ops.narrow(Get64(data)), ops.wideText(Get64(data)))
      else if |data| >= 4 then FieldValue(true, false, t, 0, Get32(data), ops.text(Get32(data)))
      else FieldValue(true, false, t, 0, 0, "")
    else FieldValue(true, false, t, 0, 0, ops.tagText(tag))
  }

  function Rescaled(ops: FloatOps, f: FieldMapping, v: FieldValue): FieldValue {
    if f.scale == 1.0 && f.offset == 0.0 then v
    else if v.plcType == PLC_REAL || v.plcType == PLC_LREAL then
      var x := ops.rescale(v.f32, f.scale, f.offset);
      v.(f32 := x, text := ops.text(x))
    else if v.plcType != PLC_STRING && v.plcType != PLC_BOOL then
      var i := ops.rescaleInt(v.i64, f.scale, f.offset);
      v.(i64 := i, text := SignedDecimal(i))
    else v
  }

  /** PlcReadField: a value that is not valid is one that could not be read. */
  function PlcReadField(ops: FloatOps, f: FieldMapping, tag: Option<TagValue>): (v: FieldValue)
    ensures v.valid <==> tag.Some?
    ensures tag == None ==> v.plcType == f.plcType && v.i64 == 0 && v.f32 == 0 && v.text == "" && !v.isNull
  {
    match tag
    case None => FieldValue(false, false, f.plcType, 0, 0, "")
    case Some(t) => Rescaled(ops, f, RawValue(ops, InferredType(f, t), t))
  }

  // ----- The integer that a tag holds -----

  /** Bytes, the lowest first, as a number. */
  function LittleEndian(data: seq<byte>): (n: nat) {
    if data == [] then 0 else data[0] + 256 * LittleEndian(data[1..])
  }

  /** What the PLC means by those bytes: two's complement for the signed types. */
  function TagInteger(t: byte, data: seq<byte>): int
    requires |data| >= Width(t)
  {
    var n := LittleEndian(data[..Width(t)]);
    if IsSignedInt(t) && data[Width(t) - 1] >= 0x80 then n - Power256(Width(t)) else n
  }

  function Power256(k: nat): (p: nat)
    ensures p > 0
  {
    if k == 0 then 1 else 256 * Power256(k - 1)
  }

  lemma LittleEndianStep(data: seq<byte>, k: nat)
    requires 0 < k <= |data|
    ensures LittleEndian(data[..k]) == data[0] + 256 * LittleEndian(data[1..][..k - 1])
  {
    assert data[..k][1..] == data[1..][..k - 1];
  }

  lemma LittleEndian1(data: seq<byte>)
    requires |data| >= 1
    ensures LittleEndian(data[..1]) == data[0]
  {
    LittleEndianStep(data, 1);
    assert data[1..][..0] == [];
  }

  lemma LittleEndian2(data: seq<byte>)
    requires |data| >= 2
    ensures LittleEndian(data[..2]) == Get16(data)
  {
    hide LittleEndian;
    LittleEndianStep(data, 2);
    LittleEndian1(data[1..]);
  }

  lemma {:induction false} LittleEndianSplit(data: seq<byte>, j: nat, k: nat)
    requires j + k <= |data|
    ensures LittleEndian(data[..j + k]) == LittleEndian(data[..j]) + Power256(j) * LittleEndian(data[j..][..k])
    decreases j
  {
    if j == 0 {
      assert data[..0] == [] && data[0..] == data;
    } else {
      hide LittleEndian;
      LittleEndianStep(data, j + k);
      LittleEndianStep(data, j);
      LittleEndianSplit(data[1..], j - 1, k);
      assert data[1..][j - 1..] == data[j..];
      Distribute(LittleEndian(data[1..][..j - 1]), Power256(j - 1), LittleEndian(data[j..][..k]));
    }
  }

  lemma Distribute(a: nat, p: nat, b: nat)
    ensures 256 * (a + p * b) == 256 * a + (256 * p) * b
  {
  }

  lemma LittleEndian4(data: seq<byte>)
    requires |data| >= 4
    ensures LittleEndian(data[..4]) == Get32(data) && Power256(2) == 0x1_0000
  {
    hide LittleEndian, Get16;
    assert Power256(2) == 0x1_0000;
    LittleEndianSplit(data, 2, 2);
    LittleEndian2(data);
    LittleEndian2(data[2..]);
  }

  lemma LittleEndian8(data: seq<byte>)
    requires |data| >= 8
    ensures LittleEndian(data[..8]) == Get64(data)
    ensures Power256(4) == 0x1_0000_0000 && Power256(8) == 0x1_0000_0000_0000_0000
  {
    hide LittleEndian, Get32;
    assert Power256(4) == 0x1_0000_0000;
    assert Power256(6) == 0x1_0000_0000_0000;
    LittleEndianSplit(data, 4, 4);
    LittleEndian4(data);
    LittleEndian4(data[4..]);
  }

  lemma TopByte(data: seq<byte>)
    ensures |data| >= 2 ==> (data[1] >= 0x80 <==> Get16(data) >= 0x8000)
    ensures |data| >= 4 ==> (data[3] >= 0x80 <==> Get32(data) >= 0x8000_0000)
    ensures |data| >= 8 ==> (data[7] >= 0x80 <==> Get64(data) >= 0x8000_0000_0000_0000)
  {
  }

  /** The slot holds the tag's integer, but for the largest unsigned ones, which wrap around. */
  lemma SlotExact(t: byte, data: seq<byte>)
    requires IsInteger(t) && |data| >= Width(t)
    ensures var n, i: int := TagInteger(t, data), IntSlot(t, data);
      if t == PLC_ULINT then n == AsUnsigned(IntSlot(t, data)) else n == i
    ensures -0x8000_0000_0000_0000 <= TagInteger(t, data) < 0x1_0000_0000_0000_0000
    ensures IsUnsigned(t) <==> !IsSignedInt(t)
    ensures IsUnsigned(t) ==> TagInteger(t, data) >= 0
    ensures TagInteger(t, data) >= 0x8000_0000_0000_0000 ==> t == PLC_ULINT
  {
    hide LittleEndian, Get16, Get32, Get64;
    TopByte(data);
    assert Power256(1) == 0x100;
    if Width(t) == 1 {
      LittleEndian1(data);
    } else if Width(t) == 2 {
      LittleEndian2(data);
      assert Power256(2) == 0x1_0000;
    } else if Width(t) == 4 {
      LittleEndian4(data);
      assert Power256(4) == 0x1_0000_0000;
    } else {
      LittleEndian8(data);
    }
  }

  lemma SlotText(t: byte, data: seq<byte>)
    requires IsInteger(t) && |data| >= Width(t)
    ensures IntText(t, IntSlot(t, data)) == SignedDecimal(TagInteger(t, data))
  {
    hide Decimal, IntSlot, TagInteger;
    SlotExact(t, data);
  }

  // ----- From the tag to the SQL text -----

  // ----- By the CIP type codes -----

  function Unsigned(n: nat, data: seq<byte>): Option<int> {
    if |data| < n then None else Some(LittleEndian(data[..n]))
  }

  function TwosComplement(n: nat, data: seq<byte>): Option<int> {
    if |data| < n then None
    else
      var v := LittleEndian(data[..n]);
      Some(if 2 * v < Power256(n) then v else v - Power256(n))
  }

  /** The integer that a tag of an elementary CIP data type holds (CIP Volume 1, Appendix C); None for any other tag. */
  function TagNumber(tag: TagValue): Option<int> {
    match tag.typeCode % 0x1000
    case 0x0C2 => TwosComplement(1, tag.data)        // SINT
    case 0x0C3 => TwosComplement(2, tag.data)        // INT
    case 0x0C4 => TwosComplement(4, tag.data)        // DINT
    case 0x0C5 => TwosComplement(8, tag.data)        // LINT
    case 0x0C6 | 0x0D1 => Unsigned(1, tag.data)      // USINT, BYTE
    case 0x0C7 | 0x0D2 => Unsigned(2, tag.data)      // UINT, WORD
    case 0x0C8 | 0x0D3 => Unsigned(4, tag.data)      // UDINT, DWORD
    case 0x0C9 | 0x0D4 => Unsigned(8, tag.data)      // ULINT, LWORD
    case _ => None
  }

  /** The type that the reader infers from the code reads that integer. */
  lemma NumberByCode(tag: TagValue)
    ensures var t := LiveType(tag.typeCode);
      && (TagNumber(tag).Some? <==> IsInteger(t) && |tag.data| >= Width(t))
      && (TagNumber(tag).Some? ==> TagNumber(tag).value == TagInteger(t, tag.data))
  {
    hide LittleEndian;
    TopByte(tag.data);
    assert Power256(1) == 0x100;
    if |tag.data| >= 1 { LittleEndian1(tag.data); }
    if |tag.data| >= 2 { LittleEndian2(tag.data); }
    if |tag.data| >= 4 { LittleEndian4(tag.data); }
    if |tag.data| >= 8 { LittleEndian8(tag.data); }
  }

  /** The gateway's own numbers for the types, by CIP type code; 6 stands for an unknown one. */
  function TypeByCode(typeCode: u16): byte {
    match typeCode % 0x1000
    case 0x0C1 => 0
    case 0x0C2 => 1
    case 0x0C3 => 2
    case 0x0C4 => 3
    case 0x0CA => 4
    case 0x0D0 | 0x0DA => 5
    case 0x0C6 | 0x0D1 => 7
    case 0x0C7 | 0x0D2 => 8
    case 0x0C8 | 0x0D3 => 9
    case 0x0C5 => 10
    case 0x0C9 | 0x0D4 => 11
    case 0x0CB => 12
    case _ => 6
  }

  lemma LiveTypeByCode(typeCode: u16)
    ensures LiveType(typeCode) == TypeByCode(typeCode)
  {
  }

  /** How a value looks that was read under a type. */
  ghost predicate ReadAs(v: FieldValue, plcType: byte, i: i64, f32: u32, text: string) {
    v == FieldValue(true, false, plcType, i, f32, text)
  }

  /** The tags that hold no integer, unless they are rescaled; a tag of no known code is read as the configured type says. */
  lemma OtherTagsRead(ops: FloatOps, f: FieldMapping, tag: TagValue)
    requires f.scale == 1.0 && f.offset == 0.0
    ensures var v, code, data := PlcReadField(ops, f, Some(tag)), tag.typeCode % 0x1000, tag.data;
      && (code == 0x0C1 && data != [] && data[0] != 0 ==> ReadAs(v, 0, 1, 0, "1"))
      && (code == 0x0C1 && (data == [] || data[0] == 0) ==> ReadAs(v, 0, 0, 0, "0"))
      && (code == 0x0CA && |data| >= 4 ==> ReadAs(v, 4, ops.toInt(Get32(data)), Get32(data), ops.text(Get32(data))))
      && (code == 0x0CB && |data| >= 8
          ==> ReadAs(v, 12, ops.wideToInt(Get64(data)), ops.narrow(Get64(data)), ops.wideText(Get64(data))))
      && (code in {0x0D0, 0x0DA} ==> ReadAs(v, 5, 0, 0, ops.tagText(tag)))
      && (TypeByCode(tag.typeCode) == 6 ==> v.plcType == f.plcType)
  {
    hide Get32, Get64, IntSlot, IntText;
  }

  /** An integer tag of too few bytes reads as zero, and as valid. */
  lemma ShortTagRead(ops: FloatOps, f: FieldMapping, tag: TagValue)
    requires f.scale == 1.0 && f.offset == 0.0 && TypeByCode(tag.typeCode) in {1, 2, 3, 7, 8, 9, 10, 11} && TagNumber(tag) == None
    ensures ReadAs(PlcReadField(ops, f, Some(tag)), TypeByCode(tag.typeCode), 0, 0, "0")
  {
    hide TagNumber;
    NumberByCode(tag);
    LiveTypeByCode(tag.typeCode);
    OneLetter();
  }

  /** Scaling: a float is rescaled as a float, an integer as an integer, a text or a BOOL not at all. */
  lemma Scaled(ops: FloatOps, f: FieldMapping, tag: TagValue)
    requires f.scale != 1.0 || f.offset != 0.0
    ensures var v, raw := PlcReadField(ops, f, Some(tag)), PlcReadField(ops, f.(scale := 1.0, offset := 0.0), Some(tag));
      && (raw.plcType in {4, 12}
          ==> var x := ops.rescale(raw.f32, f.scale, f.offset); v == raw.(f32 := x, text := ops.text(x)))
      && (raw.plcType in {0, 5} ==> v == raw)
      && (raw.plcType !in {0, 4, 5, 12}
          ==> var i := ops.rescaleInt(raw.i64, f.scale, f.offset); v == raw.(i64 := i, text := SignedDecimal(i)))
  {
    hide RawValue, SignedDecimal;
  }

  /** An integer tag, read whole and not rescaled. */
  ghost predicate WholeInteger(f: FieldMapping, tag: TagValue) {
    TagNumber(tag).Some? && f.scale == 1.0 && f.offset == 0.0
  }

  /** The standard library reads back the integers that it prints, and the float with no bit set is zero. */
  ghost predicate SaneFormats(fmt: Formats) {
    fmt.toInt(0) == 0 && forall i: i64 :: fmt.parseInt(SignedDecimal(i)) == i
  }

  /** It reads as valid, under the type of its code, with its own number as text and in the 64-bit slot, where the largest wrap. */
  lemma IntegerRead(ops: FloatOps, f: FieldMapping, tag: TagValue)
    requires WholeInteger(f, tag)
    ensures var n := TagNumber(tag).value;
      && -0x8000_0000_0000_0000 <= n < 0x1_0000_0000_0000_0000
      && PlcReadField(ops, f, Some(tag))
         == FieldValue(true, false, TypeByCode(tag.typeCode),
                       if n < 0x8000_0000_0000_0000 then n else n - 0x1_0000_0000_0000_0000, 0, SignedDecimal(n))
  {
    hide IntSlot, TagInteger, IntText, SignedDecimal, TagNumber, TypeByCode, LiveType;
    var t := LiveType(tag.typeCode);
    NumberByCode(tag);
    LiveTypeByCode(tag.typeCode);
    SlotText(t, tag.data);
    SlotExact(t, tag.data);
  }

  lemma IntegerCode(tag: TagValue)
    requires TagNumber(tag).Some?
    ensures var t := TypeByCode(tag.typeCode);
      t !in {PLC_BOOL, PLC_REAL, PLC_STRING, PLC_LREAL} && (IsUnsigned(t) ==> TagNumber(tag).value >= 0)
      && (TagNumber(tag).value >= 0x8000_0000_0000_0000 ==> IsUnsigned(t))
  {
    NumberByCode(tag);
    LiveTypeByCode(tag.typeCode);
    SlotExact(LiveType(tag.typeCode), tag.data);
  }

  lemma DecimalInjective(a: int, b: int)
    ensures SignedDecimal(a) == SignedDecimal(b) <==> a == b
    ensures SignedDecimal(a)[0] == '-' <==> a < 0
  {
    hide Decimal, Written;
    var m, n := if a < 0 then -a else a, if b < 0 then -b else b;
    WrittenDecimal(m);
    WrittenDecimal(n);
    assert IsDigit(Decimal(m)[0]) && IsDigit(Decimal(n)[0]);
    if a < 0 && b < 0 && SignedDecimal(a) == SignedDecimal(b) {
      assert SignedDecimal(a)[1..] == Decimal(m) && SignedDecimal(b)[1..] == Decimal(n);
    }
  }

  /** The numbers that the configured type reads as they are: REAL only zero, the unsigned types none below zero. */
  predicate WrittenRight(configured: byte, n: int) {
    if configured == PLC_REAL then n == 0
    else if configured in {PLC_USINT, PLC_UINT, PLC_UDINT, PLC_ULINT} then n >= 0
    else n < 0x8000_0000_0000_0000
  }

  /**
   * An integer tag bound for an integer column: once through the queue, its
   * statement carries the tag's own number exactly under that condition. The
   * queue has replaced the live type, under which it always would.
   */
  lemma NumberWritten(ops: FloatOps, fmt: Formats, f: FieldMapping, tag: TagValue)
    requires WholeInteger(f, tag) && f.sqlType in {1, 2, 3, 9} && SaneFormats(fmt)
    ensures var v, n := PlcReadField(ops, f, Some(tag)), TagNumber(tag).value;
      && Meaning(fmt, f, v) == Some(Bare(SignedDecimal(n)))
      && (KeptMeaning(fmt, f, v) == Some(Bare(SignedDecimal(n))) <==> WrittenRight(f.plcType, n))
  {
    hide TagNumber, TypeByCode, SignedDecimal, Decimal, SaneFormats, PlcReadField;
    var n := TagNumber(tag).value;
    var slot := if n < 0x8000_0000_0000_0000 then n else n - 0x1_0000_0000_0000_0000;
    IntegerRead(ops, f, tag);
    IntegerCode(tag);
    KeptIsRetyped(fmt, f, PlcReadField(ops, f, Some(tag)));
    ReadBack(fmt, f, slot, n);
  }

  lemma ReadBack(fmt: Formats, f: FieldMapping, slot: i64, n: int)
    requires SaneFormats(fmt) && -0x8000_0000_0000_0000 <= n < 0x1_0000_0000_0000_0000
    requires var i: int := slot; i == if n < 0x8000_0000_0000_0000 then n else n - 0x1_0000_0000_0000_0000
    ensures IntText(PLC_REAL, fmt.toInt(0)) == SignedDecimal(n) <==> n == 0
    ensures IntText(PLC_STRING, fmt.parseInt(SignedDecimal(n))) == SignedDecimal(n) <==> n < 0x8000_0000_0000_0000
    ensures IntText(PLC_ULINT, slot) == SignedDecimal(n) <==> n >= 0
    ensures IntText(PLC_LINT, slot) == SignedDecimal(n) <==> n < 0x8000_0000_0000_0000
  {
    hide SignedDecimal, Decimal;
    var i: int := slot;
    DecimalInjective(0, n);
    DecimalInjective(fmt.parseInt(SignedDecimal(n)), n);
    DecimalInjective(i, n);
    DecimalInjective(AsUnsigned(slot), n);
    assert IntText(PLC_ULINT, slot) == SignedDecimal(AsUnsigned(slot)) by { UnsignedText(AsUnsigned(slot)); }
    if n < 0x8000_0000_0000_0000 {
      assert fmt.parseInt(SignedDecimal(slot)) == slot;
    }
  }

  lemma UnsignedText(n: nat)
    ensures SignedDecimal(n) == Decimal(n)
  {
  }

  /** A text column carries the tag's number whatever type is configured: the text was made under the live one. */
  lemma TextWritten(ops: FloatOps, fmt: Formats, f: FieldMapping, tag: TagValue)
    requires WholeInteger(f, tag) && f.sqlType !in {0, 1, 2, 3, 4, 5, 9}
    ensures KeptMeaning(fmt, f, PlcReadField(ops, f, Some(tag))) == Some(Text(SignedDecimal(TagNumber(tag).value)))
  {
    hide TagNumber, Trim, SignedDecimal, PlcReadField, TypeByCode;
    IntegerRead(ops, f, tag);
    KeptIsRetyped(fmt, f, PlcReadField(ops, f, Some(tag)));
    NumberTrimmed(TagNumber(tag).value);
  }

  lemma NumberTrimmed(n: int)
    ensures SignedDecimal(n) != "" && Trim(SignedDecimal(n)) == SignedDecimal(n)
  {
    hide Decimal, Written;
    WrittenDecimal(if n < 0 then -n else n);
  }

  // ----- The other columns, and REAL tags -----

  /**
   * What the C library's formats make of integers: small ones are printed
   * exactly, up to 2^53 a text is read as the same float as the integer, and no
   * other integer prints as zero or one.
   */
  ghost predicate StandardFormats(fmt: Formats) {
    && SaneFormats(fmt) && fmt.isZero(0) && fmt.fixed(0) == "0.000000"
    && (forall k: i64 :: -0x100_0000 <= k <= 0x100_0000 ==> fmt.fixed(fmt.ofInt(k)) == SignedDecimal(k) + ".000000")
    && (forall k: i64 :: -0x20_0000_0000_0000 <= k <= 0x20_0000_0000_0000 ==> fmt.parseFloat(SignedDecimal(k)) == fmt.ofInt(k))
    && (forall k: i64 :: k !in {0, 1} ==> fmt.fixed(fmt.ofInt(k)) !in {"0.000000", "1.000000"})
  }

  /** What the statement carries once the event has been through the queue. */
  function KeptMeaning(fmt: Formats, f: FieldMapping, v: FieldValue): Option<Literal> {
    Meaning(fmt, Serializer.PersistedField(f), Serializer.PersistedValue(f, v))
  }

  lemma KeptIsRetyped(fmt: Formats, f: FieldMapping, v: FieldValue)
    ensures KeptMeaning(fmt, f, v) == Meaning(fmt, f, v.(plcType := f.plcType))
  {
    hide Decimal, SignedDecimal, Trim;
  }

  lemma ZeroText(n: int)
    ensures SignedDecimal(n) == "0" <==> n == 0
    ensures SignedDecimal(n)[0] !in {'f', 'F'}
  {
    hide Decimal, Written;
    DecimalInjective(n, 0);
    WrittenDecimal(if n < 0 then -n else n);
    assert SignedDecimal(0) == "0" by { OneLetter(); }
  }

  /** An integer tag in a BIT column: right but for a tag configured as REAL, which always reads as zero. */
  lemma BitWritten(ops: FloatOps, fmt: Formats, f: FieldMapping, tag: TagValue)
    requires WholeInteger(f, tag) && f.sqlType == 0 && StandardFormats(fmt)
    ensures var v, n := PlcReadField(ops, f, Some(tag)), TagNumber(tag).value;
      && Meaning(fmt, f, v) == Some(Bare(if n != 0 then "1" else "0"))
      && (KeptMeaning(fmt, f, v) == Meaning(fmt, f, v) <==> f.plcType != PLC_REAL || n == 0)
  {
    hide TagNumber, SignedDecimal, Decimal, PlcReadField, TypeByCode;
    IntegerRead(ops, f, tag);
    IntegerCode(tag);
    ZeroText(TagNumber(tag).value);
    KeptIsRetyped(fmt, f, PlcReadField(ops, f, Some(tag)));
  }

  /** An integer tag in a REAL or FLOAT column: configured as REAL it reads as zero, as BOOL as zero or one. */
  lemma FloatWritten(ops: FloatOps, fmt: Formats, f: FieldMapping, tag: TagValue)
    requires WholeInteger(f, tag) && f.sqlType in {4, 5} && StandardFormats(fmt)
    ensures var v, n := PlcReadField(ops, f, Some(tag)), TagNumber(tag).value;
      && (-0x8000_0000_0000_0000 <= n < 0x8000_0000_0000_0000 ==> Meaning(fmt, f, v) == Some(Bare(fmt.fixed(fmt.ofInt(n)))))
      && (f.plcType != PLC_STRING || -0x20_0000_0000_0000 <= n <= 0x20_0000_0000_0000
          ==> (KeptMeaning(fmt, f, v) == Meaning(fmt, f, v)
               <==> (f.plcType == PLC_REAL ==> n == 0) && (f.plcType == PLC_BOOL ==> n in {0, 1})))
  {
    hide TagNumber, SignedDecimal, Decimal, PlcReadField, TypeByCode;
    IntegerRead(ops, f, tag);
    IntegerCode(tag);
    KeptIsRetyped(fmt, f, PlcReadField(ops, f, Some(tag)));
    assert fmt.fixed(fmt.ofInt(0)) == "0.000000" && fmt.fixed(fmt.ofInt(1)) == "1.000000" by { OneLetter(); }
  }

  /** A REAL tag read whole and not rescaled; its text is a number with a decimal point, or none at all. */
  ghost predicate WholeReal(ops: FloatOps, f: FieldMapping, tag: TagValue) {
    && tag.typeCode % 0x1000 == 0x0CA && |tag.data| >= 4 && f.scale == 1.0 && f.offset == 0.0
    && var text := ops.text(Get32(tag.data));
      text != "" && text != "0" && text[0] !in {'f', 'F'}
  }

  /** How a REAL tag's number must be for the configured type to leave the statement as it is. */
  predicate RealWrittenRight(fmt: Formats, f: FieldMapping, x: u32, text: string) {
    if f.plcType == PLC_REAL then true
    else if f.sqlType == 0 then
      if f.plcType == PLC_STRING then !fmt.isZero(x) else fmt.isZero(x) == (fmt.toInt(x) == 0)
    else if f.sqlType in {1, 2, 3, 9} then
      if f.plcType == PLC_STRING then fmt.parseInt(text) == fmt.toInt(x)
      else f.plcType in {PLC_USINT, PLC_UINT, PLC_UDINT, PLC_ULINT} ==> fmt.toInt(x) >= 0
    else if f.sqlType in {4, 5} then
      if f.plcType == PLC_STRING then fmt.fixed(fmt.parseFloat(text)) == fmt.fixed(x)
      else if f.plcType == PLC_BOOL then fmt.fixed(x) == if fmt.toInt(x) == 0 then "0.000000" else "1.000000"
      else fmt.fixed(fmt.ofInt(fmt.toInt(x))) == fmt.fixed(x)
    else true
  }

  /**
   * A REAL tag in any column. Configured as text it is true in a BIT column even
   * when it is zero; configured as an integer it loses its fraction in a FLOAT
   * column, and below zero reads as a huge number where the type is unsigned.
   */
  lemma RealWritten(ops: FloatOps, fmt: Formats, f: FieldMapping, tag: TagValue)
    requires WholeReal(ops, f, tag) && StandardFormats(fmt) && ops.toInt == fmt.toInt
    ensures var v, x := PlcReadField(ops, f, Some(tag)), Get32(tag.data);
      KeptMeaning(fmt, f, v) == Meaning(fmt, f, v) <==> RealWrittenRight(fmt, f, x, ops.text(x))
  {
    hide SignedDecimal, Decimal, Trim;
    var v, x := PlcReadField(ops, f, Some(tag)), Get32(tag.data);
    KeptIsRetyped(fmt, f, v);
    var i := fmt.toInt(x);
    assert fmt.fixed(fmt.ofInt(0)) == "0.000000" && fmt.fixed(fmt.ofInt(1)) == "1.000000" by { OneLetter(); }
    DecimalInjective(i, fmt.parseInt(ops.text(x)));
    DecimalInjective(i, AsUnsigned(i));
    UnsignedText(AsUnsigned(i));
  }

  lemma OneLetter()
    ensures SignedDecimal(0) == "0" && SignedDecimal(1) == "1" && SignedDecimal(7) == "7"
    ensures Trim("0") == "0" && Trim("1") == "1"
  {
  }

  // ----- Which types are told apart -----

  /** A value without text. */
  const TELLTALE := FieldValue(true, false, PLC_UNKNOWN, -1, 0, "")

  /** The text that tells the two readings apart; text columns need none. */
  function TelltaleText(f: FieldMapping, a: SqlParse.Reading, b: SqlParse.Reading): string {
    if f.sqlType == SQL_BIT then (if SqlParse.ReadsReal in {a, b} then "7" else "0")
    else if IsIntType(f.sqlType) || IsFloatType(f.sqlType) then "7"
    else ""
  }

  /**
   * The condition under which the queue keeps a statement cannot be relaxed:
   * whatever the library's formats, two types that a column does not read alike
   * are told apart by a value, and those that it reads alike by none.
   */
  lemma TypesDiffer(fmt: Formats, f: FieldMapping, t: byte, u: byte)
    requires StandardFormats(fmt)
    ensures (forall v: FieldValue :: v.valid && !v.isNull ==> Meaning(fmt, f, v.(plcType := t)) == Meaning(fmt, f, v.(plcType := u)))
      <==> SqlParse.ReadingOf(f, TELLTALE, t) == SqlParse.ReadingOf(f, TELLTALE, u)
  {
    hide Decimal, Trim, Meaning, StandardFormats, SqlParse.ReadingOf;
    var a, b := SqlParse.ReadingOf(f, TELLTALE, t), SqlParse.ReadingOf(f, TELLTALE, u);
    if a == b {
      forall v: FieldValue | v.valid && !v.isNull
        ensures Meaning(fmt, f, v.(plcType := t)) == Meaning(fmt, f, v.(plcType := u))
      {
        ReadAlike(fmt, f, v, t, u);
      }
    } else {
      var v := TELLTALE.(text := TelltaleText(f, a, b));
      ToldApart(fmt, f, t, u);
      assert Meaning(fmt, f, v.(plcType := t)) != Meaning(fmt, f, v.(plcType := u));
    }
  }

  lemma ReadAlike(fmt: Formats, f: FieldMapping, v: FieldValue, t: byte, u: byte)
    requires SqlParse.ReadingOf(f, TELLTALE, t) == SqlParse.ReadingOf(f, TELLTALE, u) && v.valid && !v.isNull
    ensures Meaning(fmt, f, v.(plcType := t)) == Meaning(fmt, f, v.(plcType := u))
  {
    hide Decimal, SignedDecimal, Trim;
  }

  lemma ToldApart(fmt: Formats, f: FieldMapping, t: byte, u: byte)
    requires StandardFormats(fmt) && SqlParse.ReadingOf(f, TELLTALE, t) != SqlParse.ReadingOf(f, TELLTALE, u)
    ensures var v := TELLTALE.(text := TelltaleText(f, SqlParse.ReadingOf(f, TELLTALE, t), SqlParse.ReadingOf(f, TELLTALE, u)));
      Meaning(fmt, f, v.(plcType := t)) != Meaning(fmt, f, v.(plcType := u))
  {
    hide Decimal, Trim, SignedDecimal, StandardFormats;
    TelltaleParts(fmt);
    OneLetter();
    if f.sqlType == SQL_BIT {
    } else if IsFloatType(f.sqlType) {
      TelltaleFloats(fmt);
    } else if IsIntType(f.sqlType) {
      TelltaleTexts();
    } else {
      TelltaleFloats(fmt);
      TelltaleTexts();
    }
  }

  lemma TelltaleParts(fmt: Formats)
    requires StandardFormats(fmt)
    ensures fmt.toInt(0) == 0 && fmt.isZero(0) && fmt.parseInt("7") == 7 && fmt.fixed(0) == "0.000000"
  {
    hide Decimal;
    OneLetter();
    assert fmt.parseInt(SignedDecimal(7)) == 7;
  }

  /** Minus one, zero, one and seven as floats. */
  lemma TelltaleFloats(fmt: Formats)
    requires StandardFormats(fmt)
    ensures var a, b, c, d := fmt.fixed(0), fmt.fixed(fmt.ofInt(1)), fmt.fixed(fmt.ofInt(-1)), fmt.fixed(fmt.parseFloat("7"));
      a != b && a != c && a != d && b != c && b != d && c != d
    ensures Trim(fmt.fixed(0)) == "0.000000"
  {
    hide Decimal, Trim;
    OneLetter();
    assert fmt.parseFloat(SignedDecimal(7)) == fmt.ofInt(7);
    assert fmt.fixed(fmt.ofInt(7)) == SignedDecimal(7) + ".000000";
    assert fmt.fixed(fmt.ofInt(1)) == SignedDecimal(1) + ".000000";
    assert fmt.fixed(fmt.ofInt(-1)) == SignedDecimal(-1) + ".000000";
    assert SignedDecimal(-1)[0] == '-';
    assert fmt.fixed(0)[0] == '0' && fmt.fixed(fmt.ofInt(1))[0] == '1' && fmt.fixed(fmt.ofInt(-1))[0] == '-';
    assert fmt.fixed(fmt.parseFloat("7"))[0] == '7';
    ZeroPoint();
  }

  lemma ZeroPoint()
    ensures Trim("0.000000") == "0.000000"
  {
    assert TrimLeft("0.000000") == "0.000000" && TrimRight("0.000000") == "0.000000";
  }

  lemma TelltaleTexts()
    ensures var a, b, c, d := SignedDecimal(0), SignedDecimal(7), SignedDecimal(-1), Decimal(AsUnsigned(-1));
      && a != b && a != c && a != d && b != c && b != d && c != d && "1" != c && "1" != d
      && Trim(c) == c && Trim(d) == d
      && c != "0.000000" && d != "0.000000" && IntText(PLC_ULINT, -1) == d && IntText(PLC_LINT, -1) == c
  {
    hide Decimal, Trim, Written;
    OneLetter();
    DecimalInjective(0, 7);
    DecimalInjective(0, -1);
    DecimalInjective(0, AsUnsigned(-1));
    DecimalInjective(7, -1);
    DecimalInjective(7, AsUnsigned(-1));
    DecimalInjective(-1, 1);
    DecimalInjective(-1, AsUnsigned(-1));
    DecimalInjective(1, AsUnsigned(-1));
    NumberTrimmed(-1);
    NumberTrimmed(AsUnsigned(-1));
    UnsignedText(AsUnsigned(-1));
    WrittenDecimal(AsUnsigned(-1));
    assert !IsDigit("0.000000"[1]);
  }
}
