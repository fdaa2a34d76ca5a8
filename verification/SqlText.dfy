/** The SQL statement built from a captured event, and a parser that reads it back. */
module SqlText {
  import opened Bytes
  import opened GatewayTypes
  import opened Decimals

  const MIN_SQL_CAP: nat := 16

  /**
   * The C library's number formatting, which is opaque here: floats are their
   * four raw bytes. `fixed` is what "%f" leaves in its 48-byte buffer.
   */
  datatype Formats = Formats(
    fixed: u32 -> string,
    toInt: u32 -> i64,
    isZero: u32 -> bool,
    parseInt: string -> i64,
    parseFloat: string -> u32,
    ofInt: i64 -> u32)

  /** What the statement takes from the gateway's configuration. */
  datatype SqlConfig = SqlConfig(defaultDatabase: string, eventIdColumn: Option<string>)

  // ----- Numbers as text -----

  function SignedDecimal(i: int): (s: string)
    ensures s != ""
  {
    if i < 0 then "-" + Decimal(-i) else Decimal(i)
  }

  function AsUnsigned(i: i64): u64 {
    var v: int := i;
    if v < 0 then v + 0x1_0000_0000_0000_0000 else v
  }

  // ----- One value -----

  predicate IsUnsigned(plcType: byte) {
    plcType in {PLC_USINT, PLC_UINT, PLC_UDINT, PLC_ULINT}
  }

  function ValueAsBool(fmt: Formats, v: FieldValue): bool {
    if v.plcType == PLC_REAL then !fmt.isZero(v.f32)
    else if v.plcType == PLC_STRING then v.text != "" && v.text != "0" && v.text[0] != 'f' && v.text[0] != 'F'
    else v.i64 != 0
  }

  function ValueAsInt(fmt: Formats, v: FieldValue): i64 {
    if v.plcType == PLC_REAL then fmt.toInt(v.f32)
    else if v.plcType == PLC_STRING then fmt.parseInt(v.text)
    else v.i64
  }

  function ValueAsFloat(fmt: Formats, v: FieldValue): u32 {
    if v.plcType == PLC_REAL then v.f32
    else if v.plcType == PLC_STRING then fmt.parseFloat(v.text)
    else if v.plcType == PLC_BOOL then fmt.ofInt(if v.i64 != 0 then 1 else 0)
    else fmt.ofInt(v.i64)
  }

  function IntText(plcType: byte, i: i64): (s: string)
    ensures s != ""
  {
    if IsUnsigned(plcType) then Decimal(AsUnsigned(i)) else SignedDecimal(i)
  }

  function ValueAsText(fmt: Formats, v: FieldValue): string {
    if v.text != "" then v.text
    else if v.plcType == PLC_REAL || v.plcType == PLC_LREAL then fmt.fixed(v.f32)
    else if v.plcType == PLC_BOOL then (if v.i64 != 0 then "1" else "0")
    else IntText(v.plcType, v.i64)
  }

  predicate IsBlank(c: char) {
    c == ' ' || c == '\t'
  }

  function TrimLeft(s: string): (t: string)
    ensures |t| <= |s|
  {
    if s != "" && IsBlank(s[0]) then TrimLeft(s[1..]) else s
  }

  function TrimRight(s: string): (t: string)
    ensures |t| <= |s|
  {
    if s != "" && IsBlank(s[|s| - 1]) then TrimRight(s[..|s| - 1]) else s
  }

  function Trim(s: string): string {
    TrimRight(TrimLeft(s))
  }

  function Escaped(s: string): string {
    if s == "" then "" else (if s[0] == '\'' then "''" else [s[0]]) + Escaped(s[1..])
  }

  function Quoted(s: string): string {
    "N'" + (Escaped(Trim(s)) + "'")
  }

  predicate IsIntType(sqlType: byte) {
    sqlType in {SQL_TINYINT, SQL_SMALLINT, SQL_INT, SQL_BIGINT}
  }

  predicate IsFloatType(sqlType: byte) {
    sqlType in {SQL_REAL, SQL_FLOAT}
  }

  /** A value as a statement means it: a bare token or a string. */
  datatype Literal = Bare(token: string) | Text(text: string)

  /** None where AppendValue refuses the value. */
  function Meaning(fmt: Formats, f: FieldMapping, v: FieldValue): Option<Literal> {
    if !v.valid then (if f.nullable || !f.required then Some(Bare("NULL")) else None)
    else if v.isNull then Some(Bare("NULL"))
    else if f.sqlType == SQL_BIT then Some(Bare(if ValueAsBool(fmt, v) then "1" else "0"))
    else if IsIntType(f.sqlType) then Some(Bare(IntText(v.plcType, ValueAsInt(fmt, v))))
    else if IsFloatType(f.sqlType) then Some(Bare(fmt.fixed(ValueAsFloat(fmt, v))))
    else Some(Text(Trim(ValueAsText(fmt, v))))
  }

  // ----- What is meant, by the numbers of the types -----

  /** Nothing for a value that may not be missing, NULL for one that may or that is null. */
  lemma MissingMeans(fmt: Formats, f: FieldMapping, v: FieldValue)
    requires !v.valid || v.isNull
    ensures Meaning(fmt, f, v) == if !v.valid && f.required && !f.nullable then None else Some(Bare("NULL"))
  {
  }

  /** BIT (0): a float (4) that is not zero, a text (5) that does not say no, any other number but zero. */
  lemma BitMeans(fmt: Formats, f: FieldMapping, v: FieldValue)
    requires v.valid && !v.isNull && f.sqlType == 0
    ensures var yes := if v.plcType == 4 then !fmt.isZero(v.f32)
                       else if v.plcType == 5 then v.text !in {"", "0"} && v.text[0] !in {'f', 'F'}
                       else v.i64 != 0;
      Meaning(fmt, f, v) == Some(Bare(if yes then "1" else "0"))
  {
  }

  /** The integer types (1, 2, 3, 9): the slot, a float's integer part or a text's number; without a sign for 7, 8, 9 and 11. */
  lemma IntegerMeans(fmt: Formats, f: FieldMapping, v: FieldValue)
    requires v.valid && !v.isNull && f.sqlType in {1, 2, 3, 9}
    ensures var i: int := if v.plcType == 4 then fmt.toInt(v.f32) else if v.plcType == 5 then fmt.parseInt(v.text) else v.i64;
      Meaning(fmt, f, v)
      == Some(Bare(if v.plcType in {7, 8, 9, 11} && i < 0 then Decimal(i + 0x1_0000_0000_0000_0000)
                   else if i < 0 then "-" + Decimal(-i) else Decimal(i)))
  {
    hide Decimal;
  }

  /** REAL and FLOAT (4, 5): the float, a text's, a BOOL's (0) zero or one, or the slot's. */
  lemma FloatMeans(fmt: Formats, f: FieldMapping, v: FieldValue)
    requires v.valid && !v.isNull && f.sqlType in {4, 5}
    ensures var x := if v.plcType == 4 then v.f32
                     else if v.plcType == 5 then fmt.parseFloat(v.text)
                     else fmt.ofInt(if v.plcType == 0 && v.i64 != 0 then 1 else v.i64);
      Meaning(fmt, f, v) == Some(Bare(fmt.fixed(x)))
  {
  }

  /** Any other type: the text, or one made of the value, without the blanks around it. */
  lemma TextMeans(fmt: Formats, f: FieldMapping, v: FieldValue)
    requires v.valid && !v.isNull && f.sqlType !in {0, 1, 2, 3, 4, 5, 9}
    ensures v.text != "" ==> Meaning(fmt, f, v) == Some(Text(Trim(v.text)))
    ensures v.text == "" && v.plcType in {4, 12} ==> Meaning(fmt, f, v) == Some(Text(Trim(fmt.fixed(v.f32))))
    ensures v.text == "" && v.plcType == 0 ==> Meaning(fmt, f, v) == Some(Text(if v.i64 != 0 then "1" else "0"))
    ensures var i: int := v.i64;
      v.text == "" && v.plcType !in {0, 4, 12}
      ==> Meaning(fmt, f, v) == Some(Text(Trim(if v.plcType in {7, 8, 9, 11} && i < 0 then Decimal(i + 0x1_0000_0000_0000_0000)
                                               else if i < 0 then "-" + Decimal(-i) else Decimal(i))))
  {
    hide Decimal, Trim;
    assert Trim("1") == "1" && Trim("0") == "0" by { DigitsTrimmed(); }
  }

  lemma DigitsTrimmed()
    ensures Trim("1") == "1" && Trim("0") == "0"
  {
  }

  lemma {:induction false} LeftTrimmed(s: string) returns (n: nat)
    ensures n <= |s| && TrimLeft(s) == s[n..] && (forall i :: 0 <= i < n ==> s[i] == ' ' || s[i] == '\t')
    ensures TrimLeft(s) == "" || (TrimLeft(s)[0] != ' ' && TrimLeft(s)[0] != '\t')
    decreases |s|
  {
    n := 0;
    if s != "" && IsBlank(s[0]) {
      var k := LeftTrimmed(s[1..]);
      n := k + 1;
    }
  }

  lemma {:induction false} RightTrimmed(s: string) returns (n: nat)
    ensures n <= |s| && TrimRight(s) == s[..n] && (forall i :: n <= i < |s| ==> s[i] == ' ' || s[i] == '\t')
    ensures n == 0 || (s[n - 1] != ' ' && s[n - 1] != '\t')
    decreases |s|
  {
    n := |s|;
    if s != "" && IsBlank(s[|s| - 1]) {
      n := RightTrimmed(s[..|s| - 1]);
      assert s[..|s| - 1][..n] == s[..n];
      assert forall i :: n <= i < |s| - 1 ==> s[..|s| - 1][i] == s[i];
    }
  }

  /** Trimming takes the blanks and tabs at both ends, all of them, and nothing else. */
  lemma Trimmed(s: string) returns (a: nat, b: nat)
    ensures a <= b <= |s| && Trim(s) == s[a..b]
    ensures forall i :: 0 <= i < a || b <= i < |s| ==> s[i] == ' ' || s[i] == '\t'
    ensures a < b ==> s[a] !in {' ', '\t'} && s[b - 1] !in {' ', '\t'}
  {
    a := LeftTrimmed(s);
    var t := s[a..];
    var n := RightTrimmed(t);
    b := a + n;
    assert t[..n] == s[a..b];
    forall i | b <= i < |s|
      ensures s[i] == ' ' || s[i] == '\t'
    {
      assert t[i - a] == s[i];
    }
  }

  function LiteralText(l: Literal): string {
    match l
    case Bare(token) => token
    case Text(text) => "N'" + (Escaped(text) + "'")
  }

  // ----- The statement -----

  function Ident(id: string): string {
    "[" + (id + "]")
  }

  function Database(ev: CapturedEvent, cfg: SqlConfig): string {
    if ev.database != "" then ev.database else cfg.defaultDatabase
  }

  function Schema(ev: CapturedEvent): string {
    if ev.schema != "" then ev.schema else "dbo"
  }

  function Target(ev: CapturedEvent, cfg: SqlConfig): string {
    (if Database(ev, cfg) != "" then Ident(Database(ev, cfg)) + "." else "")
    + (Ident(Schema(ev)) + ("." + Ident(ev.table)))
  }

  /** ColumnUsedEarlier */
  predicate UsedEarlier(fs: seq<FieldMapping>, i: nat)
    requires i < |fs|
  {
    exists j :: 0 <= j < i && fs[j].sqlColumn == fs[i].sqlColumn
  }

  /** The columns from field `i` on, first occurrences only; `first` leaves out the leading comma. */
  function ColumnsFrom(fs: seq<FieldMapping>, i: nat, first: bool): string
    requires i <= |fs|
    decreases |fs| - i
  {
    if i == |fs| then ""
    else if UsedEarlier(fs, i) then ColumnsFrom(fs, i + 1, first)
    else (if first then "" else ", ") + (Ident(fs[i].sqlColumn) + ColumnsFrom(fs, i + 1, false))
  }

  function ValuesFrom(fmt: Formats, fs: seq<FieldMapping>, vs: seq<FieldValue>, i: nat, first: bool): Option<string>
    requires i <= |fs| == |vs|
    decreases |fs| - i
  {
    if i == |fs| then Some("")
    else if UsedEarlier(fs, i) then ValuesFrom(fmt, fs, vs, i + 1, first)
    else
      match (Meaning(fmt, fs[i], vs[i]), ValuesFrom(fmt, fs, vs, i + 1, false))
      case (Some(l), Some(rest)) => Some((if first then "" else ", ") + (LiteralText(l) + rest))
      case _ => None
  }

  /** The fields with that key flag as `column=value` pairs, joined by `separator`. */
  function PairsFrom(fmt: Formats, fs: seq<FieldMapping>, vs: seq<FieldValue>, i: nat, keys: bool, separator: string,
                     first: bool): Option<string>
    requires i <= |fs| == |vs|
    decreases |fs| - i
  {
    if i == |fs| then Some("")
    else if fs[i].isWhereKey != keys || UsedEarlier(fs, i) then PairsFrom(fmt, fs, vs, i + 1, keys, separator, first)
    else
      match (Meaning(fmt, fs[i], vs[i]), PairsFrom(fmt, fs, vs, i + 1, keys, separator, false))
      case (Some(l), Some(rest)) =>
        Some((if first then "" else separator) + (Ident(fs[i].sqlColumn) + ("=" + (LiteralText(l) + rest))))
      case _ => None
  }

  function EventIdColumn(cfg: SqlConfig): string {
    if cfg.eventIdColumn.Some? then Ident(cfg.eventIdColumn.value) + ", " else ""
  }

  function EventIdValue(ev: CapturedEvent, cfg: SqlConfig): string {
    if cfg.eventIdColumn.Some? then Decimal(ev.eventId) + ", " else ""
  }

  function InsertText(ev: CapturedEvent, cfg: SqlConfig, values: string): string {
    "INSERT INTO " + (Target(ev, cfg) + (" (" + (EventIdColumn(cfg) + (ColumnsFrom(ev.fields, 0, true)
      + (") VALUES (" + (EventIdValue(ev, cfg) + (values + ");")))))))
  }

  function UpdateText(ev: CapturedEvent, cfg: SqlConfig, settings: string, keys: string): string {
    "UPDATE " + (Target(ev, cfg) + (" SET " + (settings + (" WHERE " + (keys + ";")))))
  }

  /** A field that names the row to update. */
  predicate HasKey(fs: seq<FieldMapping>) {
    exists i :: 0 <= i < |fs| && fs[i].isWhereKey && !UsedEarlier(fs, i)
  }

  /** The statement, whatever the size of the buffer; None where the event cannot be expressed. */
  function Statement(ev: CapturedEvent, cfg: SqlConfig, fmt: Formats): Option<string>
    requires |ev.fields| == |ev.values|
  {
    if ev.table == "" || |ev.fields| == 0 then None
    else if ev.operation == OP_INSERT then
      match ValuesFrom(fmt, ev.fields, ev.values, 0, true)
      case None => None
      case Some(values) => Some(InsertText(ev, cfg, values))
    else
      match (PairsFrom(fmt, ev.fields, ev.values, 0, false, ", ", true),
             PairsFrom(fmt, ev.fields, ev.values, 0, true, " AND ", true))
      case (Some(settings), Some(keys)) =>
        if HasKey(ev.fields) then Some(UpdateText(ev, cfg, settings, keys)) else None
      case _ => None
  }
}
