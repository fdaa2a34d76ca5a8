/** What the configuration blob keeps. */
module ConfigRoundTrip {
  // A validated configuration comes back, under exact conditions on its texts.

  import opened Arithmetic
  import opened Bytes
  import opened GatewayTypes
  import opened Decimals
  import opened Strings
  import opened Scanf
  import opened ConfigBlob

  // ----- The checks before a configuration is saved -----

  predicate IsIdentChar(c: char) {
    'a' <= c <= 'z' || 'A' <= c <= 'Z' || '0' <= c <= '9' || c == '_'
  }

  predicate IsSafeIdent(s: string) {
    s != "" && forall i :: 0 <= i < |s| ==> IsIdentChar(s[i])
  }

  /** Blanks are let through inside; with the first character no blank, some character is none. */
  predicate IsSafeSqlIdent(s: string) {
    && s != "" && s[0] != ' ' && s[|s| - 1] != ' '
    && forall i :: 0 <= i < |s| ==> s[i] == ' ' || IsIdentChar(s[i]) || s[i] == '#' || s[i] == '$'
  }

  predicate DistinctColumns(fs: seq<FieldMapping>) {
    forall i, j :: 0 <= i < j < |fs| ==> fs[i].sqlColumn != fs[j].sqlColumn
  }

  predicate FieldAccepted(m: Mapping, f: FieldMapping) {
    && f.plcTag != "" && IsSafeSqlIdent(f.sqlColumn)
    && (m.includePlcName && m.plcNameColumn != "" ==> f.sqlColumn != m.plcNameColumn)
  }

  predicate NamesAccepted(m: Mapping) {
    && m.triggerTag != "" && m.ackTag != "" && m.triggerTag != m.ackTag
    && IsSafeSqlIdent(m.table)
    && (m.schema != "" ==> IsSafeIdent(m.schema))
    && (m.database != "" ==> IsSafeSqlIdent(m.database))
    && 0 < |m.fields| <= MAX_FIELDS_PER_MAPPING
    && (m.includePlcName ==> IsSafeSqlIdent(m.plcNameColumn) && |m.fields| < MAX_FIELDS_PER_MAPPING)
  }

  predicate MappingAccepted(m: Mapping, plcs: seq<Plc>) {
    && NamesAccepted(m)
    && (forall i :: 0 <= i < |m.fields| ==> FieldAccepted(m, m.fields[i]))
    && DistinctColumns(m.fields)
    && (m.operation == OP_UPDATE ==> exists i :: 0 <= i < |m.fields| && m.fields[i].isWhereKey)
    && (exists i :: 0 <= i < |plcs| && plcs[i].id == m.plcId)
  }

  predicate Accepted(cfg: Config) {
    && |cfg.plcs| <= MAX_PLCS && |cfg.mappings| <= MAX_MAPPINGS
    && forall i :: 0 <= i < |cfg.mappings| ==> MappingAccepted(cfg.mappings[i], cfg.plcs)
  }

  // ----- The checks one by one -----

  /** ASCII codes of letters, digits and the underscore. */
  predicate WordCode(n: int) {
    48 <= n <= 57 || 65 <= n <= 90 || n == 95 || 97 <= n <= 122
  }

  /** A column, table or database: those, `#`, `$` and blanks, with no blank at either end. */
  lemma SafeSqlIdentExactly(s: string)
    ensures IsSafeSqlIdent(s)
      <==> s != "" && s[0] as int != 32 && s[|s| - 1] as int != 32
           && forall i :: 0 <= i < |s| ==> WordCode(s[i] as int) || s[i] as int in {32, 35, 36}
  {
  }

  lemma SafeIdentExactly(s: string)
    ensures IsSafeIdent(s) <==> s != "" && forall i :: 0 <= i < |s| ==> WordCode(s[i] as int)
  {
  }

  /** What is asked of a mapping's own names and of the number of its fields. */
  lemma NamesExactly(m: Mapping)
    ensures NamesAccepted(m)
      <==> && m.triggerTag != "" && m.ackTag != "" && m.triggerTag != m.ackTag
           && IsSafeSqlIdent(m.table) && (m.schema == "" || IsSafeIdent(m.schema)) && (m.database == "" || IsSafeSqlIdent(m.database))
           && 1 <= |m.fields| <= (if m.includePlcName then 15 else 16)
           && (m.includePlcName ==> IsSafeSqlIdent(m.plcNameColumn))
  {
    hide IsSafeSqlIdent, IsSafeIdent;
  }

  /** A configuration passes exactly if it is small enough and every mapping meets every check. */
  lemma AcceptedExactly(cfg: Config)
    ensures Accepted(cfg)
      <==> && |cfg.plcs| <= 4 && |cfg.mappings| <= 8
           && forall k :: 0 <= k < |cfg.mappings| ==> MeetsAll(cfg.mappings[k], cfg.plcs)
  {
    hide NamesAccepted, IsSafeSqlIdent;
    forall k | 0 <= k < |cfg.mappings|
      ensures MappingAccepted(cfg.mappings[k], cfg.plcs) <==> MeetsAll(cfg.mappings[k], cfg.plcs)
    {
      var m := cfg.mappings[k];
      forall i | 0 <= i < |m.fields|
        ensures FieldAccepted(m, m.fields[i]) <==> FieldMeets(m, m.fields[i])
      {
      }
    }
  }

  predicate FieldMeets(m: Mapping, f: FieldMapping) {
    && f.plcTag != "" && IsSafeSqlIdent(f.sqlColumn)
    && !(m.includePlcName && f.sqlColumn == m.plcNameColumn && m.plcNameColumn != "")
  }

  /** Names, fields, no column twice, a key for an UPDATE (1), and a PLC that is there. */
  predicate MeetsAll(m: Mapping, plcs: seq<Plc>) {
    && NamesAccepted(m)
    && (forall i :: 0 <= i < |m.fields| ==> FieldMeets(m, m.fields[i]))
    && (forall i, j :: 0 <= i < |m.fields| && 0 <= j < |m.fields| && m.fields[i].sqlColumn == m.fields[j].sqlColumn ==> i == j)
    && (m.operation == 1 ==> !forall i :: 0 <= i < |m.fields| ==> !m.fields[i].isWhereKey)
    && !forall i :: 0 <= i < |plcs| ==> plcs[i].id != m.plcId
  }

  // ----- What the blob can hold beyond that -----

  ghost predicate PlcStorable(p: Plc) {
    && Plain(p.name, 31) && p.pollIntervalMs != 0 && p.requestTimeoutMs != 0 && p.retryDelayMs != 0
    && |PlcLine(p)| + 1 < LINE_BUFFER
  }

  ghost predicate FieldStorable(f: FieldMapping) {
    Plain(f.plcTag, 63) && |f.sqlColumn| <= 63 && |FieldLine(f)| + 1 < LINE_BUFFER
  }

  /** Name and tags can be read back; database and schema are given; the line fits its buffer. */
  ghost predicate MappingStorable(m: Mapping) {
    && Plain(m.name, 31) && Plain(m.triggerTag, 63) && Plain(m.ackTag, 63)
    && 0 < |m.database| <= 63 && 0 < |m.schema| <= 31 && |m.table| <= 127
    && (m.plcNameColumn == "" || Plain(m.plcNameColumn, 63))
    && m.operation in {OP_INSERT, OP_UPDATE}
    && |m.fields| <= MAX_FIELDS_PER_MAPPING && |MappingLine(m)| + 1 < LINE_BUFFER
    && forall i :: 0 <= i < |m.fields| ==> FieldStorable(m.fields[i])
  }

  ghost predicate Storable(cfg: Config) {
    && |cfg.plcs| <= MAX_PLCS && |cfg.mappings| <= MAX_MAPPINGS
    && (forall i :: 0 <= i < |cfg.plcs| ==> PlcStorable(cfg.plcs[i]))
    && (forall i :: 0 <= i < |cfg.mappings| ==> MappingStorable(cfg.mappings[i]))
  }

  /** Scale, offset and string length are not stored. */
  function KeptField(f: FieldMapping): FieldMapping {
    f.(scale := 1.0, offset := 0.0, maxStringLength := MAX_STRING_VALUE_LEN)
  }

  function KeptFields(fs: seq<FieldMapping>): (ks: seq<FieldMapping>)
    ensures |ks| == |fs|
  {
    if fs == [] then [] else [KeptField(fs[0])] + KeptFields(fs[1..])
  }

  /** Nor are the retry limits of a capture. */
  function KeptHead(m: Mapping): Mapping {
    m.(fields := [], maxCaptureRetries := DEFAULT_CAPTURE_RETRIES, captureRetryDelayMs := DEFAULT_CAPTURE_RETRY_DELAY)
  }

  function KeptMapping(m: Mapping): Mapping {
    KeptHead(m).(fields := KeptFields(m.fields))
  }

  function KeptMappings(ms: seq<Mapping>): seq<Mapping> {
    if ms == [] then [] else [KeptMapping(ms[0])] + KeptMappings(ms[1..])
  }

  /** Nothing of the settings outside the blob is left either. */
  function Kept(cfg: Config): Config {
    DEFAULT_CONFIG.(plcs := cfg.plcs, mappings := KeptMappings(cfg.mappings), revision := cfg.revision)
  }

  // ----- One line -----

  lemma SafeIsPlain(s: string, max: nat)
    requires IsSafeSqlIdent(s) || IsSafeIdent(s)
    requires |s| <= max
    ensures Plain(s, max)
  {
  }

  lemma KindsSeparable()
    ensures Separable(HEADER_KINDS) && Separable(PLC_KINDS) && Separable(MAPPING_HEAD_KINDS) && Separable(FIELD_KINDS)
  {
  }

  /** A whole line of printed arguments. */
  lemma LineRead(kinds: seq<Kind>, args: seq<Arg>)
    requires AllPrintable(kinds, args) && Separable(kinds)
    ensures Scan(kinds, Print(kinds, args)) == args && '\n' !in Print(kinds, args)
  {
    hide Print, Printable;
    ScanPrinted(kinds, args, [], "");
    assert kinds + [] == kinds && Print(kinds, args) + "" == Print(kinds, args) && args + [] == args;
    PrintedNoNewline(kinds, args);
  }

  lemma Quotients(v: nat)
    ensures v / 0x100 / 0x100 == v / 0x1_0000 && v / 0x1_0000 / 0x100 == v / 0x100_0000
  {
    DivModUnique(v, v / 0x1_0000, v % 0x1_0000, 0x1_0000);
    var q := v / 0x100;
    assert v == (q / 0x100) * 0x1_0000 + (q % 0x100) * 0x100 + v % 0x100;
    DivModUnique(v, q / 0x100, (q % 0x100) * 0x100 + v % 0x100, 0x1_0000);
    var w := v / 0x1_0000;
    assert v == (w / 0x100) * 0x100_0000 + (w % 0x100) * 0x1_0000 + v % 0x1_0000;
    DivModUnique(v, w / 0x100, (w % 0x100) * 0x1_0000 + v % 0x1_0000, 0x100_0000);
  }

  lemma OctetsBack(ip: u32)
    ensures var v: int := ip;
      Address(v / 0x100_0000, v / 0x1_0000 % 0x100, v / 0x100 % 0x100, v % 0x100) == ip
  {
    var v: int := ip;
    Quotients(v);
    var a, b, c := v / 0x100, v / 0x1_0000, v / 0x100_0000;
    assert v == a * 0x100 + v % 0x100 && a == b * 0x100 + a % 0x100 && b == c * 0x100 + b % 0x100;
    assert v == c * 0x100_0000 + (b % 0x100) * 0x1_0000 + (a % 0x100) * 0x100 + v % 0x100;
  }

  lemma PlcPrintable(p: Plc)
    requires PlcStorable(p)
    ensures AllPrintable(PLC_KINDS, PlcArgs(p))
  {
    hide Plain;
  }

  lemma PlcBack(p: Plc)
    requires PlcStorable(p)
    ensures PlcOf(PlcArgs(p)) == p && |PlcArgs(p)| == 10
  {
    hide Plain, Address;
    OctetsBack(p.ip);
  }

  lemma PlcRead(p: Plc, cfg: Config)
    requires PlcStorable(p) && |cfg.plcs| < MAX_PLCS
    ensures DecodeLine(PlcLine(p), cfg) == cfg.(plcs := cfg.plcs + [p]) && '\n' !in PlcLine(p)
  {
    hide Print, PlcOf, PlcArgs, Scan, PlcStorable, AllPrintable;
    KindsSeparable();
    PlcPrintable(p);
    PlcBack(p);
    LineRead(PLC_KINDS, PlcArgs(p));
    assert PlcLine(p)[1..] == Print(PLC_KINDS, PlcArgs(p));
  }

  lemma FieldPrintable(f: FieldMapping)
    requires FieldStorable(f) && IsSafeSqlIdent(f.sqlColumn)
    ensures AllPrintable(FIELD_KINDS, FieldArgs(f))
  {
    hide Plain, IsSafeSqlIdent;
    SafeIsPlain(f.sqlColumn, 63);
  }

  lemma FieldBack(f: FieldMapping)
    ensures FieldOf(FieldArgs(f)) == KeptField(f) && |FieldArgs(f)| == 7
  {
  }

  lemma FieldArgsRead(f: FieldMapping)
    requires FieldStorable(f) && IsSafeSqlIdent(f.sqlColumn)
    ensures Scan(FIELD_KINDS, FieldLine(f)[1..]) == FieldArgs(f) && '\n' !in FieldLine(f)
  {
    hide Print, IsSafeSqlIdent, Scan, FieldStorable, AllPrintable, FieldArgs;
    KindsSeparable();
    FieldPrintable(f);
    FieldBack(f);
    LineRead(FIELD_KINDS, FieldArgs(f));
    assert FieldLine(f)[1..] == Print(FIELD_KINDS, FieldArgs(f));
  }

  lemma FieldRead(f: FieldMapping, cfg: Config)
    requires FieldStorable(f) && IsSafeSqlIdent(f.sqlColumn)
    requires cfg.mappings != [] && |cfg.mappings[|cfg.mappings| - 1].fields| < MAX_FIELDS_PER_MAPPING
    ensures var k := |cfg.mappings| - 1;
      var m := cfg.mappings[k];
      DecodeLine(FieldLine(f), cfg) == cfg.(mappings := cfg.mappings[k := m.(fields := m.fields + [KeptField(f)])])
    ensures '\n' !in FieldLine(f)
  {
    hide FieldArgs, FieldOf, IsSafeSqlIdent, FieldStorable, Scan, Print;
    FieldArgsRead(f);
    FieldBack(f);
  }

  lemma ColumnRead(column: string)
    requires column == "" || Plain(column, 63)
    ensures Scan(COLUMN_KINDS, [TAB] + column) == if column == "" then [] else [Str(column)]
  {
    hide Plain;
    assert COLUMN_KINDS[1..] == [];
    if column == "" {
      assert [TAB] + column == [TAB];
      BlankRead();
    } else {
      WordRead(column, 63, "");
      assert [TAB] + column + "" == [TAB] + column;
      assert Scan([], "") == [] && [Str(column)] + [] == [Str(column)];
    }
  }

  lemma BlankRead()
    ensures ScanOne(Word(63), [TAB]) == None
  {
    assert [TAB][1..] == "";
    assert SkipSpace([TAB]) == SkipSpace("") == "";
  }

  lemma MappingArgsRead(m: Mapping)
    requires MappingStorable(m) && NamesAccepted(m)
    ensures Scan(MAPPING_HEAD_KINDS + COLUMN_KINDS, MappingLine(m)[1..])
      == MappingHeadArgs(m) + if m.plcNameColumn == "" then [] else [Str(m.plcNameColumn)]
    ensures '\n' !in MappingLine(m)
  {
    hide Print, IsSafeSqlIdent, IsSafeIdent, Scan;
    KindsSeparable();
    SafeIsPlain(m.database, 63);
    SafeIsPlain(m.schema, 31);
    SafeIsPlain(m.table, 127);
    var args := MappingHeadArgs(m);
    assert AllPrintable(MAPPING_HEAD_KINDS, args);
    ScanPrinted(MAPPING_HEAD_KINDS, args, COLUMN_KINDS, [TAB] + m.plcNameColumn);
    PrintedNoNewline(MAPPING_HEAD_KINDS, args);
    assert MappingLine(m)[1..] == Print(MAPPING_HEAD_KINDS, args) + ([TAB] + m.plcNameColumn);
    ColumnRead(m.plcNameColumn);
  }

  lemma MappingRead(m: Mapping, cfg: Config)
    requires MappingStorable(m) && NamesAccepted(m) && |cfg.mappings| < MAX_MAPPINGS
    ensures DecodeLine(MappingLine(m), cfg) == cfg.(mappings := cfg.mappings + [KeptHead(m)])
    ensures '\n' !in MappingLine(m)
  {
    hide Print, IsSafeSqlIdent, IsSafeIdent, Scan, Plain;
    MappingArgsRead(m);
    var args := MappingHeadArgs(m) + if m.plcNameColumn == "" then [] else [Str(m.plcNameColumn)];
    assert MappingOf(args) == KeptHead(m);
  }

  lemma HeaderRead(cfg: Config, empty: Config)
    requires |cfg.plcs| <= MAX_PLCS && |cfg.mappings| <= MAX_MAPPINGS
    ensures DecodeLine(HeaderLine(cfg), empty) == empty.(revision := cfg.revision) && '\n' !in HeaderLine(cfg)
  {
    hide Print;
    KindsSeparable();
    var args := HeaderArgs(cfg);
    assert AllPrintable(HEADER_KINDS, args);
    LineRead(HEADER_KINDS, args);
    assert HeaderLine(cfg)[2..] == Print(HEADER_KINDS, args) && "V1" <= HeaderLine(cfg);
  }

  // ----- All lines -----

  ghost predicate LineOk(line: string) {
    '\n' !in line && line != "" && |line| + 1 < LINE_BUFFER
  }

  ghost predicate LinesOk(lines: seq<string>) {
    forall i :: 0 <= i < |lines| ==> LineOk(lines[i])
  }

  /** Lines that fit their buffer are found again. */
  lemma {:induction false} LinesJoined(lines: seq<string>)
    requires LinesOk(lines)
    ensures Lines(Joined(lines)) == lines
    decreases |lines|
  {
    hide UpTo;
    if lines != [] {
      assert LineOk(lines[0]);
      var rest := Joined(lines[1..]);
      var s := Joined(lines);
      assert s == lines[0] + (['\n'] + rest);
      UpToConcat(lines[0], '\n', rest);
      assert s[..|lines[0]|] == lines[0] && s[|lines[0]| + 1..] == rest;
      LinesJoined(lines[1..]);
      assert [lines[0]] + lines[1..] == lines;
    }
  }

  lemma {:induction false} DecodeConcat(a: seq<string>, b: seq<string>, cfg: Config)
    ensures DecodeLines(a + b, cfg) == DecodeLines(b, DecodeLines(a, cfg))
    decreases |a|
  {
    hide DecodeLine;
    if a == [] {
      assert a + b == b;
    } else {
      assert (a + b)[1..] == a[1..] + b && (a + b)[0] == a[0];
      DecodeConcat(a[1..], b, DecodeLine(a[0], cfg));
    }
  }

  lemma LinesOkConcat(a: seq<string>, b: seq<string>)
    requires LinesOk(a) && LinesOk(b)
    ensures LinesOk(a + b)
  {
    hide LineOk;
  }

  lemma {:induction false} PlcsRead(ps: seq<Plc>, cfg: Config)
    requires |cfg.plcs| + |ps| <= MAX_PLCS && forall i :: 0 <= i < |ps| ==> PlcStorable(ps[i])
    ensures DecodeLines(PlcLines(ps), cfg) == cfg.(plcs := cfg.plcs + ps) && LinesOk(PlcLines(ps))
    decreases |ps|
  {
    hide PlcStorable, DecodeLine, PlcLine, LineOk;
    if ps == [] {
      assert cfg.plcs + ps == cfg.plcs;
    } else {
      var next := cfg.(plcs := cfg.plcs + [ps[0]]);
      PlcRead(ps[0], cfg);
      PlcsRead(ps[1..], next);
      assert PlcLines(ps)[1..] == PlcLines(ps[1..]);
      Push(cfg.plcs, ps[0], ps[1..]);
      assert [ps[0]] + ps[1..] == ps;
      assert LineOk(PlcLine(ps[0])) by { PlcLineOk(ps[0]); }
    }
  }

  lemma PlcLineOk(p: Plc)
    requires PlcStorable(p) && '\n' !in PlcLine(p)
    ensures LineOk(PlcLine(p))
  {
  }

  lemma Push<T>(a: seq<T>, x: T, rest: seq<T>)
    ensures (a + [x]) + rest == a + ([x] + rest)
  {
  }

  ghost predicate FieldsGood(fs: seq<FieldMapping>) {
    forall i :: 0 <= i < |fs| ==> FieldStorable(fs[i]) && IsSafeSqlIdent(fs[i].sqlColumn)
  }

  /** The field lines fill up the mapping read last. */
  lemma {:induction false} FieldsRead(fs: seq<FieldMapping>, ms: seq<Mapping>, m: Mapping, cfg: Config)
    requires FieldsGood(fs) && cfg.mappings == ms + [m] && |m.fields| + |fs| <= MAX_FIELDS_PER_MAPPING
    ensures DecodeLines(FieldLines(fs), cfg)
      == cfg.(mappings := ms + [m.(fields := m.fields + KeptFields(fs))])
    ensures LinesOk(FieldLines(fs))
    decreases |fs|
  {
    hide FieldStorable, IsSafeSqlIdent, DecodeLine, FieldLine, KeptField, LineOk;
    if fs == [] {
      assert m.fields + KeptFields(fs) == m.fields;
    } else {
      var m2 := m.(fields := m.fields + [KeptField(fs[0])]);
      FieldRead(fs[0], cfg);
      assert cfg.mappings[|ms| := m2] == ms + [m2];
      FieldsRead(fs[1..], ms, m2, cfg.(mappings := ms + [m2]));
      assert FieldLines(fs)[1..] == FieldLines(fs[1..]);
      Push(m.fields, KeptField(fs[0]), KeptFields(fs[1..]));
      assert LineOk(FieldLine(fs[0])) by { FieldLineOk(fs[0]); }
    }
  }

  lemma FieldLineOk(f: FieldMapping)
    requires FieldStorable(f) && '\n' !in FieldLine(f)
    ensures LineOk(FieldLine(f))
  {
  }

  ghost predicate MappingGood(m: Mapping) {
    MappingStorable(m) && NamesAccepted(m) && FieldsGood(m.fields)
  }

  function MappingBlock(m: Mapping): seq<string>
    requires |m.fields| <= MAX_FIELDS_PER_MAPPING
  {
    [MappingLine(m)] + FieldLines(m.fields)
  }

  lemma MappingBlockRead(m: Mapping, cfg: Config)
    requires MappingGood(m) && |cfg.mappings| < MAX_MAPPINGS
    ensures DecodeLines(MappingBlock(m), cfg) == cfg.(mappings := cfg.mappings + [KeptMapping(m)])
    ensures LinesOk(MappingBlock(m))
  {
    hide DecodeLine, FieldLines, MappingLine, NamesAccepted, FieldsGood, LineOk, KeptFields;
    MappingRead(m, cfg);
    var m0 := KeptHead(m);
    var next := cfg.(mappings := cfg.mappings + [m0]);
    FieldsRead(m.fields, cfg.mappings, m0, next);
    assert MappingBlock(m)[1..] == FieldLines(m.fields);
    assert [] + KeptFields(m.fields) == KeptFields(m.fields);
    assert LineOk(MappingLine(m)) by { MappingLineOk(m); }
  }

  lemma MappingLineOk(m: Mapping)
    requires MappingStorable(m) && '\n' !in MappingLine(m)
    ensures LineOk(MappingLine(m))
  {
  }

  lemma {:induction false} MappingsRead(ms: seq<Mapping>, cfg: Config)
    requires |cfg.mappings| + |ms| <= MAX_MAPPINGS && Sized(ms) && forall i :: 0 <= i < |ms| ==> MappingGood(ms[i])
    ensures DecodeLines(MappingLines(ms), cfg) == cfg.(mappings := cfg.mappings + KeptMappings(ms))
    ensures LinesOk(MappingLines(ms))
    decreases |ms|
  {
    hide MappingGood, DecodeLine, MappingLine, FieldLines, KeptFields, LineOk;
    if ms == [] {
      assert cfg.mappings + KeptMappings(ms) == cfg.mappings;
    } else {
      var m := ms[0];
      MappingBlockRead(m, cfg);
      var next := cfg.(mappings := cfg.mappings + [KeptMapping(m)]);
      assert Sized(ms[1..]);
      MappingsRead(ms[1..], next);
      DecodeConcat(MappingBlock(m), MappingLines(ms[1..]), cfg);
      LinesOkConcat(MappingBlock(m), MappingLines(ms[1..]));
      Push(cfg.mappings, KeptMapping(m), KeptMappings(ms[1..]));
    }
  }

  // ----- The closing pass over duplicate columns -----

  lemma {:induction false} DedupeIdentity(fs: seq<FieldMapping>)
    requires DistinctColumns(fs)
    ensures Deduped(fs) == fs
    decreases |fs|
  {
    if fs != [] {
      DedupeIdentity(fs[..|fs| - 1]);
    }
  }

  /** After the pass no two columns are the same, and a column that was there still is. */
  lemma {:induction false} DedupeDistinct(fs: seq<FieldMapping>, i: nat)
    requires i < |fs|
    ensures DistinctColumns(Deduped(fs))
    ensures exists j :: 0 <= j < |Deduped(fs)| && Deduped(fs)[j].sqlColumn == fs[i].sqlColumn
    decreases |fs|
  {
    var n := |fs| - 1;
    if n > 0 {
      DedupeDistinct(fs[..n], if i < n then i else 0);
    }
    if i < n {
      var j :| 0 <= j < |Deduped(fs[..n])| && Deduped(fs[..n])[j].sqlColumn == fs[i].sqlColumn;
      assert Deduped(fs)[j] == Deduped(fs[..n])[j];
    } else if Deduped(fs) != Deduped(fs[..n]) {
      assert Deduped(fs)[|Deduped(fs)| - 1] == fs[n];
    }
  }

  lemma {:induction false} KeptColumns(fs: seq<FieldMapping>, i: nat)
    requires i < |fs|
    ensures KeptFields(fs)[i].sqlColumn == fs[i].sqlColumn
    decreases |fs|
  {
    if i > 0 {
      KeptColumns(fs[1..], i - 1);
    }
  }

  lemma KeptDistinct(fs: seq<FieldMapping>)
    requires DistinctColumns(fs)
    ensures DistinctColumns(KeptFields(fs))
  {
    hide KeptFields;
    forall i | 0 <= i < |fs|
      ensures KeptFields(fs)[i].sqlColumn == fs[i].sqlColumn
    {
      KeptColumns(fs, i);
    }
  }

  lemma {:induction false} DedupeKept(ms: seq<Mapping>)
    requires forall i :: 0 <= i < |ms| ==> DistinctColumns(ms[i].fields)
    ensures DedupedMappings(KeptMappings(ms)) == KeptMappings(ms)
    decreases |ms|
  {
    hide Deduped;
    if ms != [] {
      DedupeKept(ms[1..]);
      KeptDistinct(ms[0].fields);
      DedupeIdentity(KeptFields(ms[0].fields));
    }
  }

  lemma GoodMapping(m: Mapping, plcs: seq<Plc>)
    requires MappingAccepted(m, plcs) && MappingStorable(m)
    ensures MappingGood(m) && DistinctColumns(m.fields)
  {
    hide IsSafeSqlIdent, FieldStorable, NamesAccepted;
    forall i | 0 <= i < |m.fields|
      ensures FieldStorable(m.fields[i]) && IsSafeSqlIdent(m.fields[i].sqlColumn)
    {
      assert FieldAccepted(m, m.fields[i]);
    }
  }

  lemma SizedStorable(cfg: Config)
    requires Storable(cfg)
    ensures |cfg.plcs| <= MAX_PLCS && |cfg.mappings| <= MAX_MAPPINGS && Sized(cfg.mappings)
  {
    hide FieldStorable, PlcStorable;
    forall i | 0 <= i < |cfg.mappings|
      ensures |cfg.mappings[i].fields| <= MAX_FIELDS_PER_MAPPING
    {
      assert MappingStorable(cfg.mappings[i]);
    }
  }

  /**
   * A configuration that passes the checks and whose texts the blob can hold is
   * read back whole: every PLC, mapping and field, the last pass changing nothing.
   */
  lemma ConfigReadBack(cfg: Config)
    requires Accepted(cfg) && Storable(cfg)
    ensures |cfg.plcs| <= MAX_PLCS && |cfg.mappings| <= MAX_MAPPINGS && Sized(cfg.mappings)
    ensures Decoded(Joined(AllLines(cfg))) == Kept(cfg)
    ensures DecodeLines(AllLines(cfg), DEFAULT_CONFIG) == Kept(cfg)
  {
    hide MappingAccepted, MappingStorable, PlcStorable, HeaderLine, PlcLines, MappingLines, DecodeLine, MappingGood, LineOk;
    hide KeptMappings, DedupedMappings, DistinctColumns, Lines, Joined;
    SizedStorable(cfg);
    forall i | 0 <= i < |cfg.mappings|
      ensures MappingGood(cfg.mappings[i]) && DistinctColumns(cfg.mappings[i].fields)
    {
      GoodMapping(cfg.mappings[i], cfg.plcs);
    }
    var c1 := DEFAULT_CONFIG.(revision := cfg.revision);
    var header := [HeaderLine(cfg)];
    HeaderRead(cfg, DEFAULT_CONFIG);
    assert header[1..] == [] && DecodeLines(header, DEFAULT_CONFIG) == c1;
    PlcsRead(cfg.plcs, c1);
    assert [] + cfg.plcs == cfg.plcs;
    var c2 := c1.(plcs := cfg.plcs);
    MappingsRead(cfg.mappings, c2);
    assert [] + KeptMappings(cfg.mappings) == KeptMappings(cfg.mappings);
    DecodeConcat(header, PlcLines(cfg.plcs), DEFAULT_CONFIG);
    DecodeConcat(header + PlcLines(cfg.plcs), MappingLines(cfg.mappings), DEFAULT_CONFIG);
    assert LinesOk(header) by { HeaderLineOk(cfg); }
    LinesOkConcat(header, PlcLines(cfg.plcs));
    LinesOkConcat(header + PlcLines(cfg.plcs), MappingLines(cfg.mappings));
    LinesJoined(AllLines(cfg));
    DedupeKept(cfg.mappings);
  }

  lemma HeaderShort(cfg: Config)
    requires |cfg.plcs| <= MAX_PLCS && |cfg.mappings| <= MAX_MAPPINGS
    ensures |HeaderLine(cfg)| <= 40
  {
    hide Decimal;
    DecimalLength32(|cfg.plcs|);
    DecimalLength32(|cfg.mappings|);
    DecimalLength32(cfg.revision);
    var args := HeaderArgs(cfg);
    assert Print(HEADER_KINDS[3..], args[3..]) == "";
    assert Print(HEADER_KINDS[2..], args[2..]) == PrintOne(HEADER_KINDS[2], args[2]) + Print(HEADER_KINDS[2..][1..], args[2..][1..]);
    assert Print(HEADER_KINDS[1..], args[1..]) == PrintOne(HEADER_KINDS[1], args[1]) + Print(HEADER_KINDS[1..][1..], args[1..][1..]);
    assert HEADER_KINDS[1..][1..] == HEADER_KINDS[2..] && args[1..][1..] == args[2..];
    assert HEADER_KINDS[2..][1..] == HEADER_KINDS[3..] && args[2..][1..] == args[3..];
  }

  lemma HeaderLineOk(cfg: Config)
    requires |cfg.plcs| <= MAX_PLCS && |cfg.mappings| <= MAX_MAPPINGS
    ensures LineOk(HeaderLine(cfg))
  {
    hide Decimal, DecodeLine;
    HeaderRead(cfg, DEFAULT_CONFIG);
    HeaderShort(cfg);
  }

  // ----- Exactly when -----

  /** The values that the decoder never delivers as empty or zero. */
  predicate PlcGiven(p: Plc) {
    p.name != "" && p.pollIntervalMs != 0 && p.requestTimeoutMs != 0 && p.retryDelayMs != 0
  }

  predicate MappingGiven(m: Mapping) {
    m.name != "" && m.triggerTag != "" && m.ackTag != "" && m.database != "" && m.schema != "" && m.table != ""
  }

  predicate AllGiven(cfg: Config) {
    && (forall i :: 0 <= i < |cfg.plcs| ==> PlcGiven(cfg.plcs[i]))
    && (forall i :: 0 <= i < |cfg.mappings| ==> MappingGiven(cfg.mappings[i]))
  }

  lemma {:induction false} WordsNotEmpty(kinds: seq<Kind>, s: string, i: nat)
    requires i < |Scan(kinds, s)| && kinds[i].Word?
    ensures Scan(kinds, s)[i].Str? && Scan(kinds, s)[i].text != ""
    decreases i
  {
    hide SkipSpace, ScanNumber;
    var r := ScanOne(kinds[0], s).value;
    if i > 0 {
      WordsNotEmpty(kinds[1..], r.rest, i - 1);
    }
  }

  lemma PlcLineGiven(line: string, cfg: Config)
    requires AllGiven(cfg) && line != ""
    ensures AllGiven(DecodePlc(line, cfg))
  {
    hide Scan, Address, MappingGiven;
    var args := Scan(PLC_KINDS, line[1..]);
    if |args| >= 7 {
      WordsNotEmpty(PLC_KINDS, line[1..], 2);
      assert PlcGiven(PlcOf(args));
    }
  }

  lemma MappingLineGiven(line: string, cfg: Config)
    requires AllGiven(cfg) && line != ""
    ensures AllGiven(DecodeMapping(line, cfg))
  {
    hide Scan, PlcGiven;
    var kinds := MAPPING_HEAD_KINDS + COLUMN_KINDS;
    var args := Scan(kinds, line[1..]);
    if |args| >= 10 {
      WordsNotEmpty(kinds, line[1..], 3);
      WordsNotEmpty(kinds, line[1..], 4);
      WordsNotEmpty(kinds, line[1..], 5);
      WordsNotEmpty(kinds, line[1..], 7);
      WordsNotEmpty(kinds, line[1..], 8);
      WordsNotEmpty(kinds, line[1..], 9);
      assert MappingGiven(MappingOf(args));
    }
  }

  lemma FieldLineGiven(line: string, cfg: Config)
    requires AllGiven(cfg) && line != "" && cfg.mappings != []
    ensures AllGiven(DecodeField(line, cfg))
  {
    hide Scan, FieldOf, PlcGiven;
  }

  /** Whatever the blob, what is decoded is never empty in those places. */
  lemma {:induction false} LinesGiven(lines: seq<string>, cfg: Config)
    requires AllGiven(cfg)
    ensures AllGiven(DecodeLines(lines, cfg))
    decreases |lines|
  {
    hide DecodePlc, DecodeMapping, DecodeField, PlcGiven, MappingGiven, Scan;
    if lines != [] {
      if lines[0] != "" {
        PlcLineGiven(lines[0], cfg);
        MappingLineGiven(lines[0], cfg);
        if cfg.mappings != [] {
          FieldLineGiven(lines[0], cfg);
        }
      }
      LinesGiven(lines[1..], DecodeLine(lines[0], cfg));
    }
  }

  lemma {:induction false} DedupeGiven(ms: seq<Mapping>, i: nat)
    ensures |DedupedMappings(ms)| == |ms|
    ensures i < |ms| ==> DedupedMappings(ms)[i] == ms[i].(fields := Deduped(ms[i].fields))
    decreases |ms|
  {
    hide Deduped;
    if ms != [] {
      DedupeGiven(ms[1..], if i > 0 then i - 1 else 0);
    }
  }

  lemma {:induction false} KeptAt(ms: seq<Mapping>, i: nat)
    ensures |KeptMappings(ms)| == |ms|
    ensures i < |ms| ==> KeptMappings(ms)[i] == KeptMapping(ms[i])
    decreases |ms|
  {
    hide KeptFields;
    if ms != [] {
      KeptAt(ms[1..], if i > 0 then i - 1 else 0);
    }
  }

  lemma DecodedGiven(blob: string)
    ensures AllGiven(Decoded(blob))
  {
    hide Lines, Deduped, DecodeLines, PlcGiven;
    var cfg := DecodeLines(Lines(blob), DEFAULT_CONFIG);
    LinesGiven(Lines(blob), DEFAULT_CONFIG);
    forall i | 0 <= i < |cfg.mappings|
      ensures |DedupedMappings(cfg.mappings)| == |cfg.mappings| && MappingGiven(DedupedMappings(cfg.mappings)[i])
    {
      DedupeGiven(cfg.mappings, i);
    }
    DedupeGiven(cfg.mappings, 0);
  }

  ghost predicate PlainOrEmpty(text: string, max: nat) {
    text == "" || Plain(text, max)
  }

  ghost predicate PlcTextsFit(p: Plc) {
    PlainOrEmpty(p.name, 31) && |PlcLine(p)| + 1 < LINE_BUFFER
  }

  /** What the blob asks of the texts apart from being there. */
  ghost predicate TextsFit(cfg: Config) {
    && (forall i :: 0 <= i < |cfg.plcs| ==> PlcTextsFit(cfg.plcs[i]))
    && (forall i :: 0 <= i < |cfg.mappings| ==> MappingTextsFit(cfg.mappings[i]))
  }

  ghost predicate MappingTextsFit(m: Mapping) {
    && PlainOrEmpty(m.name, 31) && PlainOrEmpty(m.triggerTag, 63) && PlainOrEmpty(m.ackTag, 63)
    && |m.database| <= 63 && |m.schema| <= 31 && |m.table| <= 127 && PlainOrEmpty(m.plcNameColumn, 63)
    && m.operation in {OP_INSERT, OP_UPDATE}
    && |m.fields| <= MAX_FIELDS_PER_MAPPING && |MappingLine(m)| + 1 < LINE_BUFFER
    && forall i :: 0 <= i < |m.fields| ==> FieldStorable(m.fields[i])
  }

  /**
   * For an accepted configuration whose texts fit, the blob gives it back
   * exactly if no PLC or mapping name, database or schema is empty and no PLC
   * interval is zero - all of which the checks let through.
   */
  lemma RoundTripExactly(cfg: Config)
    requires Accepted(cfg) && TextsFit(cfg)
    ensures |cfg.plcs| <= MAX_PLCS && |cfg.mappings| <= MAX_MAPPINGS && Sized(cfg.mappings)
    ensures Decoded(Joined(AllLines(cfg))) == Kept(cfg) <==> AllGiven(cfg)
  {
    hide Decoded, Joined, AllLines, MappingAccepted, Plain, FieldStorable, PlcLine, MappingLine;
    forall i | 0 <= i < |cfg.mappings|
      ensures |cfg.mappings[i].fields| <= MAX_FIELDS_PER_MAPPING
    {
      assert MappingTextsFit(cfg.mappings[i]);
    }
    if AllGiven(cfg) {
      forall i | 0 <= i < |cfg.mappings|
        ensures MappingStorable(cfg.mappings[i])
      {
        assert MappingTextsFit(cfg.mappings[i]) && MappingGiven(cfg.mappings[i]);
      }
      forall i | 0 <= i < |cfg.plcs|
        ensures PlcStorable(cfg.plcs[i])
      {
        assert PlcTextsFit(cfg.plcs[i]) && PlcGiven(cfg.plcs[i]);
      }
      ConfigReadBack(cfg);
    } else {
      DecodedGiven(Joined(AllLines(cfg)));
      KeptNotGiven(cfg);
    }
  }

  lemma KeptNotGiven(cfg: Config)
    ensures AllGiven(Kept(cfg)) <==> AllGiven(cfg)
  {
    hide PlcGiven, KeptFields;
    forall i | 0 <= i < |cfg.mappings|
      ensures |Kept(cfg).mappings| == |cfg.mappings|
      ensures MappingGiven(Kept(cfg).mappings[i]) == MappingGiven(cfg.mappings[i])
    {
      KeptAt(cfg.mappings, i);
    }
    KeptAt(cfg.mappings, 0);
  }
}
