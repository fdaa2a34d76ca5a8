/** The gateway configuration as a text blob: encoding, decoding, and the checks made before it is saved. */
module ConfigBlob {
  import opened Bytes
  import opened GatewayTypes
  import opened Decimals
  import opened Strings
  import opened Scanf

  const MAX_PLCS: nat := 4
  const MAX_MAPPINGS: nat := 8
  const LINE_BUFFER: nat := 256
  const DECODE_LINE_BUFFER: nat := 320

  datatype Plc = Plc(
    id: u32, enabled: bool, name: string, ip: u32, pollIntervalMs: u32, requestTimeoutMs: u32, retryDelayMs: u32)

  const DEFAULT_CAPTURE_RETRIES: u32 := 3
  const DEFAULT_CAPTURE_RETRY_DELAY: u32 := 250

  datatype Mapping = Mapping(
    id: u32, plcId: u32, enabled: bool, name: string, triggerTag: string, ackTag: string, operation: byte,
    database: string, schema: string, table: string, fields: seq<FieldMapping>,
    maxCaptureRetries: u32, captureRetryDelayMs: u32, includePlcName: bool, plcNameColumn: string)

  const IDEMPOTENCY_NONE: byte := 0
  const IDEMPOTENCY_EVENT_ID_COLUMN: byte := 1

  datatype Config = Config(
    enabled: bool, idempotency: byte, eventIdColumn: string, plcs: seq<Plc>, mappings: seq<Mapping>, revision: u32)

  const DEFAULT_EVENT_ID_COLUMN := "GatewayEventId"

  /** ConfigSetDefaults */
  const DEFAULT_CONFIG := Config(false, IDEMPOTENCY_NONE, DEFAULT_EVENT_ID_COLUMN, [], [], 0)

  const TAB := '\t'

  // ----- Line formats -----

  const HEADER_KINDS: seq<Kind> := [Number('\t'), Number('\t'), Number('\t')]

  const PLC_KINDS: seq<Kind> := [
    Number('\t'), Number('\t'), Word(31),
    Number('\t'), Number('.'), Number('.'), Number('.'),
    Number('\t'), Number('\t'), Number('\t')]

  const MAPPING_HEAD_KINDS: seq<Kind> := [
    Number('\t'), Number('\t'), Number('\t'), Word(31), Word(63), Word(63), Number('\t'),
    Word(63), Word(31), Word(127), Number('\t'), Number('\t')]

  const COLUMN_KINDS: seq<Kind> := [Word(63)]

  const FIELD_KINDS: seq<Kind> := [
    Word(63), Number('\t'), Word(63), Number('\t'), Number('\t'), Number('\t'), Number('\t')]

  function Bit(b: bool): Arg {
    Num(if b then 1 else 0)
  }

  function HeaderArgs(cfg: Config): seq<Arg>
    requires |cfg.plcs| <= MAX_PLCS && |cfg.mappings| <= MAX_MAPPINGS
  {
    [Num(|cfg.plcs|), Num(|cfg.mappings|), Num(cfg.revision)]
  }

  function PlcArgs(p: Plc): seq<Arg> {
    var ip: int := p.ip;
    [Num(p.id), Bit(p.enabled), Str(p.name),
     Num(ip / 0x100_0000), Num(ip / 0x1_0000 % 0x100), Num(ip / 0x100 % 0x100), Num(ip % 0x100),
     Num(p.pollIntervalMs), Num(p.requestTimeoutMs), Num(p.retryDelayMs)]
  }

  function MappingHeadArgs(m: Mapping): seq<Arg>
    requires |m.fields| <= MAX_FIELDS_PER_MAPPING
  {
    [Num(m.id), Num(m.plcId), Bit(m.enabled), Str(m.name), Str(m.triggerTag), Str(m.ackTag), Num(m.operation),
     Str(m.database), Str(m.schema), Str(m.table), Num(|m.fields|), Bit(m.includePlcName)]
  }

  function FieldArgs(f: FieldMapping): seq<Arg> {
    [Str(f.plcTag), Num(f.plcType), Str(f.sqlColumn), Num(f.sqlType), Bit(f.required), Bit(f.nullable), Bit(f.isWhereKey)]
  }

  function HeaderLine(cfg: Config): string
    requires |cfg.plcs| <= MAX_PLCS && |cfg.mappings| <= MAX_MAPPINGS
  {
    "V1" + Print(HEADER_KINDS, HeaderArgs(cfg))
  }

  function PlcLine(p: Plc): string {
    "P" + Print(PLC_KINDS, PlcArgs(p))
  }

  function MappingLine(m: Mapping): string
    requires |m.fields| <= MAX_FIELDS_PER_MAPPING
  {
    "M" + (Print(MAPPING_HEAD_KINDS, MappingHeadArgs(m)) + ([TAB] + m.plcNameColumn))
  }

  function FieldLine(f: FieldMapping): string {
    "F" + Print(FIELD_KINDS, FieldArgs(f))
  }

  // ----- Encoding -----

  function PlcLines(ps: seq<Plc>): seq<string> {
    if ps == [] then [] else [PlcLine(ps[0])] + PlcLines(ps[1..])
  }

  function FieldLines(fs: seq<FieldMapping>): seq<string> {
    if fs == [] then [] else [FieldLine(fs[0])] + FieldLines(fs[1..])
  }

  ghost predicate Sized(ms: seq<Mapping>) {
    forall i :: 0 <= i < |ms| ==> |ms[i].fields| <= MAX_FIELDS_PER_MAPPING
  }

  function MappingLines(ms: seq<Mapping>): seq<string>
    requires Sized(ms)
  {
    if ms == [] then [] else [MappingLine(ms[0])] + FieldLines(ms[0].fields) + MappingLines(ms[1..])
  }

  function AllLines(cfg: Config): seq<string>
    requires |cfg.plcs| <= MAX_PLCS && |cfg.mappings| <= MAX_MAPPINGS && Sized(cfg.mappings)
  {
    [HeaderLine(cfg)] + PlcLines(cfg.plcs) + MappingLines(cfg.mappings)
  }

  /** sniprintf into the line buffer: what does not fit is cut off, the newline first. */
  function Buffered(line: string): string {
    if |line| + 1 < LINE_BUFFER then line + "\n" else line[..LINE_BUFFER - 1]
  }

  function Joined(lines: seq<string>): string {
    if lines == [] then "" else Buffered(lines[0]) + Joined(lines[1..])
  }

  // ----- Decoding -----

  function NumAt(args: seq<Arg>, i: nat, missing: u32): u32 {
    if i < |args| && args[i].Num? then args[i].value else missing
  }

  function StrAt(args: seq<Arg>, i: nat): string {
    if i < |args| && args[i].Str? then args[i].text else ""
  }

  function OrDefault(v: u32, value: u32): u32 {
    if v != 0 then v else value
  }

  /** The address from its four numbers, which are taken to be octets. */
  function Address(a: u32, b: u32, c: u32, d: u32): u32 {
    var w: int, x: int, y: int, z: int := a, b, c, d;
    (w * 0x100_0000 + x * 0x1_0000 + y * 0x100 + z) % 0x1_0000_0000
  }

  function PlcOf(args: seq<Arg>): Plc {
    Plc(NumAt(args, 0, 0), NumAt(args, 1, 0) != 0, StrAt(args, 2),
        Address(NumAt(args, 3, 0), NumAt(args, 4, 0), NumAt(args, 5, 0), NumAt(args, 6, 0)),
        OrDefault(NumAt(args, 7, 200), 200), OrDefault(NumAt(args, 8, 3000), 3000), OrDefault(NumAt(args, 9, 500), 500))
  }

  function MappingOf(args: seq<Arg>): Mapping {
    Mapping(NumAt(args, 0, 0), NumAt(args, 1, 0), NumAt(args, 2, 0) != 0,
            StrAt(args, 3), StrAt(args, 4), StrAt(args, 5), if NumAt(args, 6, 0) == 1 then OP_UPDATE else OP_INSERT,
            StrAt(args, 7), StrAt(args, 8), StrAt(args, 9), [],
            DEFAULT_CAPTURE_RETRIES, DEFAULT_CAPTURE_RETRY_DELAY,
            |args| >= 12 && NumAt(args, 11, 0) != 0, StrAt(args, 12))
  }

  function FieldOf(args: seq<Arg>): FieldMapping {
    var pt: int, st: int := NumAt(args, 1, 0), NumAt(args, 3, 0);
    FieldMapping(StrAt(args, 0), pt % 0x100, StrAt(args, 2), st % 0x100,
                 NumAt(args, 4, 1) != 0, NumAt(args, 5, 0) != 0, NumAt(args, 6, 0) != 0,
                 1.0, 0.0, MAX_STRING_VALUE_LEN)
  }

  function DecodeHeader(line: string, cfg: Config): Config {
    var args := if "V1" <= line then Scan(HEADER_KINDS, line[2..]) else [];
    cfg.(revision := NumAt(args, 2, 0))
  }

  function DecodePlc(line: string, cfg: Config): Config
    requires line != ""
  {
    var args := Scan(PLC_KINDS, line[1..]);
    if |args| >= 7 then cfg.(plcs := cfg.plcs + [PlcOf(args)]) else cfg
  }

  function DecodeMapping(line: string, cfg: Config): Config
    requires line != ""
  {
    var args := Scan(MAPPING_HEAD_KINDS + COLUMN_KINDS, line[1..]);
    if |args| >= 10 then cfg.(mappings := cfg.mappings + [MappingOf(args)]) else cfg
  }

  /** A field line goes to the mapping read last. */
  function DecodeField(line: string, cfg: Config): Config
    requires line != "" && cfg.mappings != []
  {
    var args := Scan(FIELD_KINDS, line[1..]);
    var k := |cfg.mappings| - 1;
    var m := cfg.mappings[k];
    if |args| >= 4 then cfg.(mappings := cfg.mappings[k := m.(fields := m.fields + [FieldOf(args)])]) else cfg
  }

  function DecodeLine(line: string, cfg: Config): Config {
    if line == "" then cfg
    else if line[0] == 'V' then DecodeHeader(line, cfg)
    else if line[0] == 'P' && |cfg.plcs| < MAX_PLCS then DecodePlc(line, cfg)
    else if line[0] == 'M' && |cfg.mappings| < MAX_MAPPINGS then DecodeMapping(line, cfg)
    else if line[0] == 'F' && cfg.mappings != [] && |cfg.mappings[|cfg.mappings| - 1].fields| < MAX_FIELDS_PER_MAPPING
    then DecodeField(line, cfg)
    else cfg
  }

  function DecodeLines(lines: seq<string>, cfg: Config): Config
    decreases |lines|
  {
    if lines == [] then cfg else DecodeLines(lines[1..], DecodeLine(lines[0], cfg))
  }

  function Cut(line: string): string {
    if |line| >= DECODE_LINE_BUFFER then line[..DECODE_LINE_BUFFER - 1] else line
  }

  function Lines(s: string): seq<string>
    decreases |s|
  {
    if s == "" then []
    else
      var n := UpTo(s, '\n');
      [Cut(s[..n])] + Lines(s[if n < |s| then n + 1 else n..])
  }

  /** A later field of the same column is dropped. */
  function Deduped(fs: seq<FieldMapping>): seq<FieldMapping> {
    if fs == [] then []
    else
      var n := |fs| - 1;
      var kept := Deduped(fs[..n]);
      if exists j :: 0 <= j < |kept| && kept[j].sqlColumn == fs[n].sqlColumn then kept else kept + [fs[n]]
  }

  function DedupedMappings(ms: seq<Mapping>): seq<Mapping> {
    if ms == [] then [] else [ms[0].(fields := Deduped(ms[0].fields))] + DedupedMappings(ms[1..])
  }

  /** DecodeBlob sets the defaults first, whatever the configuration held before. */
  function Decoded(blob: string): Config {
    var cfg := DecodeLines(Lines(blob), DEFAULT_CONFIG);
    cfg.(mappings := DedupedMappings(cfg.mappings))
  }
}
