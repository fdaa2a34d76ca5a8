/** The gateway's records: field mappings, captured values and captured events. */
module GatewayTypes {
  import opened Bytes

  const MAX_FIELDS_PER_MAPPING := 16
  const MAX_TAG_LEN := 64
  const MAX_SQL_IDENT_LEN := 64
  const MAX_STRING_VALUE_LEN := 64
  const MAX_SERIALIZED_EVENT := 1024
  const DATABASE_LEN := 64
  const SCHEMA_LEN := 32
  const TABLE_LEN := 128

  // PLC data types, as the one-byte codes that are stored.
  const PLC_BOOL: byte := 0
  const PLC_SINT: byte := 1
  const PLC_INT: byte := 2
  const PLC_DINT: byte := 3
  const PLC_REAL: byte := 4
  const PLC_STRING: byte := 5
  const PLC_UNKNOWN: byte := 6
  const PLC_USINT: byte := 7
  const PLC_UINT: byte := 8
  const PLC_UDINT: byte := 9
  const PLC_LINT: byte := 10
  const PLC_ULINT: byte := 11
  const PLC_LREAL: byte := 12

  // SQL data types.
  const SQL_BIT: byte := 0
  const SQL_TINYINT: byte := 1
  const SQL_SMALLINT: byte := 2
  const SQL_INT: byte := 3
  const SQL_REAL: byte := 4
  const SQL_FLOAT: byte := 5
  const SQL_NVARCHAR: byte := 6
  const SQL_VARCHAR: byte := 7
  const SQL_BIGINT: byte := 9

  const OP_INSERT: byte := 0
  const OP_UPDATE: byte := 1

  type i64 = x: int | -0x8000_0000_0000_0000 <= x < 0x8000_0000_0000_0000

  datatype FieldMapping = FieldMapping(
    plcTag: string,
    plcType: byte,
    sqlColumn: string,
    sqlType: byte,
    required: bool,
    nullable: bool,
    isWhereKey: bool,
    scale: real,
    offset: real,
    maxStringLength: u16)

  /** `f32` holds the four raw bytes of the float. */
  datatype FieldValue = FieldValue(
    valid: bool,
    isNull: bool,
    plcType: byte,
    i64: i64,
    f32: u32,
    text: string)

  datatype CapturedEvent = CapturedEvent(
    eventId: u64,
    plcId: u32,
    mappingId: u32,
    configRevision: u32,
    captureSecs: u32,
    operation: byte,
    database: string,
    schema: string,
    table: string,
    fields: seq<FieldMapping>,
    values: seq<FieldValue>)

  /** The text fits a char buffer of `cap` bytes with its NUL. */
  ghost predicate Fits(s: string, cap: nat) {
    IsText(s) && |s| < cap
  }

  ghost predicate ValidField(f: FieldMapping) {
    Fits(f.plcTag, MAX_TAG_LEN) && Fits(f.sqlColumn, MAX_SQL_IDENT_LEN)
  }

  ghost predicate ValidValue(v: FieldValue) {
    Fits(v.text, MAX_STRING_VALUE_LEN)
  }

  ghost predicate ValidFields(fs: seq<FieldMapping>, vs: seq<FieldValue>) {
    && |fs| == |vs|
    && (forall i :: 0 <= i < |fs| ==> ValidField(fs[i]))
    && (forall i :: 0 <= i < |vs| ==> ValidValue(vs[i]))
  }

  /** The event fits the fixed buffers of the C++ record. */
  ghost predicate ValidEvent(ev: CapturedEvent) {
    && Fits(ev.database, DATABASE_LEN)
    && Fits(ev.schema, SCHEMA_LEN)
    && Fits(ev.table, TABLE_LEN)
    && |ev.fields| <= MAX_FIELDS_PER_MAPPING
    && ValidFields(ev.fields, ev.values)
  }
}
