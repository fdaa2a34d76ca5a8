/** The tokens of a tabular result. */
module TdsTokens {
  // ROW fields by column type, sized tokens and the DONE family, read from the
  // front of whatever bytes have arrived.

  import opened Bytes

  const TOKEN_OFFSET: byte := 0x78
  const TOKEN_RETURNSTATUS: byte := 0x79
  const TOKEN_COLMETADATA: byte := 0x81
  const TOKEN_ERROR: byte := 0xAA
  const TOKEN_INFO: byte := 0xAB
  const TOKEN_LOGINACK: byte := 0xAD
  const TOKEN_ROW: byte := 0xD1
  const TOKEN_ENVCHANGE: byte := 0xE3
  const TOKEN_DONE: byte := 0xFD
  const TOKEN_DONEPROC: byte := 0xFE
  const TOKEN_DONEINPROC: byte := 0xFF

  const MIN_TOKEN_BYTES: nat := 3

  // ----- Column types -----

  datatype SizeKind = FixedSize(n: nat) | Length8 | Length16 | Length32 | Precision

  datatype TypeProps = TypeProps(size: SizeKind, textptr: bool, maxIsNull: bool, zeroIsNull: bool)

  /** get_data_type_props; None for a type of unknown size. */
  function PropsOf(t: byte): Option<TypeProps> {
    if t == 0x01 then Some(TypeProps(FixedSize(0), false, false, false))
    else if t in {0x30, 0x32} then Some(TypeProps(FixedSize(1), false, false, false))
    else if t == 0x34 then Some(TypeProps(FixedSize(2), false, false, false))
    else if t in {0x38, 0x3A, 0x3B, 0x7A} then Some(TypeProps(FixedSize(4), false, false, false))
    else if t in {0x7F, 0x3D, 0x3E, 0x3C} then Some(TypeProps(FixedSize(8), false, false, false))
    else if t in {0x6A, 0x6C} then Some(TypeProps(Precision, false, false, false))
    else if t in {0x24, 0x26, 0x68, 0x6D, 0x6E, 0x6F} then Some(TypeProps(Length8, false, false, true))
    else if t in {0xAF, 0xA7, 0xE7, 0xEF, 0xAD, 0xA5} then Some(TypeProps(Length16, false, true, false))
    else if t in {0x63, 0x23, 0x22} then Some(TypeProps(Length32, true, true, false))
    else None
  }

  /** is_valid_variable_length_for_type */
  predicate ValidLength(t: byte, n: nat) {
    n == 0
    || (if t in {0x6A, 0x6C} then n in {5, 9, 13, 17}
        else if t in {0x6E, 0x6F, 0x6D} then n in {4, 8}
        else if t == 0x26 then n in {1, 2, 4, 8}
        else if t == 0x24 then n == 16
        else if t == 0x68 then n == 1
        else true)
  }

  // ----- Fields and rows -----

  datatype Field = Null | Value(data: seq<byte>)

  /** Short: more bytes are needed. Bad: the bytes are no such thing. Ok: a value in the first `size` bytes. */
  datatype Read<+T> = Short | Bad | Ok(value: T, size: nat)

  function Count(b: byte): nat {
    b
  }

  /** A text pointer with its timestamp; the byte 0xFF is left for the length. */
  function SkipTextptr(s: seq<byte>): (r: Read<()>)
    ensures r.Ok? ==> r.size <= |s|
  {
    if |s| < 1 then Short
    else if s[0] == 0xFF then Ok((), 0)
    else if |s| < 1 + Count(s[0]) + 8 then Short
    else Ok((), 1 + Count(s[0]) + 8)
  }

  function ReadLength(size: SizeKind, s: seq<byte>): (r: Read<nat>)
    ensures r.Ok? ==> r.size <= |s|
  {
    match size
    case FixedSize(n) => Ok(n, 0)
    case Length8 => if |s| < 1 then Short else Ok(s[0], 1)
    case Precision => if |s| < 1 then Short else Ok(s[0], 1)
    case Length16 => if |s| < 2 then Short else Ok(Get16(s), 2)
    case Length32 => if |s| < 4 then Short else Ok(Get32(s), 4)
  }

  predicate LengthIsNull(p: TypeProps, n: nat) {
    match p.size
    case Length8 => p.zeroIsNull && n == 0
    case Precision => p.zeroIsNull && n == 0
    case Length16 => p.maxIsNull && n == 0xFFFF
    case Length32 => p.maxIsNull && n == 0xFFFF_FFFF
    case FixedSize(_) => false
  }

  function ReadData(t: byte, p: TypeProps, n: nat, s: seq<byte>): (r: Read<Field>)
    ensures r.Ok? ==> r.size <= |s|
  {
    if !p.size.FixedSize? && !ValidLength(t, n) then Bad
    else if LengthIsNull(p, n) then Ok(Null, 0)
    else if |s| < n then Short
    else Ok(Value(s[..n]), n)
  }

  function ReadSized(t: byte, p: TypeProps, s: seq<byte>): (r: Read<Field>)
    ensures r.Ok? ==> r.size <= |s|
  {
    match ReadLength(p.size, s)
    case Short => Short
    case Bad => Bad
    case Ok(n, k) =>
      match ReadData(t, p, n, s[k..])
      case Short => Short
      case Bad => Bad
      case Ok(f, m) => Ok(f, k + m)
  }

  function ReadField(t: byte, s: seq<byte>): (r: Read<Field>)
    ensures r.Ok? ==> r.size <= |s|
  {
    match PropsOf(t)
    case None => Bad
    case Some(p) =>
      if !p.textptr then ReadSized(t, p, s)
      else
        match SkipTextptr(s)
        case Short => Short
        case Bad => Bad
        case Ok(_, k) =>
          match ReadSized(t, p, s[k..])
          case Short => Short
          case Bad => Bad
          case Ok(f, m) => Ok(f, k + m)
  }

  /** handle_row_token: one field for each column. */
  function ReadRow(columns: seq<byte>, s: seq<byte>): (r: Read<seq<Field>>)
    ensures r.Ok? ==> r.size <= |s|
  {
    if columns == [] then Ok([], 0)
    else
      match ReadField(columns[0], s)
      case Short => Short
      case Bad => Bad
      case Ok(f, k) =>
        match ReadRow(columns[1..], s[k..])
        case Short => Short
        case Bad => Bad
        case Ok(fs, m) => Ok([f] + fs, k + m)
  }

  // ----- Sized tokens -----

  datatype Event =
    | Row(fields: seq<Field>)
    | EnvChange(kind: byte, newValue: seq<byte>, oldValue: seq<byte>)
    | Info(number: u32, state: byte, class_: byte, text: seq<byte>, server: seq<byte>, procedure: seq<byte>, line: u16)
    | LoginAck(interface_: byte, version: u32, program: seq<byte>, programVersion: seq<byte>)
    | Done(status: u16, command: u16, rows: u32)

  /** A handler ends, asks for more bytes than its token has, or reads past the end. */
  datatype Handled = Finished(event: Option<Event>) | WantsMore | Trapped

  /** A counted string of two-byte characters behind a one-byte count; Bad if not even the count is there. */
  function TakeText8(s: seq<byte>): (r: Read<seq<byte>>)
    ensures r.Ok? ==> r.size <= |s|
  {
    if |s| < 1 then Bad
    else if |s| < 1 + 2 * Count(s[0]) then Short
    else Ok(s[1..1 + 2 * Count(s[0])], 1 + 2 * Count(s[0]))
  }

  function TakeText16(s: seq<byte>): (r: Read<seq<byte>>)
    ensures r.Ok? ==> r.size <= |s|
  {
    if |s| < 2 then Bad
    else
      var n: nat := 2 * Get16(s);
      if |s| < 2 + n then Short else Ok(s[2..2 + n], 2 + n)
  }

  function HandleEnvChange(t: seq<byte>): Handled {
    if t == [] then Trapped
    else if t[0] !in {1, 2, 3, 4} then Finished(None)
    else if |t| < 2 || |t| < 2 + 2 * Count(t[1]) + 1 then WantsMore
    else
      var n := 2 * Count(t[1]);
      match TakeText8(t[2 + n..])
      case Ok(oldValue, _) => Finished(Some(EnvChange(t[0], t[2..2 + n], oldValue)))
      case _ => WantsMore
  }

  function HandleInfo(t: seq<byte>): Handled {
    if |t| < 14 then WantsMore
    else
      match TakeText16(t[6..])
      case Bad => Trapped
      case Short => WantsMore
      case Ok(text, a) =>
        match TakeText8(t[6 + a..])
        case Bad => Trapped
        case Short => WantsMore
        case Ok(server, b) =>
          match TakeText8(t[6 + a + b..])
          case Bad => Trapped
          case Short => WantsMore
          case Ok(procedure, c) =>
            var rest := t[6 + a + b + c..];
            if |rest| < 2 then Trapped
            else Finished(Some(Info(Get32(t), t[4], t[5], text, server, procedure, Get16(rest))))
  }

  function HandleLoginAck(t: seq<byte>): Handled {
    if |t| < 10 then WantsMore
    else
      match TakeText8(t[5..])
      case Bad => Trapped
      case Short => WantsMore
      case Ok(program, k) =>
        var rest := t[5 + k..];
        if |rest| < 4 then WantsMore else Finished(Some(LoginAck(t[0], Get32(t[1..]), program, rest[..4])))
  }

  function HandleDone(t: seq<byte>): Handled {
    if |t| < 8 then WantsMore else Finished(Some(Done(Get16(t), Get16(t[2..]), Get32(t[4..]))))
  }

  function Handle(token: byte, t: seq<byte>): Handled {
    if token == TOKEN_ENVCHANGE then HandleEnvChange(t)
    else if token == TOKEN_ERROR || token == TOKEN_INFO then HandleInfo(t)
    else if token in {TOKEN_DONE, TOKEN_DONEPROC, TOKEN_DONEINPROC} then HandleDone(t)
    else if token == TOKEN_LOGINACK then HandleLoginAck(t)
    else Finished(None)
  }

  function FixedTokenSize(token: byte): (n: nat)
    ensures n <= 8
  {
    if token in {TOKEN_DONE, TOKEN_DONEPROC, TOKEN_DONEINPROC} then 8
    else if token in {TOKEN_OFFSET, TOKEN_RETURNSTATUS} then 4
    else 0
  }

  // ----- One token of the stream -----

  /**
   * Need: wait for more. Got: a token of `size` bytes. Stopped: a token whose
   * handler wants more bytes than it has. Broken: not well-formed.
   */
  datatype TokenStep = Need | Got(event: Option<Event>, size: nat) | Stopped(size: nat) | Broken

  function SizedToken(token: byte, start: nat, size: nat, s: seq<byte>): TokenStep {
    if |s| < start + size then Need
    else
      match Handle(token, s[start..start + size])
      case Finished(event) => Got(event, start + size)
      case WantsMore => Stopped(start + size)
      case Trapped => Broken
  }

  /** The next token under the current columns; column metadata is taken as read. */
  function NextToken(columns: seq<byte>, s: seq<byte>): (step: TokenStep)
    ensures step.Got? || step.Stopped? ==> 0 < step.size <= |s|
  {
    if |s| < MIN_TOKEN_BYTES then Need
    else if s[0] == TOKEN_COLMETADATA then Broken
    else if s[0] == TOKEN_ROW then
      match ReadRow(columns, s[1..])
      case Short => Need
      case Bad => Broken
      case Ok(fields, n) => Got(Some(Row(fields)), 1 + n)
    else if FixedTokenSize(s[0]) > 0 then SizedToken(s[0], 1, FixedTokenSize(s[0]), s)
    else SizedToken(s[0], 3, Get16(s[1..]), s)
  }

  // ----- Shorter input -----

  /** What is read of `s` is read of its prefix `p` too, or `p` is too short for it. */
  ghost predicate StableRead<T>(r: Read<T>, rp: Read<T>, p: seq<byte>) {
    r.Ok? ==> rp == if |p| < r.size then Short else r
  }

  lemma Behind(s: seq<byte>, p: seq<byte>, k: nat)
    requires p <= s && k <= |p|
    ensures p[k..] <= s[k..] && p[..k] == s[..k]
  {
  }

  /** The look at the first byte needs that byte, even if it is then left. */
  lemma StableTextptr(s: seq<byte>, p: seq<byte>)
    requires p <= s
    ensures |p| >= 1 ==> StableRead(SkipTextptr(s), SkipTextptr(p), p)
    ensures |p| == 0 ==> SkipTextptr(p) == Short
  {
  }

  /** A text pointer is always followed by a length of four bytes. */
  lemma TextptrLength(t: byte, s: seq<byte>)
    requires PropsOf(t).Some? && PropsOf(t).value.textptr
    ensures ReadSized(t, PropsOf(t).value, s).Ok? ==> ReadSized(t, PropsOf(t).value, s).size >= 4
  {
    hide ReadData;
  }

  lemma SameWord(s: seq<byte>, p: seq<byte>)
    requires p <= s && |p| >= 2
    ensures Get16(s) == Get16(p)
    ensures |p| >= 4 ==> Get32(s) == Get32(p)
  {
  }

  lemma StableLength(size: SizeKind, s: seq<byte>, p: seq<byte>)
    requires p <= s
    ensures StableRead(ReadLength(size, s), ReadLength(size, p), p)
  {
    if |p| >= 2 {
      SameWord(s, p);
    }
  }

  lemma StableData(t: byte, props: TypeProps, n: nat, s: seq<byte>, p: seq<byte>)
    requires p <= s
    ensures StableRead(ReadData(t, props, n, s), ReadData(t, props, n, p), p)
  {
    hide ValidLength, LengthIsNull;
    assert n <= |p| ==> p[..n] == s[..n];
  }

  lemma StableSized(t: byte, props: TypeProps, s: seq<byte>, p: seq<byte>)
    requires p <= s
    ensures StableRead(ReadSized(t, props, s), ReadSized(t, props, p), p)
  {
    hide ReadLength, ReadData;
    StableLength(props.size, s, p);
    if ReadLength(props.size, s).Ok? && ReadLength(props.size, s).size <= |p| {
      var n, k := ReadLength(props.size, s).value, ReadLength(props.size, s).size;
      Behind(s, p, k);
      StableData(t, props, n, s[k..], p[k..]);
    }
  }

  lemma StableField(t: byte, s: seq<byte>, p: seq<byte>)
    requires p <= s
    ensures StableRead(ReadField(t, s), ReadField(t, p), p)
  {
    hide SkipTextptr, ReadSized, PropsOf;
    if PropsOf(t).Some? {
      var props := PropsOf(t).value;
      if props.textptr {
        StableTextptr(s, p);
        if SkipTextptr(s).Ok? {
          TextptrLength(t, s[SkipTextptr(s).size..]);
        }
        if SkipTextptr(s).Ok? && SkipTextptr(s).size <= |p| {
          var k := SkipTextptr(s).size;
          Behind(s, p, k);
          StableSized(t, props, s[k..], p[k..]);
        }
      } else {
        StableSized(t, props, s, p);
      }
    }
  }

  lemma {:induction false} StableRow(columns: seq<byte>, s: seq<byte>, p: seq<byte>)
    requires p <= s
    ensures StableRead(ReadRow(columns, s), ReadRow(columns, p), p)
    decreases |columns|
  {
    hide ReadField;
    if columns != [] {
      StableField(columns[0], s, p);
      if ReadField(columns[0], s).Ok? && ReadField(columns[0], s).size <= |p| {
        var k := ReadField(columns[0], s).size;
        Behind(s, p, k);
        StableRow(columns[1..], s[k..], p[k..]);
      }
    }
  }

  /** A token once read whole is read alike from every prefix that holds it, and waited for otherwise. */
  lemma StableToken(columns: seq<byte>, s: seq<byte>, p: seq<byte>)
    requires p <= s && NextToken(columns, s).Got?
    ensures NextToken(columns, p)
      == if |p| < MIN_TOKEN_BYTES || |p| < NextToken(columns, s).size then Need else NextToken(columns, s)
  {
    hide ReadRow, Handle, Get16;
    if |p| >= MIN_TOKEN_BYTES {
      Behind(s, p, 1);
      if s[0] == TOKEN_ROW {
        StableRow(columns, s[1..], p[1..]);
      } else {
        SameWord(s[1..], p[1..]);
        if |p| >= NextToken(columns, s).size {
          SameSlice(s, p, if FixedTokenSize(s[0]) > 0 then 1 else 3, NextToken(columns, s).size);
        }
      }
    }
  }

  lemma SameSlice(s: seq<byte>, p: seq<byte>, i: nat, j: nat)
    requires p <= s && i <= j <= |p|
    ensures s[i..j] == p[i..j]
  {
  }
}
