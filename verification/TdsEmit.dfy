/** Token streams as a server writes them, and read back. */
module TdsEmit {
  import opened Bytes
  import opened TdsTokens
  import opened TdsStream
  import opened TdsLayout

  // ----- Fields and rows -----

  // How a server writes a field, by the type code of its column (MS-TDS, section 2.2.5.4).

  predicate IsFixed(t: byte) {
    t in {0x01, 0x30, 0x32, 0x34, 0x38, 0x3A, 0x3B, 0x7A, 0x7F, 0x3D, 0x3E, 0x3C}
  }

  predicate IsCounted8(t: byte) {
    t in {0x24, 0x26, 0x68, 0x6A, 0x6C, 0x6D, 0x6E, 0x6F}
  }

  predicate IsCounted16(t: byte) {
    t in {0xA5, 0xA7, 0xAD, 0xAF, 0xE7, 0xEF}
  }

  predicate IsLongText(t: byte) {
    t in {0x22, 0x23, 0x63}
  }

  /** The numbers of bytes that a value of the type can have. */
  predicate SizeOk(t: byte, n: nat) {
    if t == 0x01 then n == 0
    else if t in {0x30, 0x32, 0x68} then n == 1
    else if t == 0x34 then n == 2
    else if t in {0x38, 0x3A, 0x3B, 0x7A} then n == 4
    else if t in {0x3C, 0x3D, 0x3E, 0x7F} then n == 8
    else if t == 0x24 then n == 16
    else if t == 0x26 then n in {1, 2, 4, 8}
    else if t in {0x6D, 0x6E, 0x6F} then n in {4, 8}
    else if t in {0x6A, 0x6C} then n in {0, 5, 9, 13, 17}
    else if IsCounted16(t) then n < 65535
    else IsLongText(t) && n < 4294967295
  }

  /** The field is one that a column of this type can hold; a decimal without a value is written as one of no bytes. */
  ghost predicate FieldOk(t: byte, f: Field) {
    match f
    case Null => (IsCounted8(t) && t !in {0x6A, 0x6C}) || IsCounted16(t) || IsLongText(t)
    case Value(data) => SizeOk(t, |data|)
  }

  function FieldBytes(t: byte, f: Field): seq<byte>
    requires FieldOk(t, f)
  {
    match f
    case Null => if IsCounted8(t) then [0] else if IsCounted16(t) then [255, 255] else [255, 255, 255, 255]
    case Value(data) =>
      if IsFixed(t) then data
      else if IsCounted8(t) then [|data|] + data
      else if IsCounted16(t) then Le16(|data|) + data
      else ([16] + Zeros(24)) + (Le32(|data|) + data)
  }

  lemma Behind<T>(a: seq<T>, b: seq<T>, c: seq<T>)
    ensures (a + b) + c == a + (b + c) && (a + (b + c))[|a|..] == b + c
  {
  }

  lemma NullRead(t: byte, tail: seq<byte>)
    requires FieldOk(t, Null)
    ensures FieldAt(t, FieldBytes(t, Null) + tail) == Ok(Null, |FieldBytes(t, Null)|)
  {
  }

  lemma FixedRead(t: byte, data: seq<byte>, tail: seq<byte>)
    requires FieldOk(t, Value(data)) && IsFixed(t)
    ensures FieldAt(t, data + tail) == Ok(Value(data), |data|)
  {
    assert (data + tail)[..|data|] == data;
  }

  lemma Counted8Read(t: byte, data: seq<byte>, tail: seq<byte>)
    requires FieldOk(t, Value(data)) && IsCounted8(t)
    ensures FieldAt(t, ([|data|] + data) + tail) == Ok(Value(data), 1 + |data|)
  {
    var s := ([|data|] + data) + tail;
    assert s[0] == |data| && s[1..1 + |data|] == data;
  }

  lemma Counted16Read(t: byte, data: seq<byte>, tail: seq<byte>)
    requires FieldOk(t, Value(data)) && IsCounted16(t)
    ensures FieldAt(t, (Le16(|data|) + data) + tail) == Ok(Value(data), 2 + |data|)
  {
    hide Le16;
    var s := (Le16(|data|) + data) + tail;
    Get16Le16(|data|, data + tail);
    assert s == Le16(|data|) + (data + tail) && s[2..2 + |data|] == data;
  }

  lemma TextRead(t: byte, data: seq<byte>, tail: seq<byte>)
    requires FieldOk(t, Value(data)) && IsLongText(t)
    ensures FieldAt(t, (([16] + Zeros(24)) + (Le32(|data|) + data)) + tail) == Ok(Value(data), 29 + |data|)
  {
    hide Le32, Zeros, Get16;
    var rest := (Le32(|data|) + data) + tail;
    var s := (([16] + Zeros(24)) + (Le32(|data|) + data)) + tail;
    assert s == ([16] + Zeros(24)) + rest && s[0] == 16;
    Get32Le32(|data|, data + tail);
    assert rest == Le32(|data|) + (data + tail);
    CountAt(s, rest, 25, |data|);
    assert s[29..29 + |data|] == data;
  }

  lemma CountAt(s: seq<byte>, rest: seq<byte>, at: nat, n: nat)
    requires |s| >= at + 4 && s[at..] == rest && Get32(rest) == n
    ensures var a: nat, b: nat, c: nat, d: nat := s[at], s[at + 1], s[at + 2], s[at + 3];
      a + 256 * b + 65536 * c + 16777216 * d == n
  {
    assert rest[0] == s[at] && rest[1] == s[at + 1] && rest[2..][0] == s[at + 2] && rest[2..][1] == s[at + 3];
  }

  /** What the server writes for a field is read back by the column's type, whatever follows. */
  lemma FieldRead(t: byte, f: Field, tail: seq<byte>)
    requires FieldOk(t, f)
    ensures ReadField(t, FieldBytes(t, f) + tail) == Ok(f, |FieldBytes(t, f)|)
  {
    hide ReadField, FieldAt, FieldOk, Zeros;
    FieldLaidOut(t, FieldBytes(t, f) + tail);
    match f {
      case Null => NullRead(t, tail);
      case Value(data) =>
        if IsFixed(t) {
          FixedRead(t, data, tail);
        } else if IsCounted8(t) {
          Counted8Read(t, data, tail);
        } else if IsCounted16(t) {
          Counted16Read(t, data, tail);
        } else {
          OnlyText(t, data);
          TextRead(t, data, tail);
        }
    }
  }

  lemma OnlyText(t: byte, data: seq<byte>)
    requires FieldOk(t, Value(data)) && !IsFixed(t) && !IsCounted8(t) && !IsCounted16(t)
    ensures IsLongText(t)
  {
  }

  ghost predicate RowOk(columns: seq<byte>, fields: seq<Field>) {
    |columns| == |fields| && forall i :: 0 <= i < |columns| ==> FieldOk(columns[i], fields[i])
  }

  function RowBytes(columns: seq<byte>, fields: seq<Field>): seq<byte>
    requires RowOk(columns, fields)
  {
    if columns == [] then [] else FieldBytes(columns[0], fields[0]) + RowBytes(columns[1..], fields[1..])
  }

  lemma {:induction false} RowRead(columns: seq<byte>, fields: seq<Field>, tail: seq<byte>)
    requires RowOk(columns, fields)
    ensures ReadRow(columns, RowBytes(columns, fields) + tail) == Ok(fields, |RowBytes(columns, fields)|)
    decreases |columns|
  {
    hide ReadField, FieldBytes, FieldOk;
    if columns != [] {
      var head, rest := FieldBytes(columns[0], fields[0]), RowBytes(columns[1..], fields[1..]);
      FieldRead(columns[0], fields[0], rest + tail);
      RowRead(columns[1..], fields[1..], tail);
      Behind(head, rest, tail);
      assert [fields[0]] + fields[1..] == fields;
    }
  }

  // ----- Texts -----

  /** Two-byte characters, as many as one byte can count. */
  predicate Text8Ok(text: seq<byte>) {
    |text| % 2 == 0 && |text| / 2 < 0x100
  }

  function Text8(text: seq<byte>): (b: seq<byte>)
    requires Text8Ok(text)
    ensures |b| == 1 + |text|
  {
    [|text| / 2] + text
  }

  predicate Text16Ok(text: seq<byte>) {
    |text| % 2 == 0 && |text| / 2 < 0x1_0000
  }

  function Text16(text: seq<byte>): (b: seq<byte>)
    requires Text16Ok(text)
    ensures |b| == 2 + |text|
  {
    Le16(|text| / 2) + text
  }

  lemma Text8Read(text: seq<byte>, tail: seq<byte>)
    requires Text8Ok(text)
    ensures TakeText8(Text8(text) + tail) == Ok(text, 1 + |text|)
    ensures (Text8(text) + tail)[1 + |text|..] == tail
  {
    var s := Text8(text) + tail;
    assert s[1..1 + |text|] == text;
  }

  lemma Text16Read(text: seq<byte>, tail: seq<byte>)
    requires Text16Ok(text)
    ensures TakeText16(Text16(text) + tail) == Ok(text, 2 + |text|)
    ensures (Text16(text) + tail)[2 + |text|..] == tail
  {
    hide Get16, Le16;
    var s := Text16(text) + tail;
    Get16Le16(|text| / 2, text + tail);
    assert s == Le16(|text| / 2) + (text + tail);
    assert s[2..2 + |text|] == text;
  }

  // ----- Tokens -----

  /** The last two are read over without a callback. */
  datatype Token =
    | RowToken(fields: seq<Field>)
    | EnvToken(kind: byte, newValue: seq<byte>, oldValue: seq<byte>)
    | InfoToken(isError: bool, number: u32, state: byte, class_: byte, text: seq<byte>,
                server: seq<byte>, procedure: seq<byte>, line: u16)
    | LoginToken(interface_: byte, version: u32, program: seq<byte>, programVersion: seq<byte>)
    | DoneToken(type_: byte, status: u16, command: u16, rows: u32)
    | FixedBlock(type_: byte, payload: seq<byte>)
    | SizedBlock(type_: byte, payload: seq<byte>)

  /** The handler's lower bound on INFO and ERROR leaves out those without any text. */
  predicate InfoOk(text: seq<byte>, server: seq<byte>, procedure: seq<byte>) {
    && Text16Ok(text) && Text8Ok(server) && Text8Ok(procedure)
    && 14 <= 12 + |text| + |server| + |procedure| < 0x1_0000
  }

  /** No handler answers for it. */
  predicate IsSilent(type_: byte, payload: seq<byte>) {
    && type_ !in {0xAA, 0xAB, 0xAD, 0xD1, 0x81} && type_ !in {0x78, 0x79, 0xFD, 0xFE, 0xFF}
    && (type_ == 0xE3 ==> payload != [] && payload[0] !in {1, 2, 3, 4})
  }

  ghost predicate TokenOk(columns: seq<byte>, k: Token) {
    match k
    case RowToken(fields) => RowOk(columns, fields)
    case EnvToken(kind, newValue, oldValue) => kind in {1, 2, 3, 4} && Text8Ok(newValue) && Text8Ok(oldValue)
    case InfoToken(_, _, _, _, text, server, procedure, _) => InfoOk(text, server, procedure)
    case LoginToken(_, _, program, programVersion) => Text8Ok(program) && |programVersion| == 4
    case DoneToken(type_, _, _, _) => type_ in {0xFD, 0xFE, 0xFF}
    case FixedBlock(type_, payload) => type_ in {0x78, 0x79} && |payload| == 4
    case SizedBlock(type_, payload) => |payload| < 0x1_0000 && IsSilent(type_, payload)
  }

  function EnvBytes(kind: byte, newValue: seq<byte>, oldValue: seq<byte>): seq<byte>
    requires Text8Ok(newValue) && Text8Ok(oldValue)
  {
    [kind] + (Text8(newValue) + Text8(oldValue))
  }

  function InfoBytes(number: u32, state: byte, class_: byte, text: seq<byte>, server: seq<byte>,
                     procedure: seq<byte>, line: u16): seq<byte>
    requires InfoOk(text, server, procedure)
  {
    Le32(number) + ([state, class_] + (Text16(text) + (Text8(server) + (Text8(procedure) + Le16(line)))))
  }

  function LoginBytes(interface_: byte, version: u32, program: seq<byte>, programVersion: seq<byte>): seq<byte>
    requires Text8Ok(program)
  {
    [interface_] + (Le32(version) + (Text8(program) + programVersion))
  }

  function DoneBytesOf(status: u16, command: u16, rows: u32): (b: seq<byte>)
    ensures |b| == 8
  {
    Le16(status) + (Le16(command) + Le32(rows))
  }

  function SizedTokenBytes(type_: byte, payload: seq<byte>): seq<byte>
    requires |payload| < 0x1_0000
  {
    [type_] + (Le16(|payload|) + payload)
  }

  function TokenBytes(columns: seq<byte>, k: Token): (b: seq<byte>)
    requires TokenOk(columns, k)
    ensures |b| > 0
    ensures k.DoneToken? ==> |b| == 9
  {
    match k
    case RowToken(fields) => [0xD1] + RowBytes(columns, fields)
    case EnvToken(kind, newValue, oldValue) => SizedTokenBytes(0xE3, EnvBytes(kind, newValue, oldValue))
    case InfoToken(isError, number, state, class_, text, server, procedure, line) =>
      SizedTokenBytes(if isError then 0xAA else 0xAB, InfoBytes(number, state, class_, text, server, procedure, line))
    case LoginToken(interface_, version, program, programVersion) =>
      SizedTokenBytes(0xAD, LoginBytes(interface_, version, program, programVersion))
    case DoneToken(type_, status, command, rows) => [type_] + DoneBytesOf(status, command, rows)
    case FixedBlock(type_, payload) => [type_] + payload
    case SizedBlock(type_, payload) => SizedTokenBytes(type_, payload)
  }

  /** The callback's arguments are the token's own contents. */
  function EventOf(k: Token): Option<Event> {
    match k
    case RowToken(fields) => Some(Row(fields))
    case EnvToken(kind, newValue, oldValue) => Some(EnvChange(kind, newValue, oldValue))
    case InfoToken(_, number, state, class_, text, server, procedure, line) =>
      Some(Info(number, state, class_, text, server, procedure, line))
    case LoginToken(interface_, version, program, programVersion) =>
      Some(LoginAck(interface_, version, program, programVersion))
    case DoneToken(_, status, command, rows) => Some(Done(status, command, rows))
    case FixedBlock(_, _) => None
    case SizedBlock(_, _) => None
  }

  lemma EnvHandled(kind: byte, newValue: seq<byte>, oldValue: seq<byte>)
    requires kind in {1, 2, 3, 4} && Text8Ok(newValue) && Text8Ok(oldValue)
    ensures HandleEnvChange(EnvBytes(kind, newValue, oldValue)) == Finished(Some(EnvChange(kind, newValue, oldValue)))
  {
    hide TakeText8;
    var t := EnvBytes(kind, newValue, oldValue);
    var n := |newValue|;
    assert t[2..2 + n] == newValue && t[2 + n..] == Text8(oldValue) + [];
    Text8Read(oldValue, []);
  }

  lemma InfoHandled(number: u32, state: byte, class_: byte, text: seq<byte>, server: seq<byte>, procedure: seq<byte>, line: u16)
    requires InfoOk(text, server, procedure)
    ensures HandleInfo(InfoBytes(number, state, class_, text, server, procedure, line))
      == Finished(Some(Info(number, state, class_, text, server, procedure, line)))
  {
    hide TakeText8, TakeText16, Text8, Text16, Get16, Get32, Le16, Le32;
    var t := InfoBytes(number, state, class_, text, server, procedure, line);
    var behindProcedure := Le16(line);
    var behindServer := Text8(procedure) + behindProcedure;
    var behindText := Text8(server) + behindServer;
    var behind := Text16(text) + behindText;
    Get32Le32(number, [state, class_] + behind);
    assert t[4] == state && t[5] == class_ && t[6..] == behind;
    Text16Read(text, behindText);
    var a := 2 + |text|;
    assert t[6 + a..] == t[6..][a..];
    Text8Read(server, behindServer);
    var b := 1 + |server|;
    assert t[6 + a + b..] == t[6 + a..][b..];
    Text8Read(procedure, behindProcedure);
    var c := 1 + |procedure|;
    assert t[6 + a + b + c..] == t[6 + a + b..][c..];
    Get16Le16(line, []);
    assert behindProcedure + [] == behindProcedure;
  }

  lemma LoginHandled(interface_: byte, version: u32, program: seq<byte>, programVersion: seq<byte>)
    requires Text8Ok(program) && |programVersion| == 4
    ensures HandleLoginAck(LoginBytes(interface_, version, program, programVersion))
      == Finished(Some(LoginAck(interface_, version, program, programVersion)))
  {
    hide TakeText8, Text8, Get32, Le32;
    var t := LoginBytes(interface_, version, program, programVersion);
    assert t[1..] == Le32(version) + (Text8(program) + programVersion);
    Get32Le32(version, Text8(program) + programVersion);
    assert t[5..] == Text8(program) + programVersion;
    Text8Read(program, programVersion);
    assert t[5 + (1 + |program|)..] == t[5..][1 + |program|..];
    assert programVersion[..4] == programVersion;
  }

  lemma DoneHandled(status: u16, command: u16, rows: u32)
    ensures HandleDone(DoneBytesOf(status, command, rows)) == Finished(Some(Done(status, command, rows)))
  {
    hide Get16, Get32, Le16, Le32;
    var t := DoneBytesOf(status, command, rows);
    Get16Le16(status, Le16(command) + Le32(rows));
    assert t[2..] == Le16(command) + Le32(rows) && t[4..] == Le32(rows);
    Get16Le16(command, Le32(rows));
    Get32Le32(rows, []);
    assert Le32(rows) + [] == Le32(rows);
  }

  lemma RowTokenRead(columns: seq<byte>, fields: seq<Field>, tail: seq<byte>)
    requires RowOk(columns, fields) && |[TOKEN_ROW] + RowBytes(columns, fields) + tail| >= MIN_TOKEN_BYTES
    ensures NextToken(columns, [TOKEN_ROW] + RowBytes(columns, fields) + tail)
      == Got(Some(Row(fields)), 1 + |RowBytes(columns, fields)|)
  {
    hide ReadRow, RowBytes, RowOk;
    Behind([TOKEN_ROW], RowBytes(columns, fields), tail);
    RowRead(columns, fields, tail);
  }

  lemma SizedTokenRead(columns: seq<byte>, type_: byte, payload: seq<byte>, tail: seq<byte>, event: Option<Event>)
    requires |payload| < 0x1_0000 && Handle(type_, payload) == Finished(event)
    requires type_ !in {TOKEN_ROW, TOKEN_COLMETADATA} && FixedTokenSize(type_) == 0
    ensures NextToken(columns, SizedTokenBytes(type_, payload) + tail) == Got(event, |SizedTokenBytes(type_, payload)|)
  {
    hide ReadRow, Get16, Le16, Handle;
    var s := SizedTokenBytes(type_, payload) + tail;
    assert s[1..] == Le16(|payload|) + (payload + tail);
    Get16Le16(|payload|, payload + tail);
    assert s[3..3 + |payload|] == payload;
  }

  lemma FixedTokenRead(columns: seq<byte>, type_: byte, payload: seq<byte>, tail: seq<byte>, event: Option<Event>)
    requires |payload| == FixedTokenSize(type_) > 0 && Handle(type_, payload) == Finished(event)
    ensures NextToken(columns, [type_] + payload + tail) == Got(event, 1 + |payload|)
  {
    hide ReadRow, Get16, Handle;
    assert ([type_] + payload + tail)[1..1 + |payload|] == payload;
  }

  /** A token without a callback of its own contents, or with fixed contents. */
  lemma PlainTokenRead(columns: seq<byte>, k: Token, tail: seq<byte>)
    requires TokenOk(columns, k) && (k.DoneToken? || k.FixedBlock? || k.SizedBlock?)
    ensures NextToken(columns, TokenBytes(columns, k) + tail) == Got(EventOf(k), |TokenBytes(columns, k)|)
  {
    hide NextToken, Le16, DoneBytesOf, HandleDone, SizedTokenBytes;
    match k {
      case DoneToken(type_, status, command, rows) =>
        DoneHandled(status, command, rows);
        FixedTokenRead(columns, type_, DoneBytesOf(status, command, rows), tail, EventOf(k));
      case FixedBlock(type_, payload) => FixedTokenRead(columns, type_, payload, tail, None);
      case SizedBlock(type_, payload) => SizedTokenRead(columns, type_, payload, tail, None);
    }
  }

  lemma TextTokenRead(columns: seq<byte>, k: Token, tail: seq<byte>)
    requires TokenOk(columns, k) && (k.EnvToken? || k.InfoToken? || k.LoginToken?)
    ensures NextToken(columns, TokenBytes(columns, k) + tail) == Got(EventOf(k), |TokenBytes(columns, k)|)
  {
    hide NextToken, Le16, Le32, HandleEnvChange, HandleInfo, HandleLoginAck, SizedTokenBytes;
    match k {
      case EnvToken(kind, newValue, oldValue) =>
        EnvHandled(kind, newValue, oldValue);
        SizedTokenRead(columns, TOKEN_ENVCHANGE, EnvBytes(kind, newValue, oldValue), tail, EventOf(k));
      case InfoToken(isError, number, state, class_, text, server, procedure, line) =>
        InfoHandled(number, state, class_, text, server, procedure, line);
        SizedTokenRead(columns, if isError then TOKEN_ERROR else TOKEN_INFO,
                       InfoBytes(number, state, class_, text, server, procedure, line), tail, EventOf(k));
      case LoginToken(interface_, version, program, programVersion) =>
        LoginHandled(interface_, version, program, programVersion);
        SizedTokenRead(columns, TOKEN_LOGINACK, LoginBytes(interface_, version, program, programVersion), tail, EventOf(k));
    }
  }

  /** Every token is read back as its own callback, whatever follows. */
  lemma TokenRead(columns: seq<byte>, k: Token, tail: seq<byte>)
    requires TokenOk(columns, k) && |TokenBytes(columns, k) + tail| >= MIN_TOKEN_BYTES
    ensures NextToken(columns, TokenBytes(columns, k) + tail) == Got(EventOf(k), |TokenBytes(columns, k)|)
  {
    hide NextToken, RowBytes, RowOk, SizedTokenBytes, DoneBytesOf, InfoBytes, EnvBytes, LoginBytes;
    match k {
      case RowToken(fields) => RowTokenRead(columns, fields, tail);
      case DoneToken(_, _, _, _) => PlainTokenRead(columns, k, tail);
      case FixedBlock(_, _) => PlainTokenRead(columns, k, tail);
      case SizedBlock(_, _) => PlainTokenRead(columns, k, tail);
      case _ => TextTokenRead(columns, k, tail);
    }
  }

  ghost predicate StreamOk(columns: seq<byte>, ks: seq<Token>) {
    forall i :: 0 <= i < |ks| ==> TokenOk(columns, ks[i])
  }

  function StreamBytes(columns: seq<byte>, ks: seq<Token>): seq<byte>
    requires StreamOk(columns, ks)
  {
    if ks == [] then [] else TokenBytes(columns, ks[0]) + StreamBytes(columns, ks[1..])
  }

  function EventsOf(ks: seq<Token>): seq<Event> {
    if ks == [] then [] else Fired(EventOf(ks[0])) + EventsOf(ks[1..])
  }

  lemma {:induction false} EndsLong(columns: seq<byte>, ks: seq<Token>)
    requires StreamOk(columns, ks) && ks != [] && ks[|ks| - 1].DoneToken?
    ensures |StreamBytes(columns, ks)| >= 9
    decreases |ks|
  {
    hide TokenOk;
    if |ks| > 1 {
      EndsLong(columns, ks[1..]);
    }
  }

  /** Every stream of tokens that ends in a DONE is well-formed and fires its tokens' callbacks in order. */
  lemma {:induction false} StreamRead(columns: seq<byte>, ks: seq<Token>)
    requires StreamOk(columns, ks) && (ks == [] || ks[|ks| - 1].DoneToken?)
    ensures WellFormed(columns, StreamBytes(columns, ks))
    ensures Parse(columns, StreamBytes(columns, ks)).events == EventsOf(ks)
    decreases |ks|
  {
    hide NextToken, TokenOk, TokenBytes, EventOf;
    if ks == [] {
      NothingToParse(columns);
    } else {
      var rest := StreamBytes(columns, ks[1..]);
      var s := TokenBytes(columns, ks[0]) + rest;
      EndsLong(columns, ks);
      TokenRead(columns, ks[0], rest);
      assert s[|TokenBytes(columns, ks[0])|..] == rest;
      StreamRead(columns, ks[1..]);
    }
  }

  /** So however a server's stream is cut into packets, an ideal buffer fires exactly the tokens' callbacks. */
  lemma StreamInAnyPackets(columns: seq<byte>, ks: seq<Token>, packets: seq<seq<byte>>)
    requires StreamOk(columns, ks) && ks != [] && ks[|ks| - 1].DoneToken?
    requires Concat(packets) == StreamBytes(columns, ks)
    ensures DeliverAll(columns, State([], []), packets) == State(EventsOf(ks), [])
    ensures NothingLost(columns, State([], []), packets)
      ==> DeliverAllReal(columns, State([], []), packets) == State(EventsOf(ks), [])
  {
    hide Parse, WellFormed, StreamOk, StreamBytes, EventsOf, DeliverAll, DeliverAllReal, NothingLost;
    StreamRead(columns, ks);
    NothingToParse(columns);
    assert [] + Concat(packets) == Concat(packets);
    CutsDoNotMatter(columns, State([], []), packets);
    assert [] + EventsOf(ks) == EventsOf(ks);
    if NothingLost(columns, State([], []), packets) {
      CutsDoNotMatterForReal(columns, packets);
    }
  }
}
