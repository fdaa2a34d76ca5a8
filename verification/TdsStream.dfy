/** Tokens from packets. */
module TdsStream {
  // The incremental parser over the shared receive buffer: a packet's data is put
  // behind what is pending, whole tokens are read and their callbacks fired, and
  // what was read is shifted out of the buffer.

  import opened Bytes
  import opened TdsTokens

  // ----- The parser -----

  datatype ParsedStream = ParsedStream(events: seq<Event>, size: nat)

  function Fired(event: Option<Event>): seq<Event> {
    match event
    case None => []
    case Some(e) => [e]
  }

  /** handle_tabular_result_msg: the callbacks fired and the bytes consumed. */
  function Parse(columns: seq<byte>, s: seq<byte>): (p: ParsedStream)
    ensures p.size <= |s|
    decreases |s|
  {
    match NextToken(columns, s)
    case Need => ParsedStream([], 0)
    case Broken => ParsedStream([], 0)
    case Stopped(size) => ParsedStream([], size)
    case Got(event, size) =>
      var below := Parse(columns, s[size..]);
      ParsedStream(Fired(event) + below.events, size + below.size)
  }

  /** Well-formed: tokens only, each with all it needs, and nothing left over. */
  ghost predicate WellFormed(columns: seq<byte>, s: seq<byte>)
    decreases |s|
  {
    s == [] || (NextToken(columns, s).Got? && WellFormed(columns, s[NextToken(columns, s).size..]))
  }

  lemma ParseGot(columns: seq<byte>, s: seq<byte>)
    requires NextToken(columns, s).Got?
    ensures var t := NextToken(columns, s);
      var below := Parse(columns, s[t.size..]);
      Parse(columns, s) == ParsedStream(Fired(t.event) + below.events, t.size + below.size)
  {
    hide NextToken;
  }

  lemma ParseWaits(columns: seq<byte>, s: seq<byte>)
    requires NextToken(columns, s) == Need
    ensures Parse(columns, s) == ParsedStream([], 0)
  {
    hide NextToken;
  }

  lemma WellFormedStep(columns: seq<byte>, s: seq<byte>)
    requires WellFormed(columns, s)
    ensures s != [] ==> NextToken(columns, s).Got? && WellFormed(columns, s[NextToken(columns, s).size..])
    ensures s == [] ==> Parse(columns, s) == ParsedStream([], 0)
  {
    hide NextToken;
    if s == [] {
      NothingToParse(columns);
    }
  }

  lemma NothingToParse(columns: seq<byte>)
    ensures Parse(columns, []) == ParsedStream([], 0)
  {
  }

  /**
   * Reading a prefix first and the rest of the stream later fires the same
   * callbacks as reading the stream at once.
   */
  lemma {:induction false} ParseSplit(columns: seq<byte>, s: seq<byte>, k: nat)
    requires WellFormed(columns, s) && k <= |s|
    ensures var first := Parse(columns, s[..k]);
      && WellFormed(columns, s[first.size..])
      && Parse(columns, s).events == first.events + Parse(columns, s[first.size..]).events
    ensures Parse(columns, s).size == |s|
    decreases |s|
  {
    hide NextToken, Parse, WellFormed;
    WellFormedStep(columns, s);
    assert s[0..] == s;
    if s == [] {
      assert s[..k] == [];
    } else {
      var t := NextToken(columns, s);
      var n := t.size;
      StableToken(columns, s, s[..k]);
      ParseGot(columns, s);
      if k < MIN_TOKEN_BYTES || k < n {
        ParseSplit(columns, s[n..], 0);
        ParseWaits(columns, s[..k]);
        assert [] + Parse(columns, s).events == Parse(columns, s).events;
      } else {
        ParseSplit(columns, s[n..], k - n);
        ParseGot(columns, s[..k]);
        assert s[..k][n..] == s[n..][..k - n];
        var first := Parse(columns, s[n..][..k - n]);
        assert s[n..][first.size..] == s[n + first.size..];
        Assoc(Fired(t.event), first.events, Parse(columns, s[n + first.size..]).events);
      }
    }
  }

  // ----- Delivery into an ideal buffer -----

  datatype State = State(events: seq<Event>, pending: seq<byte>)

  /** The buffer keeps exactly what was not consumed. */
  function Deliver(columns: seq<byte>, st: State, packet: seq<byte>): State {
    var data := st.pending + packet;
    var p := Parse(columns, data);
    State(st.events + p.events, data[p.size..])
  }

  function DeliverAll(columns: seq<byte>, st: State, packets: seq<seq<byte>>): State
    decreases |packets|
  {
    if packets == [] then st else DeliverAll(columns, Deliver(columns, st, packets[0]), packets[1..])
  }

  function Concat(packets: seq<seq<byte>>): seq<byte> {
    if packets == [] then [] else packets[0] + Concat(packets[1..])
  }

  /** However the stream is cut, the same callbacks fire in the same order and the buffer ends up empty. */
  lemma {:induction false} CutsDoNotMatter(columns: seq<byte>, st: State, packets: seq<seq<byte>>)
    requires WellFormed(columns, st.pending + Concat(packets)) && Parse(columns, st.pending).size == 0
    ensures DeliverAll(columns, st, packets)
      == State(st.events + Parse(columns, st.pending + Concat(packets)).events, [])
    decreases |packets|
  {
    hide NextToken;
    var s := st.pending + Concat(packets);
    if packets == [] {
      assert s == st.pending;
      ParseSplit(columns, s, 0);
      assert s == [];
    } else {
      hide Parse, WellFormed;
      var k := |st.pending + packets[0]|;
      var rest := Concat(packets[1..]);
      assert s == (st.pending + packets[0]) + rest && s[..k] == st.pending + packets[0];
      ParseSplit(columns, s, k);
      var next := Deliver(columns, st, packets[0]);
      var n := Parse(columns, s[..k]).size;
      assert next.pending + rest == s[n..];
      NothingMore(columns, s, k);
      CutsDoNotMatter(columns, next, packets[1..]);
      Assoc(st.events, Parse(columns, s[..k]).events, Parse(columns, s[n..]).events);
    }
  }

  /** What a delivery leaves behind starts no whole token. */
  lemma {:induction false} NothingMore(columns: seq<byte>, s: seq<byte>, k: nat)
    requires WellFormed(columns, s) && k <= |s|
    ensures Parse(columns, s[..k][Parse(columns, s[..k]).size..]).size == 0
    decreases |s|
  {
    hide NextToken;
    var p := s[..k];
    if s == [] {
      assert p[0..] == p;
    } else {
      var n := NextToken(columns, s).size;
      StableToken(columns, s, p);
      if k < MIN_TOKEN_BYTES || k < n {
        assert p[0..] == p;
      } else {
        assert p[n..] == s[n..][..k - n];
        NothingMore(columns, s[n..], k - n);
        var below := Parse(columns, p[n..]);
        assert p[n..][below.size..] == p[n + below.size..];
      }
    }
  }

  // ----- Delivery into the buffer as it is -----

  function Zeros(n: nat): (z: seq<byte>)
    ensures |z| == n && forall i :: 0 <= i < n ==> z[i] == 0
  {
    if n == 0 then [] else Zeros(n - 1) + [0]
  }

  predicate AllZero(s: seq<byte>) {
    forall i :: 0 <= i < |s| ==> s[i] == 0
  }

  /** What shift_left leaves of the first `used` bytes; a shift by nothing clears them. */
  function Kept(data: seq<byte>, count: nat): seq<byte>
    requires count <= |data|
  {
    if count == 0 then Zeros(|data|) else data[count..]
  }

  /** The pending bytes survive a delivery exactly if something was consumed, or there was nothing to lose. */
  lemma KeptExactly(data: seq<byte>, count: nat)
    requires count <= |data|
    ensures Kept(data, count) == data[count..] <==> count > 0 || AllZero(data)
  {
    if count == 0 && !AllZero(data) {
      var i :| 0 <= i < |data| && data[i] != 0;
      assert Zeros(|data|)[i] != data[0..][i];
    }
  }

  function DeliverReal(columns: seq<byte>, st: State, packet: seq<byte>): State {
    var data := st.pending + packet;
    var p := Parse(columns, data);
    State(st.events + p.events, Kept(data, p.size))
  }

  function DeliverAllReal(columns: seq<byte>, st: State, packets: seq<seq<byte>>): State
    decreases |packets|
  {
    if packets == [] then st else DeliverAllReal(columns, DeliverReal(columns, st, packets[0]), packets[1..])
  }

  /** Each delivery consumes something, or leaves nothing in the buffer but zeros. */
  ghost predicate NothingLost(columns: seq<byte>, st: State, packets: seq<seq<byte>>)
    decreases |packets|
  {
    packets == [] || (KeepsAll(columns, st.pending + packets[0])
                      && NothingLost(columns, Deliver(columns, st, packets[0]), packets[1..]))
  }

  predicate KeepsAll(columns: seq<byte>, data: seq<byte>) {
    Parse(columns, data).size > 0 || AllZero(data)
  }

  /** After every packet the real buffer and the callbacks are those of the ideal one. */
  ghost predicate SameThroughout(columns: seq<byte>, st: State, packets: seq<seq<byte>>) {
    forall n :: 0 <= n <= |packets| ==> SameAfter(columns, st, packets, n)
  }

  ghost predicate SameAfter(columns: seq<byte>, st: State, packets: seq<seq<byte>>, n: nat)
    requires n <= |packets|
  {
    DeliverAllReal(columns, st, packets[..n]) == DeliverAll(columns, st, packets[..n])
  }

  lemma DeliveredAlike(columns: seq<byte>, st: State, packet: seq<byte>)
    ensures DeliverReal(columns, st, packet) == Deliver(columns, st, packet) <==> KeepsAll(columns, st.pending + packet)
  {
    hide Parse, Kept;
    var data := st.pending + packet;
    KeptExactly(data, Parse(columns, data).size);
  }

  /** The run after the first packet, where that one was delivered alike. */
  lemma SameBehind(columns: seq<byte>, st: State, packets: seq<seq<byte>>, n: nat)
    requires 0 < n <= |packets|
    ensures DeliverReal(columns, st, packets[0]) == Deliver(columns, st, packets[0])
      ==> (SameAfter(columns, st, packets, n) <==> SameAfter(columns, Deliver(columns, st, packets[0]), packets[1..], n - 1))
    ensures n == 1 && SameAfter(columns, st, packets, n)
      ==> DeliverReal(columns, st, packets[0]) == Deliver(columns, st, packets[0])
  {
    hide Deliver, DeliverReal;
    assert packets[..n][1..] == packets[1..][..n - 1] && packets[..n][0] == packets[0];
    assert packets[1..][..0] == [];
    if n == 1 {
      NothingDelivered(columns, DeliverReal(columns, st, packets[0]));
      NothingDelivered(columns, Deliver(columns, st, packets[0]));
    }
  }

  lemma NothingDelivered(columns: seq<byte>, st: State)
    ensures DeliverAllReal(columns, st, []) == st && DeliverAll(columns, st, []) == st
  {
  }

  /** Nothing tells the real buffer from the ideal one at any point exactly if nothing is lost. */
  lemma {:induction false} RealExactly(columns: seq<byte>, st: State, packets: seq<seq<byte>>)
    ensures SameThroughout(columns, st, packets) <==> NothingLost(columns, st, packets)
    decreases |packets|
  {
    hide Deliver, DeliverReal, KeepsAll;
    if packets == [] {
      assert packets[..0] == [];
    } else {
      var st1 := Deliver(columns, st, packets[0]);
      DeliveredAlike(columns, st, packets[0]);
      RealExactly(columns, st1, packets[1..]);
      assert SameAfter(columns, st, packets, 0) by { assert packets[..0] == []; }
      hide SameAfter;
      if KeepsAll(columns, st.pending + packets[0]) {
        forall n | 0 < n <= |packets|
          ensures SameAfter(columns, st, packets, n) <==> SameAfter(columns, st1, packets[1..], n - 1)
        {
          SameBehind(columns, st, packets, n);
        }
        if SameThroughout(columns, st, packets) {
          forall m | 0 <= m <= |packets| - 1
            ensures SameAfter(columns, st1, packets[1..], m)
          {
            assert SameAfter(columns, st, packets, m + 1);
          }
        }
      } else {
        SameBehind(columns, st, packets, 1);
        assert !SameAfter(columns, st, packets, 1);
      }
    }
  }

  lemma RealAgrees(columns: seq<byte>, st: State, packets: seq<seq<byte>>)
    requires NothingLost(columns, st, packets)
    ensures DeliverAllReal(columns, st, packets) == DeliverAll(columns, st, packets)
  {
    hide NothingLost, DeliverAllReal, DeliverAll;
    RealExactly(columns, st, packets);
    assert packets[..|packets|] == packets && SameAfter(columns, st, packets, |packets|);
  }

  /** The stream's callbacks then do not depend on the packets. */
  lemma CutsDoNotMatterForReal(columns: seq<byte>, packets: seq<seq<byte>>)
    requires WellFormed(columns, Concat(packets)) && NothingLost(columns, State([], []), packets)
    ensures DeliverAllReal(columns, State([], []), packets) == State(Parse(columns, Concat(packets)).events, [])
  {
    hide WellFormed, NothingLost, DeliverAll, DeliverAllReal;
    assert [] + Concat(packets) == Concat(packets);
    assert Parse(columns, []).size == 0 by { NothingToParse(columns); }
    CutsDoNotMatter(columns, State([], []), packets);
    RealAgrees(columns, State([], []), packets);
  }

  // ----- Where the real buffer loses data -----

  /** Fewer bytes than a DONE token has never fire its callback. */
  lemma {:induction false} TooShortForDone(columns: seq<byte>, s: seq<byte>)
    requires |s| < 9
    ensures forall e :: e in Parse(columns, s).events ==> !e.Done?
    decreases |s|
  {
    if NextToken(columns, s).Got? {
      NoDoneToken(columns, s);
      TooShortForDone(columns, s[NextToken(columns, s).size..]);
    }
  }

  lemma NoDoneToken(columns: seq<byte>, s: seq<byte>)
    requires |s| < 9 && NextToken(columns, s).Got?
    ensures NextToken(columns, s).event != None ==> !NextToken(columns, s).event.value.Done?
  {
    hide ReadRow, Get16, Get32;
  }

  function DoneBytes(token: byte, payload: seq<byte>): seq<byte> {
    [token] + payload
  }

  lemma TwoPackets(columns: seq<byte>, a: seq<byte>, b: seq<byte>)
    ensures Concat([a, b]) == a + b
    ensures DeliverAll(columns, State([], []), [a, b]) == Deliver(columns, Deliver(columns, State([], []), a), b)
    ensures DeliverAllReal(columns, State([], []), [a, b]) == DeliverReal(columns, DeliverReal(columns, State([], []), a), b)
  {
    hide Deliver, DeliverReal;
    assert [a, b][1..] == [b] && [b][1..] == [];
    assert Concat([b]) == b + Concat([]) == b;
    var st := Deliver(columns, State([], []), a);
    assert DeliverAll(columns, st, [b]) == Deliver(columns, st, b);
    var lossy := DeliverReal(columns, State([], []), a);
    assert DeliverAllReal(columns, lossy, [b]) == DeliverReal(columns, lossy, b);
  }

  /**
   * A DONE token that arrives in two packets, cut anywhere, is lost: the first
   * delivery consumes nothing and so clears what it should keep. An ideal
   * buffer would have fired the callback.
   */
  lemma SplitDoneIsLost(columns: seq<byte>, token: byte, payload: seq<byte>, k: nat)
    requires token in {TOKEN_DONE, TOKEN_DONEPROC, TOKEN_DONEINPROC} && |payload| == 8 && 0 < k < 9
    ensures var s := DoneBytes(token, payload);
      var packets := [s[..k], s[k..]];
      && Concat(packets) == s && WellFormed(columns, s)
      && DeliverAll(columns, State([], []), packets)
         == State([Done(Get16(payload), Get16(payload[2..]), Get32(payload[4..]))], [])
      && forall e :: e in DeliverAllReal(columns, State([], []), packets).events ==> !e.Done?
  {
    hide Get16, Get32, Parse, NextToken, WellFormed, DeliverAll, DeliverAllReal, Concat;
    var s := DoneBytes(token, payload);
    var packets := [s[..k], s[k..]];
    TwoPackets(columns, s[..k], s[k..]);
    assert s[..k] + s[k..] == s;
    DoneAlone(columns, token, payload);
    assert [] + s == s;
    NothingToParse(columns);
    CutsDoNotMatter(columns, State([], []), packets);
    var done := Done(Get16(payload), Get16(payload[2..]), Get32(payload[4..]));
    assert [] + [done] == [done];
    DoneUnfinished(columns, token, payload, k);
    assert [] + s[..k] == s[..k];
    ZeroFirst(columns, Zeros(k) + s[k..]);
  }

  lemma DoneAlone(columns: seq<byte>, token: byte, payload: seq<byte>)
    requires token in {TOKEN_DONE, TOKEN_DONEPROC, TOKEN_DONEINPROC} && |payload| == 8
    ensures var s := DoneBytes(token, payload);
      WellFormed(columns, s)
      && Parse(columns, s).events == [Done(Get16(payload), Get16(payload[2..]), Get32(payload[4..]))]
  {
    hide Get16, Get32, ReadRow;
    var s := DoneBytes(token, payload);
    assert s[1..9] == payload && s[9..] == [];
    NothingToParse(columns);
    assert Parse(columns, s[9..]) == ParsedStream([], 0);
  }

  lemma DoneUnfinished(columns: seq<byte>, token: byte, payload: seq<byte>, k: nat)
    requires token in {TOKEN_DONE, TOKEN_DONEPROC, TOKEN_DONEINPROC} && |payload| == 8 && 0 < k < 9
    ensures Parse(columns, DoneBytes(token, payload)[..k]) == ParsedStream([], 0)
  {
    hide ReadRow;
    var p := DoneBytes(token, payload)[..k];
    assert p[0] == token;
  }

  lemma ZeroFirst(columns: seq<byte>, s: seq<byte>)
    requires |s| == 9 && s[0] == 0
    ensures forall e :: e in Parse(columns, s).events ==> !e.Done?
  {
    hide ReadRow, Get16;
    if NextToken(columns, s).Got? {
      TooShortForDone(columns, s[NextToken(columns, s).size..]);
    }
  }

  // ----- The receiver -----

  /** What the two loops of shift_left leave in the first `|data|` bytes. */
  lemma KeptAt(data: seq<byte>, count: nat, j: nat)
    requires count <= |data| && j < |data|
    ensures (Kept(data, count) + Zeros(count))[j] == if count > 0 && j < |data| - count then data[j + count] else 0
  {
  }

  /** span::shift_left, in place. */
  method ShiftLeft(a: array<byte>, count: nat, bound: nat) returns (shifted: nat)
    requires count <= bound <= a.Length
    modifies a
    ensures shifted == bound - count
    ensures a[..bound] == Kept(old(a[..bound]), count) + Zeros(count)
    ensures a[bound..] == old(a[bound..])
  {
    hide Kept, Zeros;
    shifted := bound - count;
    MoveDown(a, count, shifted);
    Clear(a, shifted, bound);
    ghost var was := old(a[..bound]);
    forall j | 0 <= j < bound
      ensures |Kept(was, count) + Zeros(count)| == bound && a[..bound][j] == (Kept(was, count) + Zeros(count))[j]
    {
      KeptAt(was, count, j);
      KeptSize(was, count);
    }
    KeptSize(was, count);
  }

  lemma KeptSize(data: seq<byte>, count: nat)
    requires count <= |data|
    ensures |Kept(data, count) + Zeros(count)| == |data|
    ensures count == 0 ==> |Kept(data, count)| == |data|
    ensures count > 0 ==> |Kept(data, count)| == |data| - count
  {
  }

  /** Each byte moves down by `count`, and what it leaves is cleared. */
  method MoveDown(a: array<byte>, count: nat, n: nat)
    requires n + count <= a.Length
    modifies a
    ensures forall j :: 0 <= j < n ==> a[j] == if count == 0 then 0 else old(a[j + count])
    ensures forall j :: n + count <= j < a.Length ==> a[j] == old(a[j])
  {
    for i := 0 to n
      invariant forall j :: 0 <= j < i ==> a[j] == if count == 0 then 0 else old(a[j + count])
      invariant forall j :: i + count <= j < a.Length ==> a[j] == old(a[j])
    {
      a[i] := a[i + count];
      a[i + count] := 0;
    }
  }

  method Clear(a: array<byte>, from: nat, to: nat)
    requires from <= to <= a.Length
    modifies a
    ensures forall j :: 0 <= j < a.Length ==> a[j] == if from <= j < to then 0 else old(a[j])
  {
    for i := from to to
      invariant forall j :: 0 <= j < a.Length ==> a[j] == if from <= j < i then 0 else old(a[j])
    {
      a[i] := 0;
    }
  }

  /** handle_row_token */
  method HandleRow(columns: seq<byte>, s: seq<byte>) returns (r: Read<seq<Field>>)
    ensures r == ReadRow(columns, s)
  {
    hide ReadField, ReadRow, RowRest;
    var fields, offset := [], 0;
    assert columns[0..] == columns && s[0..] == s;
    ghost var all := ReadRow(columns, s);
    RowStart(all);
    for i := 0 to |columns|
      invariant 0 <= offset <= |s|
      invariant RowRest(all, ReadRow(columns[i..], s[offset..]), fields, offset)
    {
      RowStep(columns, i, s, offset, all, fields);
      match ReadField(columns[i], s[offset..])
      case Short => return Short;
      case Bad => return Bad;
      case Ok(f, n) =>
        fields, offset := fields + [f], offset + n;
    }
    RowEnd(columns[|columns|..], s[offset..], all, fields, offset);
    r := Ok(fields, offset);
  }

  /** The whole row is the fields read so far and those of the rest. */
  ghost predicate RowRest(all: Read<seq<Field>>, rest: Read<seq<Field>>, fields: seq<Field>, offset: nat) {
    match rest
    case Short => all == Short
    case Bad => all == Bad
    case Ok(fs, n) => all == Ok(fields + fs, offset + n)
  }

  lemma RowStart(all: Read<seq<Field>>)
    ensures RowRest(all, all, [], 0)
  {
    assert all.Ok? ==> [] + all.value == all.value;
  }

  lemma RowStep(columns: seq<byte>, i: nat, s: seq<byte>, offset: nat, all: Read<seq<Field>>, fields: seq<Field>)
    requires i < |columns| && offset <= |s| && RowRest(all, ReadRow(columns[i..], s[offset..]), fields, offset)
    ensures match ReadField(columns[i], s[offset..])
      case Short => all == Short
      case Bad => all == Bad
      case Ok(f, n) =>
        offset + n <= |s| && RowRest(all, ReadRow(columns[i + 1..], s[offset + n..]), fields + [f], offset + n)
  {
    hide ReadField;
    assert columns[i..][1..] == columns[i + 1..];
    var field := ReadField(columns[i], s[offset..]);
    if field.Ok? {
      assert s[offset..][field.size..] == s[offset + field.size..];
      var below := ReadRow(columns[i + 1..], s[offset + field.size..]);
      if below.Ok? {
        assert fields + ([field.value] + below.value) == (fields + [field.value]) + below.value;
      }
    }
  }

  lemma RowEnd(none: seq<byte>, s: seq<byte>, all: Read<seq<Field>>, fields: seq<Field>, offset: nat)
    requires none == [] && RowRest(all, ReadRow(none, s), fields, offset)
    ensures all == Ok(fields, offset)
  {
    assert fields + [] == fields;
  }

  /** The token at the reader, by the order of the tests in the source. */
  method TakeToken(columns: seq<byte>, s: seq<byte>) returns (step: TokenStep)
    requires |s| >= MIN_TOKEN_BYTES
    ensures step == NextToken(columns, s)
  {
    hide ReadRow, Handle, Get16;
    var token := s[0];
    if token == TOKEN_COLMETADATA {
      return Broken;
    }
    if token == TOKEN_ROW {
      var row := HandleRow(columns, s[1..]);
      match row
      case Short => return Need;
      case Bad => return Broken;
      case Ok(fields, n) => return Got(Some(Row(fields)), 1 + n);
    }
    var start, size := 1, FixedTokenSize(token);
    if size == 0 {
      start, size := 3, Get16(s[1..]);
    }
    if |s| < start + size {
      return Need;
    }
    match Handle(token, s[start..start + size])
    case Finished(event) => return Got(event, start + size);
    case WantsMore => return Stopped(start + size);
    case Trapped => return Broken;
  }

  /** handle_tabular_result_msg: `offset` is the reader's position when it returns. */
  method HandleTabularResult(columns: seq<byte>, s: seq<byte>) returns (events: seq<Event>, offset: nat)
    ensures offset <= |s| && ParsedStream(events, offset) == Parse(columns, s)
  {
    hide NextToken, Parse;
    events, offset := [], 0;
    assert s[0..] == s;
    ghost var all := Parse(columns, s);
    assert [] + all.events == all.events;
    while |s| - offset >= MIN_TOKEN_BYTES
      invariant 0 <= offset <= |s|
      invariant all == ParsedStream(events + Parse(columns, s[offset..]).events, offset + Parse(columns, s[offset..]).size)
      decreases |s| - offset
    {
      var step := TakeToken(columns, s[offset..]);
      ParseStep(columns, s, offset, events);
      match step
      case Need => return;
      case Broken => return;
      case Stopped(size) =>
        offset := offset + size;
        return;
      case Got(event, size) =>
        events, offset := events + Fired(event), offset + size;
    }
    ParseEnd(columns, s[offset..], events);
  }

  /** One round of the token loop. */
  lemma ParseStep(columns: seq<byte>, s: seq<byte>, offset: nat, events: seq<Event>)
    requires offset <= |s|
    ensures var p := Parse(columns, s[offset..]);
      match NextToken(columns, s[offset..])
      case Need => p.size == 0 && events + p.events == events
      case Broken => p.size == 0 && events + p.events == events
      case Stopped(size) => p.size == size <= |s| - offset && events + p.events == events
      case Got(event, size) =>
        && offset + size <= |s|
        && p.size == size + Parse(columns, s[offset + size..]).size
        && events + p.events == (events + Fired(event)) + Parse(columns, s[offset + size..]).events
  {
    hide NextToken;
    assert events + [] == events;
    match NextToken(columns, s[offset..]) {
      case Got(event, size) =>
        assert s[offset..][size..] == s[offset + size..];
        Assoc(events, Fired(event), Parse(columns, s[offset + size..]).events);
      case _ =>
    }
  }

  lemma ParseEnd(columns: seq<byte>, s: seq<byte>, events: seq<Event>)
    requires |s| < MIN_TOKEN_BYTES
    ensures Parse(columns, s).size == 0 && events + Parse(columns, s).events == events
  {
    assert events + [] == events;
  }

  class Receiver {
    const columns: seq<byte>
    const buf: array<byte>
    var used: nat

    constructor (columns: seq<byte>, capacity: nat)
      ensures this.columns == columns && buf.Length == capacity && used == 0 && fresh(buf)
    {
      this.columns, used := columns, 0;
      buf := new byte[capacity](_ => 0);
    }

    /** One packet that fits the buffer. */
    method ReceivePacket(data: seq<byte>) returns (events: seq<Event>)
      requires used + |data| <= buf.Length
      modifies this, buf
      ensures used <= buf.Length
      ensures State(events, buf[..used]) == DeliverReal(columns, State([], old(buf[..used])), data)
    {
      hide Parse, Zeros, Kept;
      CopyIn(buf, used, data);
      used := used + |data|;
      ghost var whole := buf[..used];
      var offset: nat;
      events, offset := HandleTabularResult(columns, buf[..used]);
      var kept := ShiftLeft(buf, offset, used);
      KeptSize(whole, offset);
      used := used - offset;
      assert buf[..used] == Kept(whole, offset);
      assert [] + events == events;
    }
  }
}
