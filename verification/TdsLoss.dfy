/** Which packets the receive buffer survives. */
module TdsLoss {
  // The packets that lose nothing, told by positions in the stream alone, and the
  // streams for which exactly those leave the callbacks as they should be.

  import opened Bytes
  import opened TdsTokens
  import opened TdsStream
  import opened TdsEmit
  import opened TdsLayout

  // ----- Positions -----

  /** The sizes of the stream's tokens. */
  ghost function Sizes(columns: seq<byte>, s: seq<byte>): seq<nat>
    requires WellFormed(columns, s)
    decreases |s|
  {
    if s == [] then [] else [NextToken(columns, s).size] + Sizes(columns, s[NextToken(columns, s).size..])
  }

  /** A token is looked at once three bytes have arrived, and read once it has arrived whole. */
  function Needed(size: nat): nat {
    if size < MIN_TOKEN_BYTES then MIN_TOKEN_BYTES else size
  }

  function StartAt(sizes: seq<nat>, j: nat): nat
    requires j <= |sizes|
  {
    if j == 0 then 0 else sizes[0] + StartAt(sizes[1..], j - 1)
  }

  /** The number of bytes after which the token is read. */
  function CompleteAt(sizes: seq<nat>, j: nat): nat
    requires j < |sizes|
  {
    StartAt(sizes, j) + Needed(sizes[j])
  }

  /** The packet that takes the stream from byte `from` to byte `to` completes a token. */
  predicate Completes(sizes: seq<nat>, from: nat, to: nat) {
    exists j :: 0 <= j < |sizes| && from < CompleteAt(sizes, j) <= to
  }

  /** Where the first token starts that the first `n` bytes do not complete. */
  function Unread(sizes: seq<nat>, n: nat): (u: nat)
    ensures u <= n
  {
    if sizes == [] || n < Needed(sizes[0]) then 0 else sizes[0] + Unread(sizes[1..], n - sizes[0])
  }

  /** The packet completes a token, or the bytes that are then still unread are all zero. */
  predicate PacketKeeps(sizes: seq<nat>, s: seq<byte>, from: nat, to: nat)
    requires to <= |s|
  {
    Completes(sizes, from, to) || AllZero(s[Unread(sizes, to)..to])
  }

  /** So does every packet, the first of which starts at byte `from`. */
  predicate AllKeep(sizes: seq<nat>, s: seq<byte>, from: nat, packets: seq<seq<byte>>)
    requires from + |Concat(packets)| == |s|
    decreases |packets|
  {
    packets == [] || (PacketKeeps(sizes, s, from, from + |packets[0]|)
                      && AllKeep(sizes, s, from + |packets[0]|, packets[1..]))
  }

  ghost predicate Positive(sizes: seq<nat>) {
    forall j :: 0 <= j < |sizes| ==> sizes[j] > 0
  }

  /** Unread says what it is for: all tokens before it are complete, and the one there is not. */
  lemma {:induction false} UnreadIsStart(sizes: seq<nat>, n: nat) returns (j: nat)
    requires Positive(sizes)
    ensures j <= |sizes| && Unread(sizes, n) == StartAt(sizes, j)
    ensures forall i :: 0 <= i < |sizes| ==> (CompleteAt(sizes, i) <= n <==> i < j)
    decreases |sizes|
  {
    j := 0;
    if sizes != [] {
      var rest := sizes[1..];
      if n >= Needed(sizes[0]) {
        var k := UnreadIsStart(rest, n - sizes[0]);
        j := k + 1;
        forall i | 0 < i < |sizes|
          ensures CompleteAt(sizes, i) <= n <==> i < j
        {
          assert CompleteAt(sizes, i) == sizes[0] + CompleteAt(rest, i - 1);
        }
      } else {
        forall i | 0 < i < |sizes|
          ensures CompleteAt(sizes, i) > n
        {
          LaterComplete(sizes, i);
        }
      }
    }
  }

  lemma {:induction false} LaterComplete(sizes: seq<nat>, i: nat)
    requires Positive(sizes) && 0 < i < |sizes|
    ensures CompleteAt(sizes, i) > Needed(sizes[0])
    decreases i
  {
    assert CompleteAt(sizes, i) == sizes[0] + CompleteAt(sizes[1..], i - 1);
    if i > 1 {
      LaterComplete(sizes[1..], i - 1);
    }
  }

  lemma {:induction false} StartsGrow(sizes: seq<nat>, i: nat, j: nat)
    requires Positive(sizes) && i < j <= |sizes|
    ensures StartAt(sizes, i) < StartAt(sizes, j)
    decreases i
  {
    if i > 0 {
      StartsGrow(sizes[1..], i - 1, j - 1);
    }
  }

  lemma CompletesExactly(sizes: seq<nat>, from: nat, to: nat)
    requires Positive(sizes) && from <= to
    ensures Completes(sizes, from, to) <==> Unread(sizes, from) < Unread(sizes, to)
    ensures Unread(sizes, from) <= Unread(sizes, to)
  {
    hide Unread, CompleteAt, StartAt;
    var a := UnreadIsStart(sizes, from);
    var b := UnreadIsStart(sizes, to);
    var next := if b < |sizes| then CompleteAt(sizes, b) else 0;
    assert a <= b;
    if a < b {
      StartsGrow(sizes, a, b);
      assert from < CompleteAt(sizes, a) <= to;
    }
  }

  // ----- The parser's progress -----

  lemma {:induction false} SizesPositive(columns: seq<byte>, s: seq<byte>)
    requires WellFormed(columns, s)
    ensures Positive(Sizes(columns, s))
    decreases |s|
  {
    hide NextToken;
    if s != [] {
      SizesPositive(columns, s[NextToken(columns, s).size..]);
    }
  }

  /** Of the first `n` bytes the parser reads exactly the tokens they complete. */
  lemma {:induction false} ParsedSize(columns: seq<byte>, s: seq<byte>, n: nat)
    requires WellFormed(columns, s) && n <= |s|
    ensures Parse(columns, s[..n]).size == Unread(Sizes(columns, s), n)
    decreases |s|
  {
    hide NextToken, Parse;
    if s == [] {
      NothingToParse(columns);
    } else {
      var k := NextToken(columns, s).size;
      StableToken(columns, s, s[..n]);
      if n < Needed(k) {
        ParseWaits(columns, s[..n]);
      } else {
        ParseGot(columns, s[..n]);
        assert s[..n][k..] == s[k..][..n - k];
        ParsedSize(columns, s[k..], n - k);
      }
    }
  }

  lemma UnreadStep(columns: seq<byte>, s: seq<byte>, n: nat)
    requires WellFormed(columns, s) && s != [] && n <= |s|
    ensures NextToken(columns, s).Got? && WellFormed(columns, s[NextToken(columns, s).size..])
    ensures var k := NextToken(columns, s).size;
      Unread(Sizes(columns, s), n) == if n < Needed(k) then 0 else k + Unread(Sizes(columns, s[k..]), n - k)
  {
    hide NextToken;
  }

  /** The same from where an earlier delivery stopped. */
  lemma {:induction false} ParsedFrom(columns: seq<byte>, s: seq<byte>, from: nat, to: nat)
    requires WellFormed(columns, s) && from <= to <= |s|
    ensures var u := Unread(Sizes(columns, s), from);
      Parse(columns, s[u..to]).size == Unread(Sizes(columns, s), to) - u
    decreases |s|
  {
    hide NextToken, Parse, WellFormed, Unread, Sizes;
    if s != [] {
      UnreadStep(columns, s, from);
      UnreadStep(columns, s, to);
    }
    if s == [] || from < Needed(NextToken(columns, s).size) {
      ParsedSize(columns, s, to);
      assert s[0..to] == s[..to];
    } else {
      var k := NextToken(columns, s).size;
      ParsedFrom(columns, s[k..], from - k, to - k);
      var v := Unread(Sizes(columns, s[k..]), from - k);
      SliceBehind(s, k, v, to - k);
    }
  }

  lemma SliceBehind(s: seq<byte>, k: nat, i: nat, j: nat)
    requires k <= |s| && i <= j <= |s| - k
    ensures s[k..][i..j] == s[k + i..k + j]
  {
  }

  // ----- Nothing is lost: by position -----

  lemma NextReceived(columns: seq<byte>, s: seq<byte>, from: nat, packet: seq<byte>, events: seq<Event>)
    requires WellFormed(columns, s) && from + |packet| <= |s| && s[from..from + |packet|] == packet
    ensures var sizes, to := Sizes(columns, s), from + |packet|;
      var st := State(events, s[Unread(sizes, from)..from]);
      && (KeepsAll(columns, st.pending + packet) <==> PacketKeeps(sizes, s, from, to))
      && Deliver(columns, st, packet).pending == s[Unread(sizes, to)..to]
  {
    hide NextToken, Parse, WellFormed, Unread, Completes, Sizes;
    var sizes, to := Sizes(columns, s), from + |packet|;
    SizesPositive(columns, s);
    CompletesExactly(sizes, from, to);
    ParsedFrom(columns, s, from, to);
    var u := Unread(sizes, from);
    assert s[u..from] + packet == s[u..to];
    assert s[u..to][Unread(sizes, to) - u..] == s[Unread(sizes, to)..to];
  }

  lemma FirstOf(s: seq<byte>, from: nat, packets: seq<seq<byte>>)
    requires packets != [] && from <= |s| && s[from..] == Concat(packets)
    ensures var k := |packets[0]|;
      from + k <= |s| && s[from..from + k] == packets[0] && s[from + k..] == Concat(packets[1..])
  {
    var k := |packets[0]|;
    assert s[from..][..k] == packets[0] && s[from..][k..] == Concat(packets[1..]);
    assert s[from..from + k] == s[from..][..k] && s[from + k..] == s[from..][k..];
  }

  lemma {:induction false} LostFrom(columns: seq<byte>, s: seq<byte>, from: nat, events: seq<Event>, packets: seq<seq<byte>>)
    requires WellFormed(columns, s) && from <= |s| && s[from..] == Concat(packets)
    ensures NothingLost(columns, State(events, s[Unread(Sizes(columns, s), from)..from]), packets)
      <==> AllKeep(Sizes(columns, s), s, from, packets)
    decreases |packets|
  {
    hide NextToken, WellFormed, Unread, Sizes, KeepsAll, PacketKeeps, Concat, Parse;
    if packets != [] {
      var st := State(events, s[Unread(Sizes(columns, s), from)..from]);
      FirstOf(s, from, packets);
      NextReceived(columns, s, from, packets[0], events);
      var next := Deliver(columns, st, packets[0]);
      LostFrom(columns, s, from + |packets[0]|, next.events, packets[1..]);
    }
  }

  /**
   * Nothing is lost exactly if every packet contains the byte that completes a
   * token, or what is then unread is all zero.
   */
  lemma LostByPosition(columns: seq<byte>, packets: seq<seq<byte>>)
    requires WellFormed(columns, Concat(packets))
    ensures var s := Concat(packets);
      && (NothingLost(columns, State([], []), packets) <==> AllKeep(Sizes(columns, s), s, 0, packets))
      && (SameThroughout(columns, State([], []), packets) <==> AllKeep(Sizes(columns, s), s, 0, packets))
  {
    hide WellFormed, NothingLost, SameThroughout, AllKeep, Sizes;
    var s := Concat(packets);
    assert s[0..] == s;
    var sizes := Sizes(columns, s);
    assert s[Unread(sizes, 0)..0] == [];
    LostFrom(columns, s, 0, [], packets);
    RealExactly(columns, State([], []), packets);
  }

  /** No token starts with a zero byte, as none of the protocol's tokens does. */
  ghost predicate Named(sizes: seq<nat>, s: seq<byte>) {
    forall j :: 0 <= j < |sizes| && StartAt(sizes, j) < |s| ==> s[StartAt(sizes, j)] != 0
  }

  lemma {:induction false} Total(columns: seq<byte>, s: seq<byte>)
    requires WellFormed(columns, s)
    ensures StartAt(Sizes(columns, s), |Sizes(columns, s)|) == |s|
    decreases |s|
  {
    hide NextToken;
    if s != [] {
      Total(columns, s[NextToken(columns, s).size..]);
    }
  }

  /** Then a packet keeps everything exactly if it completes a token or leaves none unread. */
  lemma NamedPacketKeeps(columns: seq<byte>, s: seq<byte>, from: nat, to: nat)
    requires WellFormed(columns, s) && Named(Sizes(columns, s), s) && from <= to <= |s|
    ensures var sizes := Sizes(columns, s);
      PacketKeeps(sizes, s, from, to) <==> Completes(sizes, from, to) || Unread(sizes, to) == to
  {
    hide WellFormed, Sizes, Completes;
    var sizes := Sizes(columns, s);
    SizesPositive(columns, s);
    Total(columns, s);
    var j := UnreadIsStart(sizes, to);
    var u := Unread(sizes, to);
    if u < to {
      assert s[u..to][0] == s[u] != 0;
    }
  }

  // ----- What a callback costs -----

  function LengthCost(t: byte): nat {
    if IsCounted8(t) then 1 else if IsCounted16(t) then 2 else if IsLongText(t) then 4 else 0
  }

  function FieldCost(t: byte, f: Field): nat {
    LengthCost(t) + if f.Value? then |f.data| else 0
  }

  function RowCost(columns: seq<byte>, fields: seq<Field>): nat {
    if columns == [] || fields == [] then 0 else FieldCost(columns[0], fields[0]) + RowCost(columns[1..], fields[1..])
  }

  /** No shorter token fires this callback. */
  function Cost(columns: seq<byte>, e: Event): nat {
    match e
    case Row(fields) => 1 + RowCost(columns, fields)
    case EnvChange(_, newValue, oldValue) => 6 + |newValue| + |oldValue|
    case Info(_, _, _, text, server, procedure, _) => 15 + |text| + |server| + |procedure|
    case LoginAck(_, _, program, _) => 13 + |program|
    case Done(_, _, _) => 9
  }

  function CostAll(columns: seq<byte>, events: seq<Event>): nat {
    if events == [] then 0 else Cost(columns, events[0]) + CostAll(columns, events[1..])
  }

  lemma {:induction false} CostConcat(columns: seq<byte>, a: seq<Event>, b: seq<Event>)
    ensures CostAll(columns, a + b) == CostAll(columns, a) + CostAll(columns, b)
    decreases |a|
  {
    hide Cost;
    if a == [] {
      assert a + b == b;
    } else {
      assert (a + b)[1..] == a[1..] + b;
      CostConcat(columns, a[1..], b);
    }
  }

  lemma FieldCostFits(t: byte, s: seq<byte>)
    requires ReadField(t, s).Ok?
    ensures FieldCost(t, ReadField(t, s).value) <= ReadField(t, s).size
  {
    hide ReadField;
    FieldLaidOut(t, s);
  }

  lemma {:induction false} RowCostFits(columns: seq<byte>, s: seq<byte>)
    requires ReadRow(columns, s).Ok?
    ensures RowCost(columns, ReadRow(columns, s).value) <= ReadRow(columns, s).size
    decreases |columns|
  {
    hide ReadField, FieldCost;
    if columns != [] {
      FieldCostFits(columns[0], s);
      var f := ReadField(columns[0], s);
      RowCostFits(columns[1..], s[f.size..]);
      var below := ReadRow(columns[1..], s[f.size..]);
      assert ([f.value] + below.value)[1..] == below.value;
    }
  }

  lemma HandledCostFits(columns: seq<byte>, token: byte, t: seq<byte>)
    requires Handle(token, t).Finished? && Handle(token, t).event.Some?
    ensures Cost(columns, Handle(token, t).event.value) <= |t| + if FixedTokenSize(token) > 0 then 1 else 3
  {
    hide Get16, Get32;
  }

  lemma TokenCostFits(columns: seq<byte>, s: seq<byte>)
    requires NextToken(columns, s).Got? && NextToken(columns, s).event.Some?
    ensures Cost(columns, NextToken(columns, s).event.value) <= NextToken(columns, s).size
  {
    hide ReadRow, Handle, Get16;
    if s[0] == TOKEN_ROW {
      RowCostFits(columns, s[1..]);
    } else {
      var start, size := 1, FixedTokenSize(s[0]);
      if size == 0 {
        start, size := 3, Get16(s[1..]);
      }
      HandledCostFits(columns, s[0], s[start..start + size]);
    }
  }

  /** A token of type zero, which is what lost bytes look like, fires nothing. */
  lemma ZeroToken(columns: seq<byte>, s: seq<byte>)
    requires s != [] && s[0] == 0
    ensures NextToken(columns, s) == Need || (NextToken(columns, s).Got? && NextToken(columns, s).event == None)
  {
    hide ReadRow, Get16;
  }

  lemma FiredCost(columns: seq<byte>, event: Option<Event>)
    ensures CostAll(columns, Fired(event)) == if event.Some? then Cost(columns, event.value) else 0
  {
    hide Cost;
  }

  lemma {:induction false} ParseCostFits(columns: seq<byte>, s: seq<byte>)
    ensures CostAll(columns, Parse(columns, s).events) <= Parse(columns, s).size
    ensures s != [] && s[0] == 0 && Parse(columns, s).size > 0
      ==> CostAll(columns, Parse(columns, s).events) < Parse(columns, s).size
    decreases |s|
  {
    hide NextToken, Cost;
    var t := NextToken(columns, s);
    if t.Got? {
      ParseCostFits(columns, s[t.size..]);
      CostConcat(columns, Fired(t.event), Parse(columns, s[t.size..]).events);
      FiredCost(columns, t.event);
      if t.event.Some? {
        TokenCostFits(columns, s);
      }
    }
    if s != [] && s[0] == 0 {
      ZeroToken(columns, s);
    }
  }

  // ----- After a loss -----

  /** Of the bytes received, those in the buffer and those that the callbacks needed: some are missing, or will be. */
  ghost predicate Lossy(columns: seq<byte>, st: State, received: nat) {
    var accounted := CostAll(columns, st.events) + |st.pending|;
    accounted < received || (accounted == received && st.pending != [] && st.pending[0] == 0)
  }

  lemma DeliveryCost(columns: seq<byte>, st: State, packet: seq<byte>)
    ensures var data := st.pending + packet;
      var next := DeliverReal(columns, st, packet);
      var before, after := CostAll(columns, st.events) + |data|, CostAll(columns, next.events) + |next.pending|;
      && after <= before
      && (data != [] && data[0] == 0 && Parse(columns, data).size > 0 ==> after < before)
      && (Parse(columns, data).size == 0 ==> next.pending == Zeros(|data|))
  {
    hide Parse, Cost, CostAll;
    var data := st.pending + packet;
    var p := Parse(columns, data);
    ParseCostFits(columns, data);
    CostConcat(columns, st.events, p.events);
    KeptSize(data, p.size);
  }

  lemma LossyStep(columns: seq<byte>, st: State, packet: seq<byte>, received: nat)
    requires Lossy(columns, st, received)
    ensures Lossy(columns, DeliverReal(columns, st, packet), received + |packet|)
  {
    hide Parse, CostAll, DeliverReal;
    DeliveryCost(columns, st, packet);
    var data := st.pending + packet;
    assert st.pending != [] ==> data[0] == st.pending[0];
  }

  lemma {:induction false} LossyRun(columns: seq<byte>, st: State, packets: seq<seq<byte>>, received: nat)
    requires Lossy(columns, st, received)
    ensures Lossy(columns, DeliverAllReal(columns, st, packets), received + |Concat(packets)|)
    decreases |packets|
  {
    hide Lossy, DeliverReal;
    if packets != [] {
      LossyStep(columns, st, packets[0], received);
      LossyRun(columns, DeliverReal(columns, st, packets[0]), packets[1..], received + |packets[0]|);
    }
  }

  lemma {:induction false} LossShows(columns: seq<byte>, st: State, packets: seq<seq<byte>>, received: nat)
    requires CostAll(columns, st.events) + |st.pending| <= received && !NothingLost(columns, st, packets)
    ensures Lossy(columns, DeliverAllReal(columns, st, packets), received + |Concat(packets)|)
    decreases |packets|
  {
    hide Lossy, DeliverReal, Deliver, Parse, CostAll;
    var data := st.pending + packets[0];
    var next := DeliverReal(columns, st, packets[0]);
    DeliveryCost(columns, st, packets[0]);
    DeliveredAlike(columns, st, packets[0]);
    if KeepsAll(columns, data) {
      LossShows(columns, next, packets[1..], received + |packets[0]|);
    } else {
      assert Lossy(columns, next, received + |packets[0]|) by { LossStarts(columns, next, |data|, received + |packets[0]|); }
      LossyRun(columns, next, packets[1..], received + |packets[0]|);
    }
  }

  lemma LossStarts(columns: seq<byte>, st: State, n: nat, received: nat)
    requires n > 0 && st.pending == Zeros(n) && CostAll(columns, st.events) + n <= received
    ensures Lossy(columns, st, received)
  {
  }

  // ----- The callbacks, exactly -----

  /** The token fires a callback and carries nothing beside what it hands over: no text pointers. */
  ghost predicate Reports(columns: seq<byte>, k: Token) {
    match k
    case RowToken(_) => forall i :: 0 <= i < |columns| ==> !IsLongText(columns[i])
    case FixedBlock(_, _) => false
    case SizedBlock(_, _) => false
    case _ => true
  }

  ghost predicate AllReport(columns: seq<byte>, ks: seq<Token>) {
    forall i :: 0 <= i < |ks| ==> Reports(columns, ks[i])
  }

  lemma FieldBytesCost(t: byte, f: Field)
    requires FieldOk(t, f) && !IsLongText(t)
    ensures |FieldBytes(t, f)| == FieldCost(t, f)
  {
  }

  lemma {:induction false} RowBytesCost(columns: seq<byte>, fields: seq<Field>)
    requires RowOk(columns, fields)
    requires forall i :: 0 <= i < |columns| ==> !IsLongText(columns[i])
    ensures |RowBytes(columns, fields)| == RowCost(columns, fields)
    decreases |columns|
  {
    hide FieldOk, FieldBytes, FieldCost;
    if columns != [] {
      FieldBytesCost(columns[0], fields[0]);
      RowBytesCost(columns[1..], fields[1..]);
    }
  }

  lemma TokenBytesCost(columns: seq<byte>, k: Token)
    requires TokenOk(columns, k) && Reports(columns, k)
    ensures EventOf(k).Some? && |TokenBytes(columns, k)| == Cost(columns, EventOf(k).value)
  {
    hide RowBytes, RowCost, RowOk;
    if k.RowToken? {
      RowBytesCost(columns, k.fields);
    }
  }

  lemma {:induction false} StreamCost(columns: seq<byte>, ks: seq<Token>)
    requires StreamOk(columns, ks) && AllReport(columns, ks)
    ensures |StreamBytes(columns, ks)| == CostAll(columns, EventsOf(ks))
    decreases |ks|
  {
    hide TokenOk, Reports, TokenBytes, EventOf, Cost;
    if ks != [] {
      TokenBytesCost(columns, ks[0]);
      StreamCost(columns, ks[1..]);
      assert ([EventOf(ks[0]).value] + EventsOf(ks[1..]))[1..] == EventsOf(ks[1..]);
    }
  }

  /** The sizes of a server's tokens, as it wrote them. */
  function Lengths(columns: seq<byte>, ks: seq<Token>): (sizes: seq<nat>)
    requires StreamOk(columns, ks)
    ensures |sizes| == |ks|
  {
    if ks == [] then [] else [|TokenBytes(columns, ks[0])|] + Lengths(columns, ks[1..])
  }

  lemma {:induction false} SizesWritten(columns: seq<byte>, ks: seq<Token>)
    requires StreamOk(columns, ks) && (ks == [] || ks[|ks| - 1].DoneToken?)
    ensures WellFormed(columns, StreamBytes(columns, ks))
    ensures Sizes(columns, StreamBytes(columns, ks)) == Lengths(columns, ks)
    decreases |ks|
  {
    hide NextToken, TokenOk, TokenBytes;
    StreamRead(columns, ks);
    if ks != [] {
      var rest := StreamBytes(columns, ks[1..]);
      var s := TokenBytes(columns, ks[0]) + rest;
      EndsLong(columns, ks);
      TokenRead(columns, ks[0], rest);
      assert s[|TokenBytes(columns, ks[0])|..] == rest;
      SizesWritten(columns, ks[1..]);
    }
  }

  /** For a server's stream: nothing is lost exactly if the packets keep the positions of its tokens. */
  lemma ServerLostByPosition(columns: seq<byte>, ks: seq<Token>, packets: seq<seq<byte>>)
    requires StreamOk(columns, ks) && ks != [] && ks[|ks| - 1].DoneToken?
    requires Concat(packets) == StreamBytes(columns, ks)
    ensures NothingLost(columns, State([], []), packets)
      <==> AllKeep(Lengths(columns, ks), StreamBytes(columns, ks), 0, packets)
  {
    hide StreamOk, StreamBytes, WellFormed, NothingLost, AllKeep, Sizes, Lengths, Concat;
    SizesWritten(columns, ks);
    LostByPosition(columns, packets);
  }

  /**
   * If every token reports, the callbacks are those of the server's tokens
   * exactly if no packet loses anything: a byte lost is missing from some
   * callback, however the parser goes on from there.
   */
  lemma CallbacksExactly(columns: seq<byte>, ks: seq<Token>, packets: seq<seq<byte>>)
    requires StreamOk(columns, ks) && ks != [] && ks[|ks| - 1].DoneToken? && AllReport(columns, ks)
    requires Concat(packets) == StreamBytes(columns, ks)
    ensures DeliverAllReal(columns, State([], []), packets).events == EventsOf(ks)
      <==> AllKeep(Lengths(columns, ks), StreamBytes(columns, ks), 0, packets)
  {
    hide StreamOk, StreamBytes, NothingLost, AllKeep, Lengths, Concat, EventsOf, AllReport, DeliverAllReal, DeliverAll, CostAll;
    ServerLostByPosition(columns, ks, packets);
    StreamInAnyPackets(columns, ks, packets);
    if !NothingLost(columns, State([], []), packets) {
      assert CostAll(columns, []) == 0 by { NoCost(columns); }
      LossShows(columns, State([], []), packets, 0);
      StreamCost(columns, ks);
    }
  }

  lemma NoCost(columns: seq<byte>)
    ensures CostAll(columns, []) == 0
  {
  }

  // ----- A token without a callback may be lost unnoticed -----

  function StatusThenDone(b: byte): seq<Token> {
    [FixedBlock(TOKEN_RETURNSTATUS, [b, 0, 0, 0]), DoneToken(TOKEN_DONE, 0, 0, 0)]
  }

  function DoneOnly(): seq<Token> {
    [DoneToken(TOKEN_DONE, 0, 0, 0)]
  }

  function NoRows(): seq<byte> {
    [0, 0, 0, 0, 0, 0, 0, 0]
  }

  lemma DoneOnlyBytes()
    ensures StreamOk([], DoneOnly()) && StreamBytes([], DoneOnly()) == [TOKEN_DONE] + NoRows()
    ensures Lengths([], DoneOnly()) == [9] && EventsOf(DoneOnly()) == [Done(0, 0, 0)]
  {
    assert DoneOnly()[1..] == [];
    assert DoneBytesOf(0, 0, 0) == NoRows();
    assert TokenBytes([], DoneOnly()[0]) == [TOKEN_DONE] + NoRows();
  }

  lemma StatusBytes(b: byte)
    ensures StreamOk([], StatusThenDone(b)) && Lengths([], StatusThenDone(b)) == [5, 9]
    ensures StreamBytes([], StatusThenDone(b)) == [TOKEN_RETURNSTATUS] + BehindCut(b)
    ensures EventsOf(StatusThenDone(b)) == [Done(0, 0, 0)]
  {
    hide NoRows;
    var ks := StatusThenDone(b);
    assert ks[1..] == DoneOnly();
    DoneOnlyBytes();
    assert TokenBytes([], ks[0]) == [TOKEN_RETURNSTATUS] + [b, 0, 0, 0];
  }

  /** What follows a cut behind the first byte. */
  function BehindCut(b: byte): seq<byte> {
    [b, 0, 0, 0] + ([TOKEN_DONE] + NoRows())
  }

  function CutOnce(b: byte): seq<seq<byte>> {
    [[TOKEN_RETURNSTATUS], BehindCut(b)]
  }

  /** Same sizes, same cut. */
  ghost predicate CutAlike(b: byte) {
    && StreamOk([], StatusThenDone(b)) && Lengths([], StatusThenDone(b)) == [5, 9]
    && StreamBytes([], StatusThenDone(b)) == Concat(CutOnce(b))
  }

  /**
   * In general neither the positions nor the sizes decide about the callbacks.
   * Of two streams with tokens of the same sizes, cut at the same place, one
   * loses its DONE; in the other what follows the lost byte happens to read as
   * a token of the right size.
   */
  lemma PositionsDoNotDecide()
    ensures CutAlike(2) && DeliverAllReal([], State([], []), CutOnce(2)).events == EventsOf(StatusThenDone(2))
    ensures CutAlike(0) && DeliverAllReal([], State([], []), CutOnce(0)).events != EventsOf(StatusThenDone(0))
  {
    hide StreamOk, Lengths, EventsOf, DeliverAllReal, BehindCut, StreamBytes;
    StatusBytes(0);
    StatusBytes(2);
    CutRead(TOKEN_RETURNSTATUS, BehindCut(2));
    CutRead(TOKEN_RETURNSTATUS, BehindCut(0));
    Realigned();
    NotRealigned();
  }

  /** A first packet of one byte is lost. */
  lemma CutRead(first: byte, rest: seq<byte>)
    ensures Concat([[first], rest]) == [first] + rest
    ensures DeliverAllReal([], State([], []), [[first], rest]).events == Parse([], [0] + rest).events
  {
    hide NextToken, DeliverAllReal;
    TwoPackets([], [first], rest);
    assert NextToken([], [first]) == Need by { TooShort([], [first]); }
    ParseWaits([], [first]);
    hide Parse;
    assert [] + [first] == [first] && Zeros(1) == [0];
    assert [] + Parse([], [0] + rest).events == Parse([], [0] + rest).events;
  }

  lemma TooShort(columns: seq<byte>, s: seq<byte>)
    requires |s| < MIN_TOKEN_BYTES
    ensures NextToken(columns, s) == Need
  {
  }

  lemma Realigned()
    ensures Parse([], [0] + BehindCut(2)).events == [Done(0, 0, 0)]
  {
    hide Parse;
    var s, done := [0] + BehindCut(2), DoneBytes(TOKEN_DONE, NoRows());
    assert s[5..] == done && s[0] == 0 && s[1] == 2 && s[2] == 0;
    SilentToken(s, 5);
    DoneAlone([], TOKEN_DONE, NoRows());
    assert [] + Parse([], done).events == Parse([], done).events;
  }

  lemma NotRealigned()
    ensures Parse([], [0] + BehindCut(0)).events == []
  {
    hide Parse;
    var s := [0] + BehindCut(0);
    var rest := s[3..];
    assert s[0] == 0 && s[1] == 0 && s[2] == 0 && |s| == 14;
    SilentToken(s, 3);
    assert rest[0] == 0 && rest[1] == 0 && rest[2] == TOKEN_DONE;
    LongToken(rest);
    ParseWaits([], rest);
  }

  lemma SilentToken(s: seq<byte>, size: nat)
    requires 3 <= size <= |s| && s[0] == 0 && s[1] == size - 3 && s[2] == 0
    ensures Parse([], s).events == Parse([], s[size..]).events
  {
    hide Parse, ReadRow;
    assert NextToken([], s) == Got(None, size);
    ParseGot([], s);
    assert [] + Parse([], s[size..]).events == Parse([], s[size..]).events;
  }

  lemma LongToken(s: seq<byte>)
    requires 3 <= |s| < 0x100 && s[0] == 0 && s[2] != 0
    ensures NextToken([], s) == Need
  {
    hide ReadRow;
  }
}
