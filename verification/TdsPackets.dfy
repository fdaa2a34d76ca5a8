/** Messages as packets. */
module TdsPackets {
  // How a message buffer is cut for sending, how packets are read off the wire, and
  // the packet size that the server announces.

  import opened Bytes
  import opened TdsStream
  import opened TdsTokens
  import opened Arithmetic
  import opened Decimals
  import TdsEmit
  import TdsLoss

  const HEADER_BYTES: nat := 8
  const MAX_RECEIVED_LENGTH: nat := 32767

  /** One packet: the header's type, end-of-message flag and length, and the payload. */
  datatype Packet = Packet(kind: byte, eom: bool, length: u16, payload: seq<byte>)

  function Payloads(packets: seq<Packet>): (ps: seq<seq<byte>>)
    ensures |ps| == |packets| && forall i :: 0 <= i < |packets| ==> ps[i] == packets[i].payload
  {
    if packets == [] then [] else [packets[0].payload] + Payloads(packets[1..])
  }

  /** All packets but the last are full and only the last one ends the message. */
  ghost predicate Segmented(packets: seq<Packet>, kind: byte, segment: nat) {
    && packets != []
    && (forall i :: 0 <= i < |packets| ==> packets[i].kind == kind)
    && (forall i :: 0 <= i < |packets| ==> packets[i].length == |packets[i].payload| + 8)
    && (forall i :: 0 <= i < |packets| ==> (packets[i].eom <==> i == |packets| - 1))
    && (forall i :: 0 <= i < |packets| - 1 ==> |packets[i].payload| == segment)
    && |packets[|packets| - 1].payload| < segment
  }

  lemma {:induction false} ConcatAppend(ps: seq<seq<byte>>, p: seq<byte>)
    ensures Concat(ps + [p]) == Concat(ps) + p
    decreases |ps|
  {
    if ps == [] {
      assert ps + [p] == [p] && [p][1..] == [];
      assert Concat([p]) == p + Concat([]) == p;
    } else {
      assert (ps + [p])[1..] == ps[1..] + [p];
      ConcatAppend(ps[1..], p);
      Assoc(ps[0], Concat(ps[1..]), p);
    }
  }

  lemma {:induction false} PayloadsAppend(packets: seq<Packet>, p: Packet)
    ensures Payloads(packets + [p]) == Payloads(packets) + [p.payload]
    decreases |packets|
  {
    if packets == [] {
      assert packets + [p] == [p] && [p][1..] == [];
    } else {
      assert (packets + [p])[1..] == packets[1..] + [p];
      PayloadsAppend(packets[1..], p);
    }
  }

  /** Full packets only, none of them the last. */
  ghost predicate Filled(packets: seq<Packet>, kind: byte, segment: nat) {
    forall i :: 0 <= i < |packets|
      ==> packets[i].kind == kind && !packets[i].eom && |packets[i].payload| == segment
          && packets[i].length == segment + HEADER_BYTES
  }

  lemma AddPacket(packets: seq<Packet>, kind: byte, segment: nat, p: Packet)
    requires Filled(packets, kind, segment) && p.kind == kind && p.length == |p.payload| + HEADER_BYTES
    ensures !p.eom && |p.payload| == segment ==> Filled(packets + [p], kind, segment)
    ensures p.eom && |p.payload| < segment ==> Segmented(packets + [p], kind, segment)
    ensures Concat(Payloads(packets + [p])) == Concat(Payloads(packets)) + p.payload
  {
    hide Concat, Payloads;
    PayloadsAppend(packets, p);
    ConcatAppend(Payloads(packets), p.payload);
  }

  /** How many full segments a buffer of `n` bytes holds. */
  function Fragments(n: nat, k: nat): nat
    requires k > 0
  {
    n / k
  }

  lemma FragmentsStep(n: nat, k: nat)
    requires k > 0
    ensures Fragments(n, k) == 0 <==> n < k
    ensures n >= k ==> Fragments(n - k, k) == Fragments(n, k) - 1
  {
    DivStep(n, k);
    if n < k {
      DivModUnique(n, 0, n, k);
    }
  }

  lemma FragmentCount(n: nat, k: nat)
    requires k > 0
    ensures Fragments(n, k) == n / k
  {
  }

  /** do_send_tds_pdu: as many full packets as the buffer fills, and the rest in a last one, which may be empty. */
  method SendPdu(kind: byte, buffer: seq<byte>, packetSize: u16) returns (packets: seq<Packet>)
    requires packetSize > 8
    ensures Concat(Payloads(packets)) == buffer
    ensures Segmented(packets, kind, packetSize - 8)
    ensures |packets| == |buffer| / (packetSize - 8) + 1
  {
    hide Concat, Payloads, Filled, Segmented, Fragments;
    var segmentation := packetSize - HEADER_BYTES;
    packets := [];
    var offset := 0;
    var fragmentCount := Fragments(|buffer|, segmentation);
    NoPackets(kind, segmentation);
    assert buffer[..0] == [];
    var more := true;
    while more
      invariant 0 <= offset <= |buffer| && fragmentCount >= 0
      invariant Concat(Payloads(packets)) == buffer[..offset]
      invariant more ==> fragmentCount == Fragments(|buffer| - offset, segmentation)
      invariant more ==> |packets| + fragmentCount == Fragments(|buffer|, segmentation)
      invariant more ==> Filled(packets, kind, segmentation)
      invariant !more ==> offset == |buffer| && Segmented(packets, kind, segmentation)
      invariant !more ==> |packets| == Fragments(|buffer|, segmentation) + 1
      decreases more, fragmentCount
    {
      var remaining := |buffer| - offset;
      FragmentsStep(remaining, segmentation);
      var size := if remaining >= segmentation then segmentation else remaining;
      var segment := buffer[offset..offset + size];
      var p := Packet(kind, fragmentCount == 0, size + HEADER_BYTES, segment);
      AddPacket(packets, kind, segmentation, p);
      assert buffer[..offset] + segment == buffer[..offset + size];
      packets, offset := packets + [p], offset + size;
      more := fragmentCount != 0;
      if more {
        fragmentCount := fragmentCount - 1;
      }
    }
    assert buffer[..|buffer|] == buffer;
    assert Fragments(|buffer|, segmentation) == |buffer| / segmentation by { FragmentCount(|buffer|, segmentation); }
  }

  lemma NoPackets(kind: byte, segment: nat)
    ensures Concat(Payloads([])) == [] && Filled([], kind, segment)
  {
  }

  // ----- The negotiated packet size -----

  /** Characters as the server sends them, two bytes each, the lower first. */
  function Utf16(s: string): (b: seq<byte>)
    requires IsText(s)
    ensures |b| == 2 * |s|
  {
    if s == "" then [] else [s[0] as int, 0] + Utf16(s[1..])
  }

  /** One digit more, in a 16-bit variable. */
  function NextDigit(val: u16, b: byte): u16 {
    var v: int, d: int := val, b;
    (v * 10 + d - '0' as int) % 0x1_0000
  }

  function SizeFrom(val: u16, text: seq<byte>): u16
    decreases |text|
  {
    if |text| < 2 then val else SizeFrom(NextDigit(val, text[0]), text[2..])
  }

  lemma {:induction false} SizeConcat(val: u16, a: seq<byte>, b: seq<byte>)
    requires |a| % 2 == 0
    ensures SizeFrom(val, a + b) == SizeFrom(SizeFrom(val, a), b)
    decreases |a|
  {
    hide NextDigit;
    if a == [] {
      assert a + b == b;
    } else {
      assert (a + b)[2..] == a[2..] + b;
      SizeConcat(NextDigit(val, a[0]), a[2..], b);
    }
  }

  lemma {:induction false} Utf16Append(s: string, c: char)
    requires IsText(s + [c])
    ensures IsText(s) && Utf16(s + [c]) == Utf16(s) + [c as int, 0]
    decreases |s|
  {
    assert IsText(s) by { assert forall i :: 0 <= i < |s| ==> (s + [c])[i] == s[i]; }
    assert (s + [c])[|s|] == c;
    if s == "" {
      assert s + [c] == [c] && [c][1..] == "";
    } else {
      assert (s + [c])[1..] == s[1..] + [c];
      Utf16Append(s[1..], c);
    }
  }

  lemma DigitsAreText(digits: string)
    requires AllDigits(digits)
    ensures IsText(digits)
  {
  }

  /** The digits' number, modulo 2^16. */
  lemma {:induction false} SizeOfDigits(digits: string)
    requires AllDigits(digits)
    ensures IsText(digits) && SizeFrom(0, Utf16(digits)) == Written(digits) % 0x1_0000
    decreases |digits|
  {
    hide NextDigit;
    DigitsAreText(digits);
    if digits != "" {
      var n := |digits| - 1;
      assert digits == digits[..n] + [digits[n]];
      SizeOfDigits(digits[..n]);
      Utf16Append(digits[..n], digits[n]);
      var one: seq<byte> := [digits[n] as int, 0];
      SizeConcat(0, Utf16(digits[..n]), one);
      assert one[2..] == [];
      assert SizeFrom(NextDigit(SizeFrom(0, Utf16(digits[..n])), one[0]), []) == NextDigit(SizeFrom(0, Utf16(digits[..n])), one[0]);
      NextDigitOf(Written(digits[..n]), SizeFrom(0, Utf16(digits[..n])), digits[n]);
    }
  }

  lemma NextDigitOf(w: nat, val: u16, c: char)
    requires IsDigit(c) && val == w % 0x1_0000
    ensures NextDigit(val, c as int) == (w * 10 + DigitValue(c)) % 0x1_0000
  {
    var q := w / 0x1_0000;
    var v: int := val;
    assert w * 10 + DigitValue(c) == (q * 10) * 0x1_0000 + (v * 10 + DigitValue(c));
    var rest := v * 10 + DigitValue(c);
    DivModUnique(w * 10 + DigitValue(c), q * 10 + rest / 0x1_0000, rest % 0x1_0000, 0x1_0000);
  }

  /** The loop over the new value of an ENVCHANGE token of type 4. */
  method PacketSizeOf(newValue: seq<byte>) returns (val: u16)
    requires |newValue| % 2 == 0
    ensures val == SizeFrom(0, newValue)
  {
    hide NextDigit;
    val := 0;
    var ix := 0;
    assert newValue[0..] == newValue;
    while ix < |newValue|
      invariant 0 <= ix <= |newValue| && ix % 2 == 0
      invariant SizeFrom(val, newValue[ix..]) == SizeFrom(0, newValue)
    {
      assert newValue[ix..][2..] == newValue[ix + 2..];
      val := NextDigit(val, newValue[ix]);
      ix := ix + 2;
    }
  }

  /** A server that announces a packet size in decimal is understood, whatever the size. */
  lemma SizeUnderstood(n: u16)
    ensures IsText(Decimal(n)) && SizeFrom(0, Utf16(Decimal(n))) == n
  {
    hide Decimal, Written, SizeFrom, Utf16;
    WrittenDecimal(n);
    SizeOfDigits(Decimal(n));
  }

  // ----- The wire -----

  /** The eight header bytes; the length is big-endian. */
  function HeaderBytes(p: Packet): (b: seq<byte>)
    ensures |b| == HEADER_BYTES
  {
    [p.kind, if p.eom then 1 else 0, p.length / 256, p.length % 256, 0, 0, 0, 0]
  }

  function Wire(packets: seq<Packet>): seq<byte> {
    if packets == [] then [] else HeaderBytes(packets[0]) + (packets[0].payload + Wire(packets[1..]))
  }

  datatype Received = Received(payloads: seq<seq<byte>>, rest: seq<byte>)

  /** do_receive_tds_pdu's loop over packets that fit the buffer: None if a header is refused or data is missing. */
  function ReceivePdu(wire: seq<byte>): Option<Received>
    decreases |wire|
  {
    if |wire| < HEADER_BYTES then None
    else
      var hi: nat, lo: nat := wire[2], wire[3];
      var length := hi * 256 + lo;
      if length < HEADER_BYTES || length > MAX_RECEIVED_LENGTH || |wire| < length then None
      else
        var payload := wire[HEADER_BYTES..length];
        if wire[1] % 2 == 1 then Some(Received([payload], wire[length..]))
        else
          match ReceivePdu(wire[length..])
          case None => None
          case Some(more) => Some(Received([payload] + more.payloads, more.rest))
  }

  /** The header on the wire: the type, 1 for the last packet, the length with its high byte first, four zeros. */
  lemma HeaderLayout(p: Packet)
    ensures var b := HeaderBytes(p);
      && |b| == 8 && b[0] == p.kind && b[1] == (if p.eom then 1 else 0) && b[4..] == [0, 0, 0, 0]
      && 256 * b[2] as int + b[3] as int == p.length as int
  {
  }

  /** One packet at the front of the wire. */
  lemma PacketRead(p: Packet, rest: seq<byte>)
    requires p.length == |p.payload| + 8
    ensures var wire := HeaderBytes(p) + (p.payload + rest);
      ReceivePdu(wire)
      == if p.length > 32767 then None
         else if p.eom then Some(Received([p.payload], rest))
         else match ReceivePdu(rest)
              case None => None
              case Some(more) => Some(Received([p.payload] + more.payloads, more.rest))
  {
    var wire := HeaderBytes(p) + (p.payload + rest);
    HeaderRead(p, p.payload + rest);
    hide HeaderBytes;
    SplitAfter(HeaderBytes(p), p.payload, rest);
  }

  lemma HeaderRead(p: Packet, data: seq<byte>)
    ensures var wire := HeaderBytes(p) + data;
      var hi: nat, lo: nat := wire[2], wire[3];
      hi * 256 + lo == p.length && (wire[1] % 2 == 1 <==> p.eom)
  {
  }

  lemma SplitAfter(a: seq<byte>, b: seq<byte>, c: seq<byte>)
    ensures (a + (b + c))[|a|..|a| + |b|] == b && (a + (b + c))[|a| + |b|..] == c
  {
  }

  /** A message that was sent in packets of an admitted size is received packet for packet. */
  lemma {:induction false} ReceiveSent(packets: seq<Packet>, kind: byte, segment: nat, tail: seq<byte>)
    requires Segmented(packets, kind, segment) && segment + 8 <= 32767
    ensures ReceivePdu(Wire(packets) + tail) == Some(Received(Payloads(packets), tail))
    decreases |packets|
  {
    hide ReceivePdu, HeaderBytes;
    var p, rest := packets[0], Wire(packets[1..]) + tail;
    Assoc(HeaderBytes(p), p.payload + Wire(packets[1..]), tail);
    Assoc(p.payload, Wire(packets[1..]), tail);
    PacketRead(p, rest);
    if |packets| == 1 {
      assert packets[1..] == [] && rest == tail;
      assert Payloads(packets) == [p.payload] + Payloads([]) == [p.payload];
    } else {
      assert packets[1..][|packets| - 2] == packets[|packets| - 1];
      ReceiveSent(packets[1..], kind, segment, tail);
    }
  }

  /**
   * A whole response: the server's tokens, cut into packets of any size, reach
   * the callbacks in order; with the buffer as it is they do if each packet
   * completes a token or leaves only zeros, and for tokens that all report only
   * then.
   */
  lemma ResponseDelivered(columns: seq<byte>, ks: seq<TdsEmit.Token>, packets: seq<Packet>, kind: byte, segment: nat, tail: seq<byte>)
    requires Segmented(packets, kind, segment) && segment + 8 <= 32767
    requires TdsEmit.StreamOk(columns, ks) && ks != [] && ks[|ks| - 1].DoneToken?
    requires Concat(Payloads(packets)) == TdsEmit.StreamBytes(columns, ks)
    ensures var r := ReceivePdu(Wire(packets) + tail);
      && r.Some? && r.value.rest == tail && Concat(r.value.payloads) == TdsEmit.StreamBytes(columns, ks)
      && DeliverAll(columns, State([], []), r.value.payloads) == State(TdsEmit.EventsOf(ks), [])
      && var keep := TdsLoss.AllKeep(TdsLoss.Lengths(columns, ks), TdsEmit.StreamBytes(columns, ks), 0, r.value.payloads);
        && (keep ==> DeliverAllReal(columns, State([], []), r.value.payloads) == State(TdsEmit.EventsOf(ks), []))
        && (TdsLoss.AllReport(columns, ks)
            ==> (DeliverAllReal(columns, State([], []), r.value.payloads).events == TdsEmit.EventsOf(ks) <==> keep))
  {
    hide ReceivePdu, Wire, Concat, DeliverAll, DeliverAllReal, NothingLost, TdsEmit.StreamOk, TdsEmit.StreamBytes, TdsEmit.EventsOf;
    hide TdsLoss.AllKeep, TdsLoss.Lengths, TdsLoss.AllReport;
    ReceiveSent(packets, kind, segment, tail);
    TdsEmit.StreamInAnyPackets(columns, ks, Payloads(packets));
    TdsLoss.ServerLostByPosition(columns, ks, Payloads(packets));
    if TdsLoss.AllReport(columns, ks) {
      TdsLoss.CallbacksExactly(columns, ks, Payloads(packets));
    }
  }

  // ----- The receive loop -----

  /** Each packet fits the room that the earlier ones left in the buffer. */
  ghost predicate AllFit(columns: seq<byte>, capacity: nat, pending: seq<byte>, packets: seq<seq<byte>>)
    decreases |packets|
  {
    packets == []
    || (|pending| + |packets[0]| <= capacity
        && AllFit(columns, capacity, DeliverReal(columns, State([], pending), packets[0]).pending, packets[1..]))
  }

  datatype Outcome = Complete | Refused | Oversized

  /** The packets read so far and what the rest of the wire gives. */
  ghost predicate Reading(all: Option<Received>, payloads: seq<seq<byte>>, rest: Option<Received>) {
    match rest
    case None => all == None
    case Some(r) => all == Some(Received(payloads + r.payloads, r.rest))
  }

  /** If the whole message fits, what is still to come fits too. */
  ghost predicate StillFits(columns: seq<byte>, capacity: nat, fits: bool, pending: seq<byte>, rest: Option<Received>) {
    rest.Some? && fits ==> AllFit(columns, capacity, pending, rest.value.payloads)
  }

  ghost predicate WholeFits(columns: seq<byte>, capacity: nat, pending: seq<byte>, all: Option<Received>) {
    all.Some? && AllFit(columns, capacity, pending, all.value.payloads)
  }

  lemma {:induction false} DeliverAppend(columns: seq<byte>, st: State, ps: seq<seq<byte>>, p: seq<byte>)
    ensures DeliverAllReal(columns, st, ps + [p]) == DeliverReal(columns, DeliverAllReal(columns, st, ps), p)
    decreases |ps|
  {
    hide DeliverReal;
    if ps == [] {
      assert ps + [p] == [p] && [p][1..] == [];
      NothingDelivered(columns, DeliverReal(columns, st, p));
    } else {
      assert (ps + [p])[1..] == ps[1..] + [p];
      DeliverAppend(columns, DeliverReal(columns, st, ps[0]), ps[1..], p);
    }
  }

  /** Callbacks fired before do not matter to a delivery. */
  lemma DeliverAfter(columns: seq<byte>, events: seq<Event>, pending: seq<byte>, p: seq<byte>)
    ensures var d := DeliverReal(columns, State([], pending), p);
      DeliverReal(columns, State(events, pending), p) == State(events + d.events, d.pending)
  {
    hide Parse, Kept;
    var fired := Parse(columns, pending + p).events;
    assert [] + fired == fired;
  }

  /** What a header makes of the wire: bit 0 of the status ends the message, a length below 8 or above 32767 is refused. */
  lemma WireStep(wire: seq<byte>)
    requires |wire| >= 8
    ensures var hi: nat, lo: nat := wire[2], wire[3];
      var length := hi * 256 + lo;
      var bad := length < 8 || length > 32767 || |wire| < length;
      && (bad ==> ReceivePdu(wire) == None)
      && (!bad && wire[1] % 2 == 1 ==> ReceivePdu(wire) == Some(Received([wire[8..length]], wire[length..])))
      && (!bad && wire[1] % 2 == 0 ==> Reading(ReceivePdu(wire), [wire[8..length]], ReceivePdu(wire[length..])))
  {
  }

  lemma ReadingOn(all: Option<Received>, payloads: seq<seq<byte>>, here: Option<Received>, p: seq<byte>, next: Option<Received>)
    requires Reading(all, payloads, here) && Reading(here, [p], next)
    ensures Reading(all, payloads + [p], next)
  {
    if next.Some? {
      Assoc(payloads, [p], next.value.payloads);
    }
  }

  lemma FitsOn(columns: seq<byte>, capacity: nat, fits: bool, pending: seq<byte>, here: Option<Received>, p: seq<byte>,
               next: Option<Received>, after: seq<byte>)
    requires StillFits(columns, capacity, fits, pending, here) && Reading(here, [p], next)
    requires after == DeliverReal(columns, State([], pending), p).pending
    ensures fits && here.Some? ==> |pending| + |p| <= capacity
    ensures StillFits(columns, capacity, fits, after, next)
  {
    hide DeliverReal;
    if next.Some? {
      assert here.value.payloads == [p] + next.value.payloads;
      assert here.value.payloads[1..] == next.value.payloads;
    }
  }

  /**
   * do_receive_tds_pdu: packet by packet, each delivered as soon as it is
   * there; what the message leaves in the buffer is thrown away at its end.
   */
  method ReceiveMessage(r: Receiver, wire: seq<byte>)
    returns (outcome: Outcome, events: seq<Event>, payloads: seq<seq<byte>>, rest: seq<byte>)
    requires r.used <= r.buf.Length
    modifies r, r.buf
    ensures outcome == Complete ==> ReceivePdu(wire) == Some(Received(payloads, rest)) && r.used == 0
    ensures outcome == Complete
      ==> events == DeliverAllReal(r.columns, State([], old(r.buf[..r.used])), payloads).events
    ensures outcome == Refused ==> ReceivePdu(wire) == None
    ensures WholeFits(r.columns, r.buf.Length, old(r.buf[..r.used]), ReceivePdu(wire)) ==> outcome == Complete
  {
    hide ReceivePdu, DeliverReal, DeliverAllReal, AllFit;
    ghost var start := r.buf[..r.used];
    ghost var all := ReceivePdu(wire);
    ghost var fits := WholeFits(r.columns, r.buf.Length, start, all);
    events, payloads, rest := [], [], wire;
    NothingDelivered(r.columns, State([], start));
    ReadingStart(all);
    var more := true;
    while more
      invariant r.used <= r.buf.Length
      invariant State(events, r.buf[..r.used]) == DeliverAllReal(r.columns, State([], start), payloads)
      invariant more ==> Reading(all, payloads, ReceivePdu(rest))
      invariant more ==> StillFits(r.columns, r.buf.Length, fits, r.buf[..r.used], ReceivePdu(rest))
      invariant !more ==> all == Some(Received(payloads, rest))
      decreases more, |rest|
    {
      if |rest| < HEADER_BYTES {
        ShortWire(rest);
        return Refused, events, payloads, rest;
      }
      WireStep(rest);
      var hi: nat, lo: nat := rest[2], rest[3];
      var length := hi * 256 + lo;
      if length < HEADER_BYTES || length > MAX_RECEIVED_LENGTH || |rest| < length {
        return Refused, events, payloads, rest;
      }
      var p := rest[HEADER_BYTES..length];
      ghost var next := if rest[1] % 2 == 1 then Some(Received([], rest[length..])) else ReceivePdu(rest[length..]);
      LastPacket(p, rest[length..]);
      ghost var pending := r.buf[..r.used];
      FitsOn(r.columns, r.buf.Length, fits, pending, ReceivePdu(rest), p, next, DeliverReal(r.columns, State([], pending), p).pending);
      if r.used + |p| > r.buf.Length {
        assert !fits || all == None;
        return Oversized, events, payloads, rest;
      }
      var fired := r.ReceivePacket(p);
      DeliverAfter(r.columns, events, pending, p);
      DeliverAppend(r.columns, State([], start), payloads, p);
      ReadingOn(all, payloads, ReceivePdu(rest), p, next);
      more := rest[1] % 2 == 0;
      events, payloads, rest := events + fired, payloads + [p], rest[length..];
      assert payloads + [] == payloads;
    }
    var _ := ShiftLeft(r.buf, r.used, r.used);
    r.used := 0;
    outcome := Complete;
  }

  lemma ReadingStart(all: Option<Received>)
    ensures Reading(all, [], all)
  {
    assert all.Some? ==> [] + all.value.payloads == all.value.payloads;
  }

  lemma ShortWire(wire: seq<byte>)
    requires |wire| < HEADER_BYTES
    ensures ReceivePdu(wire) == None
  {
  }

  /** The last packet, seen as one with nothing behind it. */
  lemma LastPacket(p: seq<byte>, rest: seq<byte>)
    ensures Reading(Some(Received([p], rest)), [p], Some(Received([], rest)))
  {
    assert [p] + [] == [p];
  }
}
