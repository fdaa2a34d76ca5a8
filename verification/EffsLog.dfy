/** Segment files and their scan. */
module EffsLog {
  // Record images of the flash-backed event queue, and the scan that rebuilds an
  // index from whatever bytes a segment holds.

  import opened Bytes
  import Crc

  const REC_MAGIC: u32 := 0x31305147
  const REC_HEADER_SIZE: nat := 24
  const MAX_PAYLOAD: nat := 1024

  const PENDING: byte := 0
  const COMMITTED: byte := 1
  const QUARANTINED: byte := 2

  datatype Rec = Rec(id: u64, flag: byte, payload: seq<byte>)

  ghost predicate RecOk(r: Rec) {
    0 < |r.payload| <= MAX_PAYLOAD
  }

  ghost predicate LogOk(rs: seq<Rec>) {
    forall i :: 0 <= i < |rs| ==> RecOk(rs[i])
  }

  function Size(r: Rec): (n: nat)
    ensures n >= REC_HEADER_SIZE
  {
    REC_HEADER_SIZE + |r.payload|
  }

  function RecHeader(flag: byte, id: u64, len: u32, crc: u32): (b: seq<byte>)
    ensures |b| == REC_HEADER_SIZE
  {
    Le32(REC_MAGIC) + ([flag, 0, 0, 0] + (Le64(id) + (Le32(len) + Le32(crc))))
  }

  /** The header byte by byte: the letters "GQ01", the flag and three zeros, then id, length and checksum, lowest byte first. */
  lemma RecordLayout(flag: byte, id: u64, len: u32, crc: u32)
    ensures var h := RecHeader(flag, id, len, crc);
      && |h| == 24 && h[..4] == [0x47, 0x51, 0x30, 0x31] && h[4] == flag && h[5..8] == [0, 0, 0]
      && Get64(h[8..]) == id && Get32(h[16..]) == len && Get32(h[20..]) == crc
  {
    hide Get32, Get64, Le64;
    var h := RecHeader(flag, id, len, crc);
    assert Le32(REC_MAGIC) == [0x47, 0x51, 0x30, 0x31];
    hide Le32;
    assert h[8..] == Le64(id) + (Le32(len) + Le32(crc)) && h[16..] == Le32(len) + Le32(crc) && h[20..] == Le32(crc) + [];
    Get64Le64(id, Le32(len) + Le32(crc));
    Get32Le32(len, Le32(crc));
    Get32Le32(crc, []);
  }

  function EncodeRec(r: Rec): (b: seq<byte>)
    requires RecOk(r)
    ensures |b| == Size(r)
  {
    RecHeader(r.flag, r.id, |r.payload|, Crc.Checksum(r.payload)) + r.payload
  }

  function EncodeLog(rs: seq<Rec>): (b: seq<byte>)
    requires LogOk(rs)
    ensures |b| == LogSize(rs)
  {
    if rs == [] then [] else EncodeRec(rs[0]) + EncodeLog(rs[1..])
  }

  function LogSize(rs: seq<Rec>): nat {
    if rs == [] then 0 else Size(rs[0]) + LogSize(rs[1..])
  }

  // ----- The index and the scan -----

  /** One index entry: where a live record sits. */
  datatype Entry = Entry(id: u64, flag: byte, seg: nat, offset: nat, len: nat)

  datatype Placed = Placed(rec: Rec, seg: nat, offset: nat)

  function EntryOf(p: Placed): Entry {
    Entry(p.rec.id, p.rec.flag, p.seg, p.offset, |p.rec.payload|)
  }

  function EntriesOf(ps: seq<Placed>): (es: seq<Entry>)
    ensures |es| == |ps|
  {
    if ps == [] then [] else [EntryOf(ps[0])] + EntriesOf(ps[1..])
  }

  predicate IsLive(flag: byte) {
    flag == PENDING || flag == QUARANTINED
  }

  /** The live records of a segment, in file order, with their places. */
  function LiveOf(rs: seq<Rec>, seg: nat, offset: nat): seq<Placed> {
    if rs == [] then []
    else
      (if IsLive(rs[0].flag) then [Placed(rs[0], seg, offset)] else [])
      + LiveOf(rs[1..], seg, offset + Size(rs[0]))
  }

  datatype Peeked = Peeked(flag: byte, id: u64, len: nat, intact: bool)

  /** What the scan makes of the bytes at its cursor; None ends the segment. */
  function NextRec(s: seq<byte>): (v: Option<Peeked>)
    ensures v.Some? ==> 0 < v.value.len <= MAX_PAYLOAD && REC_HEADER_SIZE + v.value.len <= |s|
  {
    if |s| < REC_HEADER_SIZE || Get32(s) != REC_MAGIC then None
    else
      var len := Get32(s[16..]);
      if len == 0 || len > MAX_PAYLOAD || |s| < REC_HEADER_SIZE + len then None
      else
        var payload := s[REC_HEADER_SIZE..REC_HEADER_SIZE + len];
        Some(Peeked(s[4], Get64(s[8..]), len, Crc.Checksum(payload) == Get32(s[20..])))
  }

  function Walk(s: seq<byte>, seg: nat, offset: nat): seq<Entry>
    decreases |s|
  {
    match NextRec(s)
    case None => []
    case Some(v) =>
      (if v.intact && IsLive(v.flag) then [Entry(v.id, v.flag, seg, offset, v.len)] else [])
      + Walk(s[REC_HEADER_SIZE + v.len..], seg, offset + REC_HEADER_SIZE + v.len)
  }

  function WalkEnd(s: seq<byte>, offset: nat): (end: nat)
    ensures offset <= end <= offset + |s|
    decreases |s|
  {
    match NextRec(s)
    case None => offset
    case Some(v) => WalkEnd(s[REC_HEADER_SIZE + v.len..], offset + REC_HEADER_SIZE + v.len)
  }

  // ----- Reading back what was written -----

  lemma HeaderFields(flag: byte, id: u64, len: u32, crc: u32, tail: seq<byte>)
    ensures var s := RecHeader(flag, id, len, crc) + tail;
      && Get32(s) == REC_MAGIC && s[4] == flag && Get64(s[8..]) == id
      && Get32(s[16..]) == len && Get32(s[20..]) == crc && s[REC_HEADER_SIZE..] == tail
  {
    hide Le32, Le64, Get32, Get64;
    var s := RecHeader(flag, id, len, crc) + tail;
    var t5 := Le32(crc) + tail;
    var t4 := Le32(len) + t5;
    var t3 := Le64(id) + t4;
    assert s == Le32(REC_MAGIC) + ([flag, 0, 0, 0] + t3);
    assert s[4..] == [flag, 0, 0, 0] + t3;
    assert s[8..] == t3 && s[16..] == t4 && s[20..] == t5;
    assert s[4] == s[4..][0];
    Get32Le32(REC_MAGIC, [flag, 0, 0, 0] + t3);
    Get64Le64(id, t4);
    Get32Le32(len, t5);
    Get32Le32(crc, tail);
  }

  /** A record whose payload bytes may have changed since its header was written. */
  lemma NextRecWritten(r: Rec, stored: seq<byte>, tail: seq<byte>)
    requires RecOk(r) && |stored| == |r.payload|
    ensures NextRec(RecHeader(r.flag, r.id, |r.payload|, Crc.Checksum(r.payload)) + stored + tail)
      == Some(Peeked(r.flag, r.id, |r.payload|, Crc.Checksum(stored) == Crc.Checksum(r.payload)))
    ensures (RecHeader(r.flag, r.id, |r.payload|, Crc.Checksum(r.payload)) + stored + tail)[Size(r)..] == tail
  {
    hide Get32, Get64, RecHeader, Crc.Checksum;
    var h := RecHeader(r.flag, r.id, |r.payload|, Crc.Checksum(r.payload));
    assert h + stored + tail == h + (stored + tail);
    HeaderFields(r.flag, r.id, |r.payload|, Crc.Checksum(r.payload), stored + tail);
    assert (h + stored + tail)[REC_HEADER_SIZE..REC_HEADER_SIZE + |stored|] == stored;
  }

  /** One record of the scan. */
  lemma WalkStep(r: Rec, stored: seq<byte>, rest: seq<byte>, seg: nat, offset: nat)
    requires RecOk(r) && |stored| == |r.payload|
    ensures var s := RecHeader(r.flag, r.id, |r.payload|, Crc.Checksum(r.payload)) + stored + rest;
      && WalkEnd(s, offset) == WalkEnd(rest, offset + Size(r))
      && Walk(s, seg, offset)
         == (if Crc.Checksum(stored) == Crc.Checksum(r.payload) && IsLive(r.flag)
             then [EntryOf(Placed(r, seg, offset))] else [])
            + Walk(rest, seg, offset + Size(r))
  {
    hide NextRec, RecHeader, Crc.Checksum, IsLive;
    NextRecWritten(r, stored, rest);
  }

  lemma {:induction false} EntriesConcat(a: seq<Placed>, b: seq<Placed>)
    ensures EntriesOf(a + b) == EntriesOf(a) + EntriesOf(b)
    decreases |a|
  {
    hide EntryOf;
    if a == [] {
      assert a + b == b;
    } else {
      EntriesConcat(a[1..], b);
      var whole := a + b;
      assert whole != [] && whole[0] == a[0] && whole[1..] == a[1..] + b;
      assert EntriesOf(whole) == [EntryOf(a[0])] + EntriesOf(whole[1..]);
    }
  }

  lemma LiveStep(rs: seq<Rec>, seg: nat, offset: nat)
    requires rs != []
    ensures EntriesOf(LiveOf(rs, seg, offset))
      == (if IsLive(rs[0].flag) then [EntryOf(Placed(rs[0], seg, offset))] else [])
         + EntriesOf(LiveOf(rs[1..], seg, offset + Size(rs[0])))
  {
    hide IsLive;
    var head := if IsLive(rs[0].flag) then [Placed(rs[0], seg, offset)] else [];
    EntriesConcat(head, LiveOf(rs[1..], seg, offset + Size(rs[0])));
  }

  /** Scanning a log followed by anything finds the log's live records and goes on behind it. */
  lemma {:induction false} WalkAppend(rs: seq<Rec>, tail: seq<byte>, seg: nat, offset: nat)
    requires LogOk(rs)
    ensures Walk(EncodeLog(rs) + tail, seg, offset)
      == EntriesOf(LiveOf(rs, seg, offset)) + Walk(tail, seg, offset + LogSize(rs))
    ensures WalkEnd(EncodeLog(rs) + tail, offset) == WalkEnd(tail, offset + LogSize(rs))
    decreases |rs|
  {
    hide NextRec, RecHeader, Crc.Checksum, Walk, WalkEnd, IsLive, EntryOf;
    if rs == [] {
      assert EncodeLog(rs) + tail == tail;
    } else {
      hide EntriesOf, LiveOf;
      var r, rest := rs[0], EncodeLog(rs[1..]) + tail;
      assert EncodeLog(rs) + tail
        == RecHeader(r.flag, r.id, |r.payload|, Crc.Checksum(r.payload)) + r.payload + rest;
      WalkStep(r, r.payload, rest, seg, offset);
      LiveStep(rs, seg, offset);
      WalkAppend(rs[1..], tail, seg, offset + Size(r));
    }
  }

  lemma NoRecord(s: seq<byte>, seg: nat, offset: nat)
    requires NextRec(s) == None
    ensures Walk(s, seg, offset) == [] && WalkEnd(s, offset) == offset
  {
  }

  /** An undamaged segment scans to exactly its live records and its whole length. */
  lemma ScanEncoded(rs: seq<Rec>, seg: nat)
    requires LogOk(rs)
    ensures Walk(EncodeLog(rs), seg, 0) == EntriesOf(LiveOf(rs, seg, 0))
    ensures WalkEnd(EncodeLog(rs), 0) == LogSize(rs)
  {
    hide NextRec, Walk, WalkEnd, EncodeLog, LiveOf, EntriesOf, LogSize;
    WalkAppend(rs, [], seg, 0);
    assert EncodeLog(rs) + [] == EncodeLog(rs);
    NothingLeft([]);
    NoRecord([], seg, LogSize(rs));
  }

  lemma NothingLeft(s: seq<byte>)
    requires |s| < REC_HEADER_SIZE
    ensures NextRec(s) == None
  {
  }

  // ----- A torn segment -----

  /** The records that lie wholly within the first `cut` bytes. */
  function Whole(rs: seq<Rec>, cut: nat): seq<Rec> {
    if rs == [] || Size(rs[0]) > cut then [] else [rs[0]] + Whole(rs[1..], cut - Size(rs[0]))
  }

  /** They form a prefix of the log, and the next record does not fit any more. */
  lemma {:induction false} WholeIsLargest(rs: seq<Rec>, cut: nat)
    ensures var n := |Whole(rs, cut)|;
      && n <= |rs| && Whole(rs, cut) == rs[..n] && LogSize(rs[..n]) <= cut
      && (n < |rs| ==> LogSize(rs[..n]) + Size(rs[n]) > cut)
    decreases |rs|
  {
    if rs != [] && Size(rs[0]) <= cut {
      WholeIsLargest(rs[1..], cut - Size(rs[0]));
      var n := |Whole(rs, cut)|;
      assert rs[..n][1..] == rs[1..][..n - 1];
    }
  }

  /** A record cut short is not read. */
  lemma PartialRecord(r: Rec, s: seq<byte>, rest: seq<byte>)
    requires RecOk(r) && |s| < Size(r) && s <= EncodeRec(r) + rest
    ensures NextRec(s) == None
  {
    hide Get32, Get64, RecHeader, Crc.Checksum;
    if |s| >= REC_HEADER_SIZE {
      var h := RecHeader(r.flag, r.id, |r.payload|, Crc.Checksum(r.payload));
      assert s[..REC_HEADER_SIZE] == h;
      assert s == h + s[REC_HEADER_SIZE..];
      HeaderFields(r.flag, r.id, |r.payload|, Crc.Checksum(r.payload), s[REC_HEADER_SIZE..]);
    }
  }

  /** A log of one record more, cut behind that record. */
  lemma CutBehind(a: seq<byte>, rest: seq<byte>, w: seq<byte>, cut: nat)
    requires |a| <= cut <= |a| + |rest| && |w| <= cut - |a|
    requires rest[..cut - |a|] == w + rest[|w|..cut - |a|]
    ensures (a + rest)[..cut] == (a + w) + (a + rest)[|a + w|..cut]
    ensures (a + rest)[|a + w|..cut] == rest[|w|..cut - |a|]
  {
    assert (a + rest)[..cut] == a + rest[..cut - |a|];
    Assoc(a, w, rest[|w|..cut - |a|]);
  }

  lemma WholeStep(rs: seq<Rec>, cut: nat)
    requires rs != [] && LogOk(rs)
    ensures Size(rs[0]) > cut ==> Whole(rs, cut) == []
    ensures Size(rs[0]) <= cut
      ==> Whole(rs, cut) == [rs[0]] + Whole(rs[1..], cut - Size(rs[0]))
    ensures EncodeLog(rs) == EncodeRec(rs[0]) + EncodeLog(rs[1..]) && LogSize(rs) == Size(rs[0]) + LogSize(rs[1..])
  {
    hide EncodeRec;
  }

  lemma {:induction false} TornAt(rs: seq<Rec>, cut: nat)
    requires LogOk(rs) && cut <= LogSize(rs)
    ensures LogOk(Whole(rs, cut)) && LogSize(Whole(rs, cut)) <= cut
    ensures EncodeLog(rs)[..cut] == EncodeLog(Whole(rs, cut)) + EncodeLog(rs)[LogSize(Whole(rs, cut))..cut]
    ensures NextRec(EncodeLog(rs)[LogSize(Whole(rs, cut))..cut]) == None
    decreases |rs|
  {
    hide NextRec, EncodeRec;
    if rs == [] {
      NothingLeft(EncodeLog(rs)[0..cut]);
    } else {
      var rest := EncodeLog(rs[1..]);
      WholeStep(rs, cut);
      if Size(rs[0]) > cut {
        assert EncodeLog(rs)[0..cut] <= EncodeRec(rs[0]) + rest;
        PartialRecord(rs[0], EncodeLog(rs)[0..cut], rest);
      } else {
        var w := Whole(rs[1..], cut - Size(rs[0]));
        TornAt(rs[1..], cut - Size(rs[0]));
        EncodeCons(rs[0], w);
        hide EncodeLog, LogSize, Whole, LogOk;
        CutBehind(EncodeRec(rs[0]), rest, EncodeLog(w), cut);
      }
    }
  }

  lemma EncodeCons(r: Rec, w: seq<Rec>)
    requires RecOk(r) && LogOk(w)
    ensures LogOk([r] + w) && EncodeLog([r] + w) == EncodeRec(r) + EncodeLog(w) && LogSize([r] + w) == Size(r) + LogSize(w)
  {
    hide EncodeRec;
    var rs := [r] + w;
    assert rs[0] == r && rs[1..] == w;
  }

  /** Cut at any byte, a segment still yields exactly the live records wholly before the cut. */
  lemma TornSegment(rs: seq<Rec>, cut: nat, seg: nat)
    requires LogOk(rs) && cut <= LogSize(rs)
    ensures Walk(EncodeLog(rs)[..cut], seg, 0) == EntriesOf(LiveOf(Whole(rs, cut), seg, 0))
    ensures WalkEnd(EncodeLog(rs)[..cut], 0) == LogSize(Whole(rs, cut))
  {
    hide NextRec, Walk, WalkEnd, EntriesOf, LiveOf, EncodeLog, LogSize, Whole;
    TornAt(rs, cut);
    var w := Whole(rs, cut);
    var tail := EncodeLog(rs)[LogSize(w)..cut];
    WalkAppend(w, tail, seg, 0);
    NoRecord(tail, seg, LogSize(w));
  }

  // ----- A damaged payload -----

  /**
   * Bytes changed within four consecutive positions of one record's payload
   * cost that record alone: every other live record keeps its place.
   */
  lemma DamagedPayload(pre: seq<Rec>, r: Rec, stored: seq<byte>, at: nat, post: seq<Rec>, seg: nat)
    requires LogOk(pre) && RecOk(r) && LogOk(post)
    requires stored != r.payload && Crc.AgreeOutside(stored, r.payload, at)
    ensures var file := EncodeLog(pre)
                        + (RecHeader(r.flag, r.id, |r.payload|, Crc.Checksum(r.payload)) + stored + EncodeLog(post));
      && Walk(file, seg, 0)
         == EntriesOf(LiveOf(pre, seg, 0)) + EntriesOf(LiveOf(post, seg, LogSize(pre) + Size(r)))
      && WalkEnd(file, 0) == |file|
  {
    hide NextRec, RecHeader, Crc.Checksum, Walk, WalkEnd, EntriesOf, LiveOf, EncodeLog;
    var damaged := RecHeader(r.flag, r.id, |r.payload|, Crc.Checksum(r.payload)) + stored + EncodeLog(post);
    WalkAppend(pre, damaged, seg, 0);
    WalkStep(r, stored, EncodeLog(post), seg, LogSize(pre));
    Crc.BurstDetected(stored, r.payload, at);
    var next := LogSize(pre) + Size(r);
    WalkAppend(post, [], seg, next);
    assert EncodeLog(post) + [] == EncodeLog(post);
    NothingLeft([]);
    NoRecord([], seg, next + LogSize(post));
  }
}
