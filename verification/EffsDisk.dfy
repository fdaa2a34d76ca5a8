/** The segment files on disk, and what recovery makes of them. */
module EffsDisk {
  import opened Bytes
  import opened GatewayTypes
  import opened EffsLog
  import opened EffsState
  import Crc
  import Serializer

  // ----- The files and the records they hold -----

  ghost predicate SegOk(files: map<nat, seq<byte>>, rs: seq<Rec>, k: nat) {
    && LogOk(rs)
    && (rs == [] <==> k !in files)
    && (k in files ==> files[k] == EncodeLog(rs) && LiveOf(rs, k, 0) != [])
  }

  /** Every file below segment 256 holds exactly its records, one of them live; none lies behind the active segment. */
  ghost predicate FilesOk(files: map<nat, seq<byte>>, segs: seq<seq<Rec>>, active: nat) {
    && |segs| == SEGMENTS
    && segs[0] == []
    && (forall k :: 0 <= k < SEGMENTS ==> SegOk(files, segs[k], k))
    && (forall k :: active < k < SEGMENTS ==> segs[k] == [])
  }

  ghost predicate BytesOk(segBytes: seq<nat>, segs: seq<seq<Rec>>) {
    |segBytes| == |segs| == SEGMENTS && forall k :: 0 <= k < SEGMENTS ==> segBytes[k] == LogSize(segs[k])
  }

  /** The record holds the image of an event of its own id. */
  ghost predicate HoldsEvent(r: Rec) {
    var ev := Serializer.Decode(r.payload);
    ev.Some? && ev.value.eventId == r.id
  }

  ghost predicate LiveOk(segs: seq<seq<Rec>>, live: seq<Placed>, nextId: nat) {
    && live == AllLive(segs)
    && UniqueIds(live)
    && (forall i :: 0 <= i < |live| ==> live[i].rec.id < nextId && HoldsEvent(live[i].rec) && IsLive(live[i].rec.flag))
  }

  // ----- Append -----

  lemma FilesAppend(files: map<nat, seq<byte>>, segs: seq<seq<Rec>>, active: nat, k: nat, r: Rec)
    requires FilesOk(files, segs, active) && 0 < k < SEGMENTS && active <= k && RecOk(r) && IsLive(r.flag)
    ensures FilesOk(files[k := EncodeLog(segs[k]) + EncodeRec(r)], segs[k := segs[k] + [r]], k)
    ensures AllLive(segs[k := segs[k] + [r]]) == AllLive(segs) + [Placed(r, k, LogSize(segs[k]))]
    ensures LogSize(segs[k] + [r]) == LogSize(segs[k]) + Size(r)
  {
    hide EncodeLog, EncodeRec, IsLive, LiveOf, LogSize;
    var rs := segs[k];
    assert SegOk(files, rs, k);
    EncodeAppend(rs, r);
    LiveOfAppend(rs, r, k, 0);
    AllLiveAppend(segs, k, r);
    var files2, segs2 := files[k := EncodeLog(rs) + EncodeRec(r)], segs[k := rs + [r]];
    forall j | 0 <= j < SEGMENTS
      ensures SegOk(files2, segs2[j], j)
    {
      assert SegOk(files, segs[j], j);
    }
  }

  lemma LiveAppend(segs: seq<seq<Rec>>, live: seq<Placed>, nextId: nat, k: nat, r: Rec)
    requires LiveOk(segs, live, nextId) && k < |segs| && !HasId(live, r.id) && r.id < nextId
    requires HoldsEvent(r) && IsLive(r.flag)
    requires AllLive(segs[k := segs[k] + [r]]) == AllLive(segs) + [Placed(r, k, LogSize(segs[k]))]
    ensures LiveOk(segs[k := segs[k] + [r]], live + [Placed(r, k, LogSize(segs[k]))], nextId)
  {
    hide AllLive, HoldsEvent, IsLive, LogSize;
    assert forall i :: 0 <= i < |live| ==> live[i] in live;
  }

  /** Sixty-four records never come near the byte budget. */
  lemma {:induction false} SumBound(ps: seq<Placed>)
    requires forall p :: p in ps ==> RecOk(p.rec)
    ensures SumSize(ps) <= |ps| * (REC_HEADER_SIZE + MAX_PAYLOAD)
    decreases |ps|
  {
    if ps != [] {
      SumBound(ps[1..]);
    }
  }

  lemma LiveRecOk(files: map<nat, seq<byte>>, segs: seq<seq<Rec>>, active: nat, p: Placed)
    requires FilesOk(files, segs, active) && p in AllLive(segs)
    ensures p.seg < SEGMENTS && p.seg in files && RecOk(p.rec) && LiveAt(segs[p.seg], p.offset)
    ensures p.offset + Size(p.rec) <= |files[p.seg]|
    ensures files[p.seg][p.offset + REC_HEADER_SIZE..p.offset + Size(p.rec)] == p.rec.payload
  {
    hide LiveAt, AllLive, LiveOf, EncodeLog;
    AllLiveAt(segs, p);
    assert SegOk(files, segs[p.seg], p.seg);
    LiveOfAt(segs[p.seg], p.seg, 0, p);
  }

  lemma BudgetFits(files: map<nat, seq<byte>>, segs: seq<seq<Rec>>, active: nat, live: seq<Placed>, size: nat)
    requires FilesOk(files, segs, active) && live == AllLive(segs) && |live| < MAX_QUEUE_RECORDS
    requires size <= REC_HEADER_SIZE + MAX_PAYLOAD
    ensures SumSize(live) + size <= BUDGET_BYTES
  {
    hide FilesOk, AllLive;
    forall p | p in live
      ensures RecOk(p.rec)
    {
      LiveRecOk(files, segs, active, p);
    }
    SumBound(live);
  }

  // ----- Commit and quarantine -----

  /** The disk after the flag byte of one live record was overwritten. */
  function Rewritten(files: map<nat, seq<byte>>, seg: nat, offset: nat, flag: byte): map<nat, seq<byte>>
    requires seg in files && offset + 4 < |files[seg]|
  {
    var data: seq<byte> := files[seg][offset + 4 := flag];
    files[seg := data]
  }

  lemma FlagRewritten(files: map<nat, seq<byte>>, segs: seq<seq<Rec>>, active: nat, live: seq<Placed>,
                      nextId: nat, k: nat, flag: byte)
    requires FilesOk(files, segs, active) && LiveOk(segs, live, nextId) && k < |live|
    ensures var p := live[k];
      && p.seg < SEGMENTS && p.seg in files && p.offset + 4 < |files[p.seg]|
      && var rs := SetFlagAt(segs[p.seg], p.offset, flag);
      && LogOk(rs) && LogSize(rs) == LogSize(segs[p.seg]) && rs != []
      && Rewritten(files, p.seg, p.offset, flag)[p.seg] == EncodeLog(rs)
      && AllLive(segs[p.seg := rs]) == Marked(live, p.rec.id, flag)
  {
    hide LogSize, LiveOf, AllLive, EncodeLog, LiveAt, Marked, HoldsEvent, IsLive;
    var p := live[k];
    assert p in live;
    AllLiveAt(segs, p);
    NoneLive(p.seg);
    assert SegOk(files, segs[p.seg], p.seg);
    LiveOfAt(segs[p.seg], p.seg, 0, p);
    RewriteFlag(segs[p.seg], p.offset, flag);
    SamePlace(live, segs, p);
    AllLiveSetFlag(segs, p.seg, p.offset, flag, p.rec.id);
  }

  /** Live records differ in place exactly if they differ in id. */
  lemma SamePlace(live: seq<Placed>, segs: seq<seq<Rec>>, p: Placed)
    requires live == AllLive(segs) && UniqueIds(live) && p in live
    ensures forall q :: q in live ==> (q.rec.id == p.rec.id <==> q.seg == p.seg && q.offset == p.offset)
  {
    hide AllLive, LiveOf;
    forall q | q in live
      ensures q.rec.id == p.rec.id <==> q.seg == p.seg && q.offset == p.offset
    {
      var i :| 0 <= i < |live| && live[i] == q;
      var j :| 0 <= j < |live| && live[j] == p;
      AllLiveAt(segs, p);
      AllLiveAt(segs, q);
      if q.seg == p.seg && q.offset == p.offset {
        PlaceOnce(segs[p.seg], p.seg, 0, p, q);
      }
    }
  }

  lemma {:induction false} PlaceOnce(rs: seq<Rec>, seg: nat, base: nat, p: Placed, q: Placed)
    requires p in LiveOf(rs, seg, base) && q in LiveOf(rs, seg, base) && p.offset == q.offset
    ensures p == q
    decreases |rs|
  {
    hide IsLive;
    var next := base + Size(rs[0]);
    LiveOfPlaces(rs[1..], seg, next);
    if p in LiveOf(rs[1..], seg, next) && q in LiveOf(rs[1..], seg, next) {
      PlaceOnce(rs[1..], seg, next, p, q);
    }
  }

  /** The disk stays in order if the segment is deleted exactly when nothing in it is live. */
  lemma FilesMarked(files: map<nat, seq<byte>>, segs: seq<seq<Rec>>, active: nat, seg: nat, rs: seq<Rec>)
    requires FilesOk(files, segs, active) && seg < SEGMENTS && segs[seg] != [] && rs != [] && LogOk(rs)
    ensures LiveOf(rs, seg, 0) != [] ==> FilesOk(files[seg := EncodeLog(rs)], segs[seg := rs], active)
    ensures LiveOf(rs, seg, 0) == [] ==> FilesOk(files - {seg}, segs[seg := []], active)
    ensures LiveOf(rs, seg, 0) == [] ==> AllLive(segs[seg := []]) == AllLive(segs[seg := rs])
  {
    hide LiveOf, EncodeLog;
    assert SegOk(files, segs[seg], seg);
    NoneLive(seg);
    if LiveOf(rs, seg, 0) == [] {
      AllLiveSame(segs[seg := rs], seg, []);
      assert segs[seg := rs][seg := []] == segs[seg := []];
    }
    forall j | 0 <= j < SEGMENTS && j != seg
      ensures SegOk(files[seg := EncodeLog(rs)], segs[j], j) && SegOk(files - {seg}, segs[j], j)
    {
      assert SegOk(files, segs[j], j);
    }
  }

  lemma LiveMarked(segs: seq<seq<Rec>>, live: seq<Placed>, nextId: nat, k: nat, flag: byte, segs2: seq<seq<Rec>>)
    requires LiveOk(segs, live, nextId) && k < |live|
    requires AllLive(segs2) == Marked(live, live[k].rec.id, flag)
    ensures LiveOk(segs2, Marked(live, live[k].rec.id, flag), nextId)
  {
    hide AllLive, HoldsEvent, Marked;
    MarkedAt(live, k, flag);
    var m := MarkedOne(live[k], live[k].rec.id, flag);
    var after := live[..k] + m + live[k + 1..];
    if IsLive(flag) {
      assert HoldsEvent(m[0].rec) by { SameEvent(live[k].rec, flag); }
      assert forall i :: 0 <= i < |live| ==> after[i].rec.id == live[i].rec.id && (i != k ==> after[i] == live[i]);
    } else {
      assert forall i :: 0 <= i < |after| ==> after[i] == live[if i < k then i else i + 1];
    }
  }

  lemma SameEvent(r: Rec, flag: byte)
    requires HoldsEvent(r)
    ensures HoldsEvent(r.(flag := flag))
  {
    hide Serializer.Decode;
  }

  // ----- Recovery -----

  /** The last segment that recovery scans. */
  function LastScanned(active: nat): nat {
    if active + 2 < SEGMENTS then active + 2 else SEGMENTS - 1
  }

  function Scanned(files: map<nat, seq<byte>>, k: nat): seq<Entry> {
    if k in files then Walk(files[k], k, 0) else []
  }

  /** The entries found in segments 1 to `k`, whatever the files hold. */
  function Recovered(files: map<nat, seq<byte>>, k: nat): seq<Entry> {
    if k == 0 then [] else Recovered(files, k - 1) + Scanned(files, k)
  }

  /** Recovery reads back exactly the live records, in append order. */
  lemma {:induction false} RecoverExact(files: map<nat, seq<byte>>, segs: seq<seq<Rec>>, active: nat, k: nat)
    requires FilesOk(files, segs, active) && k < SEGMENTS
    ensures Recovered(files, k) == EntriesOf(AllLive(segs[..k + 1]))
    decreases k
  {
    hide LiveOf, EntriesOf, Walk, EncodeLog;
    var upTo := segs[..k + 1];
    assert SegOk(files, segs[k], k);
    assert upTo[..k] == segs[..k];
    if k == 0 {
      NoneLive(0);
      assert AllLive(upTo) == AllLive(upTo[..0]) + LiveOf(segs[0], 0, 0);
      NoEntries();
    } else {
      RecoverExact(files, segs, active, k - 1);
      ScanEncoded(segs[k], k);
      EntriesConcat(AllLive(segs[..k]), LiveOf(segs[k], k, 0));
      assert Scanned(files, k) == EntriesOf(LiveOf(segs[k], k, 0)) by {
        NoneLive(k);
        NoEntries();
      }
    }
  }

  lemma NoEntries()
    ensures EntriesOf([]) == []
  {
  }

  /** Segments without records behind the scanned ones hide nothing. */
  lemma {:induction false} NothingBehind(segs: seq<seq<Rec>>, m: nat)
    requires m <= |segs| && forall k :: m <= k < |segs| ==> segs[k] == []
    ensures AllLive(segs) == AllLive(segs[..m])
    decreases |segs|
  {
    hide LiveOf;
    if m == |segs| {
      assert segs[..m] == segs;
    } else {
      var n := |segs| - 1;
      NothingBehind(segs[..n], m);
      assert segs[..n][..m] == segs[..m];
      NoneLive(n);
    }
  }

  lemma RecoverLive(files: map<nat, seq<byte>>, segs: seq<seq<Rec>>, active: nat)
    requires FilesOk(files, segs, active) && active <= SEGMENTS
    ensures Recovered(files, LastScanned(active)) == EntriesOf(AllLive(segs))
  {
    hide AllLive, Recovered, EntriesOf, SegOk;
    var last := LastScanned(active);
    RecoverExact(files, segs, active, last);
    NothingBehind(segs, last + 1);
  }

  /** Files numbered 256 and above are never read. */
  lemma {:induction false} BeyondIgnored(files: map<nat, seq<byte>>, k: nat, seg: nat, data: seq<byte>)
    requires k < SEGMENTS <= seg
    ensures Recovered(files[seg := data], k) == Recovered(files, k)
    decreases k
  {
    hide Walk;
    if k > 0 {
      BeyondIgnored(files, k - 1, seg, data);
    }
  }

  /**
   * Power lost while a record was being written: with only `cut` bytes of it
   * on the disk, recovery finds what was live before, plus the new record
   * exactly if it had been written completely.
   */
  lemma CrashDuringAppend(files: map<nat, seq<byte>>, segs: seq<seq<Rec>>, active: nat, k: nat, r: Rec, cut: nat)
    requires FilesOk(files, segs, active) && 0 < active <= k < SEGMENTS && k <= active + 1
    requires RecOk(r) && IsLive(r.flag) && cut <= Size(r)
    ensures var torn := files[k := EncodeLog(segs[k]) + EncodeRec(r)[..cut]];
      Recovered(torn, LastScanned(active))
      == EntriesOf(AllLive(segs)) + if cut == Size(r) then [EntryOf(Placed(r, k, LogSize(segs[k])))] else []
  {
    hide SegOk, AllLive, EncodeLog, EncodeRec, EntriesOf, EntryOf, Walk, Recovered, IsLive;
    NoLaterFiles(files, segs, active, k);
    var e := EntryOf(Placed(r, k, LogSize(segs[k])));
    var data := EncodeLog(segs[k]) + EncodeRec(r)[..cut];
    assert Walk(data, k, 0) == Scanned(files, k) + if cut == Size(r) then [e] else [] by {
      TailScanned(files, segs, active, k, r, cut);
    }
    RecoverExtended(files, k, data, LastScanned(active), if cut == Size(r) then [e] else []);
    RecoverLive(files, segs, active);
  }

  lemma NoLaterFiles(files: map<nat, seq<byte>>, segs: seq<seq<Rec>>, active: nat, k: nat)
    requires FilesOk(files, segs, active) && active <= k < SEGMENTS
    ensures forall j :: k < j < SEGMENTS ==> j !in files
    ensures LogOk(segs[k])
  {
    hide LiveOf, EncodeLog;
    forall j | k < j < SEGMENTS
      ensures j !in files
    {
      assert SegOk(files, segs[j], j);
    }
    assert SegOk(files, segs[k], k);
  }

  lemma TailScanned(files: map<nat, seq<byte>>, segs: seq<seq<Rec>>, active: nat, k: nat, r: Rec, cut: nat)
    requires FilesOk(files, segs, active) && k < SEGMENTS && LogOk(segs[k])
    requires RecOk(r) && IsLive(r.flag) && cut <= Size(r)
    ensures Walk(EncodeLog(segs[k]) + EncodeRec(r)[..cut], k, 0)
      == Scanned(files, k) + if cut == Size(r) then [EntryOf(Placed(r, k, LogSize(segs[k])))] else []
  {
    hide LiveOf, EntriesOf, Walk, EncodeLog, EncodeRec, EntryOf, IsLive, NextRec;
    var rs := segs[k];
    assert SegOk(files, rs, k);
    ScanEncoded(rs, k);
    assert Scanned(files, k) == EntriesOf(LiveOf(rs, k, 0)) by {
      NoneLive(k);
      NoEntries();
    }
    WalkAppend(rs, EncodeRec(r)[..cut], k, 0);
    if cut == Size(r) {
      assert EncodeRec(r)[..cut] == EncodeRec(r);
      WalkOne(r, k, LogSize(rs));
    } else {
      PartialRecord(r, EncodeRec(r)[..cut], []);
      NoRecord(EncodeRec(r)[..cut], k, LogSize(rs));
    }
  }

  lemma WalkOne(r: Rec, seg: nat, offset: nat)
    requires RecOk(r) && IsLive(r.flag)
    ensures Walk(EncodeRec(r), seg, offset) == [EntryOf(Placed(r, seg, offset))]
  {
    hide NextRec, RecHeader, Crc.Checksum, IsLive, Walk;
    var h := RecHeader(r.flag, r.id, |r.payload|, Crc.Checksum(r.payload));
    assert EncodeRec(r) == h + r.payload + [];
    WalkStep(r, r.payload, [], seg, offset);
    NothingLeft([]);
    NoRecord([], seg, offset + Size(r));
  }

  /** More entries at the end of the last existing file are more entries at the end of what is recovered. */
  lemma {:induction false} RecoverExtended(files: map<nat, seq<byte>>, k: nat, data: seq<byte>, last: nat, more: seq<Entry>)
    requires 0 < k <= last < SEGMENTS && forall j :: k < j < SEGMENTS ==> j !in files
    requires Walk(data, k, 0) == Scanned(files, k) + more
    ensures Recovered(files[k := data], last) == Recovered(files, last) + more
    decreases last
  {
    hide Walk;
    if last > k {
      RecoverExtended(files, k, data, last - 1, more);
    } else {
      EarlierSame(files, k, data, k - 1);
    }
  }

  lemma {:induction false} EarlierSame(files: map<nat, seq<byte>>, k: nat, data: seq<byte>, last: nat)
    requires last < k
    ensures Recovered(files[k := data], last) == Recovered(files, last)
    decreases last
  {
    hide Walk;
    if last > 0 {
      EarlierSame(files, k, data, last - 1);
    }
  }

  // ----- What else recovery does to the disk -----

  /** A segment with records but no live one. */
  predicate IsDead(files: map<nat, seq<byte>>, k: nat) {
    k in files && Walk(files[k], k, 0) == [] && WalkEnd(files[k], 0) > 0
  }

  /** The files after the dead ones among segments 1 to `k` were deleted. */
  function Reclaimed(files: map<nat, seq<byte>>, k: nat): map<nat, seq<byte>> {
    if k == 0 then files
    else if IsDead(files, k) then Reclaimed(files, k - 1) - {k}
    else Reclaimed(files, k - 1)
  }

  function ScannedBytes(files: map<nat, seq<byte>>, k: nat): nat {
    if k !in files || IsDead(files, k) then 0 else WalkEnd(files[k], 0)
  }

  lemma {:induction false} LaterKept(files: map<nat, seq<byte>>, k: nat, j: nat)
    requires k < j
    ensures j in Reclaimed(files, k) <==> j in files
    ensures j in files ==> Reclaimed(files, k)[j] == files[j]
    decreases k
  {
    hide IsDead;
    if k > 0 {
      LaterKept(files, k - 1, j);
    }
  }

  lemma NoneDead(files: map<nat, seq<byte>>, segs: seq<seq<Rec>>, active: nat, k: nat)
    requires FilesOk(files, segs, active) && k < SEGMENTS
    ensures !IsDead(files, k) && ScannedBytes(files, k) == LogSize(segs[k])
  {
    hide LiveOf, Walk, WalkEnd, EncodeLog;
    assert SegOk(files, segs[k], k);
    ScanEncoded(segs[k], k);
  }

  lemma {:induction false} NothingReclaimed(files: map<nat, seq<byte>>, segs: seq<seq<Rec>>, active: nat, k: nat)
    requires FilesOk(files, segs, active) && k < SEGMENTS
    ensures Reclaimed(files, k) == files
    decreases k
  {
    hide FilesOk, IsDead;
    if k > 0 {
      NothingReclaimed(files, segs, active, k - 1);
      NoneDead(files, segs, active, k);
    }
  }

  // ----- One flag rewritten, and everything that follows from it -----

  ghost predicate UsesSegment(index: seq<Option<Entry>>, seg: nat) {
    exists i :: 0 <= i < |index| && index[i].Some? && index[i].value.seg == seg
  }

  /** The index still refers to a segment exactly if a live record remains there. */
  lemma SegmentUse(index: seq<Option<Entry>>, live: seq<Placed>, segs: seq<seq<Rec>>, seg: nat)
    requires IndexOk(index, live) && live == AllLive(segs) && seg < |segs|
    ensures UsesSegment(index, seg) <==> LiveOf(segs[seg], seg, 0) != []
  {
    hide IndexOk, AllLive, LiveOf, EntryOf;
    if UsesSegment(index, seg) {
      var i :| 0 <= i < |index| && index[i].Some? && index[i].value.seg == seg;
      var e := index[i].value;
      assert Some(e) in index;
      IndexHas(index, live, e);
      var k :| 0 <= k < |live| && EntryOf(live[k]) == e;
      EntryPlace(live[k]);
      AllLiveAt(segs, live[k]);
    }
    if LiveOf(segs[seg], seg, 0) != [] {
      var p := LiveOf(segs[seg], seg, 0)[0];
      LiveOfPlaces(segs[seg], seg, 0);
      AllLiveAt(segs, p);
      var k :| 0 <= k < |live| && live[k] == p;
      IndexHas(index, live, EntryOf(p));
      EntryPlace(p);
      var i :| 0 <= i < |index| && index[i] == Some(EntryOf(p));
      assert index[i].value.seg == seg;
    }
  }

  lemma EntryPlace(p: Placed)
    ensures EntryOf(p) == Entry(p.rec.id, p.rec.flag, p.seg, p.offset, |p.rec.payload|)
  {
  }

  /** The slot that holds an entry of that id, and the live record it stands for. */
  lemma SlotRecord(index: seq<Option<Entry>>, live: seq<Placed>, i: nat) returns (k: nat)
    requires IndexOk(index, live) && i < |index| && index[i].Some?
    ensures k < |live| && EntryOf(live[k]) == index[i].value
  {
    hide IndexOk, EntryOf;
    assert Some(index[i].value) in index;
    IndexHas(index, live, index[i].value);
    k :| 0 <= k < |live| && EntryOf(live[k]) == index[i].value;
  }

  lemma NoSlot(index: seq<Option<Entry>>, live: seq<Placed>, id: u64, flag: byte)
    requires IndexOk(index, live)
    requires forall j :: 0 <= j < |index| ==> !(index[j].Some? && index[j].value.id == id)
    ensures !HasId(live, id) && Marked(live, id, flag) == live
  {
    hide IndexOk, EntryOf;
    forall p | p in live
      ensures p.rec.id != id
    {
      var k :| 0 <= k < |live| && live[k] == p;
      IndexHas(index, live, EntryOf(p));
      EntryPlace(p);
      assert Some(EntryOf(p)) in index;
    }
    MarkedAbsent(live, id, flag);
  }

  lemma BytesKept(segBytes: seq<nat>, segs: seq<seq<Rec>>, k: nat, rs: seq<Rec>)
    requires BytesOk(segBytes, segs) && k < SEGMENTS
    ensures LogSize(rs) == LogSize(segs[k]) ==> BytesOk(segBytes, segs[k := rs])
    ensures BytesOk(segBytes[k := 0], segs[k := []])
  {
    hide LogSize;
    assert LogSize([]) == 0 by { NoSize(); }
  }

  lemma NoSize()
    ensures LogSize([]) == 0
  {
  }

  /** The index slot of a record whose flag is rewritten. */
  lemma MarkedIndex(files: map<nat, seq<byte>>, segs: seq<seq<Rec>>, active: nat, live: seq<Placed>, nextId: nat,
                    index: seq<Option<Entry>>, i: nat, k: nat, flag: byte)
    requires FilesOk(files, segs, active) && LiveOk(segs, live, nextId) && IndexOk(index, live)
    requires i < |index| && k < |live| && index[i] == Some(EntryOf(live[k]))
    ensures live[k].seg < |segs|
    ensures var p := live[k];
      var rs := SetFlagAt(segs[p.seg], p.offset, flag);
      var slot := if IsLive(flag) then Some(EntryOf(p).(flag := flag)) else None;
      var after := Marked(live, p.rec.id, flag);
      && IndexOk(index[i := slot], after)
      && SumSize(after) == SumSize(live) - (if IsLive(flag) then 0 else Size(p.rec))
      && (UsesSegment(index[i := slot], p.seg) <==> LiveOf(rs, p.seg, 0) != [])
      && AllLive(segs[p.seg := rs]) == after
  {
    assert |segs| == SEGMENTS && |index| == MAX_QUEUE_RECORDS;
    hide FilesOk, LiveOk, IndexOk, AllLive, LiveOf, SumSize, Marked, IsLive, EntryOf, UsesSegment, SetFlagAt, UniqueIds;
    hide Rewritten, EncodeLog, LogSize;
    var p := live[k];
    FlagRewritten(files, segs, active, live, nextId, k, flag);
    var rs := SetFlagAt(segs[p.seg], p.offset, flag);
    var slot := if IsLive(flag) then Some(EntryOf(p).(flag := flag)) else None;
    UniqueLive(segs, live, nextId);
    IndexMark(index, live, i, k, flag);
    SegmentUse(index[i := slot], Marked(live, p.rec.id, flag), segs[p.seg := rs], p.seg);
  }

  /** The segment keeps a live record, or it is deleted; either way the disk stays in order. */
  lemma MarkedFiles(files: map<nat, seq<byte>>, segs: seq<seq<Rec>>, active: nat, live: seq<Placed>, nextId: nat,
                    segBytes: seq<nat>, k: nat, flag: byte)
    requires FilesOk(files, segs, active) && LiveOk(segs, live, nextId) && BytesOk(segBytes, segs) && k < |live|
    ensures var p := live[k];
      && p.seg < SEGMENTS && p.seg in files && p.offset + 4 < |files[p.seg]|
      && var rs := SetFlagAt(segs[p.seg], p.offset, flag);
      var after := Marked(live, p.rec.id, flag);
      var written := Rewritten(files, p.seg, p.offset, flag);
      && (LiveOf(rs, p.seg, 0) != []
          ==> FilesOk(written, segs[p.seg := rs], active) && LiveOk(segs[p.seg := rs], after, nextId)
              && BytesOk(segBytes, segs[p.seg := rs]))
      && (LiveOf(rs, p.seg, 0) == []
          ==> FilesOk(written - {p.seg}, segs[p.seg := []], active) && LiveOk(segs[p.seg := []], after, nextId)
              && BytesOk(segBytes[p.seg := 0], segs[p.seg := []]))
  {
    assert |segs| == SEGMENTS;
    hide FilesOk, LiveOk, BytesOk, AllLive, LiveOf, Marked, SetFlagAt, EncodeLog, LogSize, Rewritten;
    var p := live[k];
    FlagRewritten(files, segs, active, live, nextId, k, flag);
    var rs := SetFlagAt(segs[p.seg], p.offset, flag);
    WrittenOnce(files, p.seg, p.offset, flag);
    BytesKept(segBytes, segs, p.seg, rs);
    assert segs[p.seg] != [];
    FilesMarked(files, segs, active, p.seg, rs);
    if LiveOf(rs, p.seg, 0) == [] {
      LiveMarked(segs, live, nextId, k, flag, segs[p.seg := []]);
    } else {
      LiveMarked(segs, live, nextId, k, flag, segs[p.seg := rs]);
    }
  }

  lemma WrittenOnce(files: map<nat, seq<byte>>, seg: nat, offset: nat, flag: byte)
    requires seg in files && offset + 4 < |files[seg]|
    ensures Rewritten(files, seg, offset, flag) == files[seg := Rewritten(files, seg, offset, flag)[seg]]
    ensures Rewritten(files, seg, offset, flag) - {seg} == files - {seg}
  {
  }

  lemma UniqueLive(segs: seq<seq<Rec>>, live: seq<Placed>, nextId: nat)
    requires LiveOk(segs, live, nextId)
    ensures UniqueIds(live) && live == AllLive(segs)
  {
    hide AllLive, UniqueIds, HoldsEvent;
  }
}
