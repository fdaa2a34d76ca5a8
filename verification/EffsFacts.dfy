/** What the flash-backed queue's methods need to know of their state, one step at a time. */
module EffsFacts {
  import opened Bytes
  import opened GatewayTypes
  import opened EffsLog
  import opened EffsState
  import opened EffsDisk
  import Crc
  import Serializer

  lemma EmptyLog(segs: seq<seq<Rec>>)
    requires |segs| == SEGMENTS && forall k :: 0 <= k < SEGMENTS ==> segs[k] == []
    ensures FilesOk(map[], segs, 1) && LiveOk(segs, [], 1)
  {
    NothingBehind(segs, 0);
  }

  lemma EmptyBytes(segBytes: seq<nat>, segs: seq<seq<Rec>>)
    requires |segBytes| == |segs| == SEGMENTS
    requires forall k :: 0 <= k < SEGMENTS ==> segBytes[k] == 0 && segs[k] == []
    ensures BytesOk(segBytes, segs)
  {
  }

  lemma {:induction false} NoneBag(index: seq<Option<Entry>>)
    requires forall i :: 0 <= i < |index| ==> index[i] == None
    ensures multiset(index) == FreeSlots(|index|)
    decreases |index|
  {
    hide FreeSlots;
    if index == [] {
      NoFreeSlots();
    } else {
      NoneBag(index[1..]);
      ConsBag(index[0], index[1..]);
      assert index == [index[0]] + index[1..];
      OneMoreFree(|index| - 1);
    }
  }

  lemma EmptyIndex(index: seq<Option<Entry>>)
    requires |index| == MAX_QUEUE_RECORDS && forall i :: 0 <= i < |index| ==> index[i] == None
    ensures IndexOk(index, []) && SumSize([]) == 0
  {
    hide FreeSlots;
    NoneBag(index);
  }

  lemma FilesWider(files: map<nat, seq<byte>>, segs: seq<seq<Rec>>, a: nat, b: nat)
    requires FilesOk(files, segs, a) && a <= b
    ensures FilesOk(files, segs, b)
  {
    hide SegOk;
  }

  lemma FreeSlotKnown(index: seq<Option<Entry>>, live: seq<Placed>)
    requires IndexOk(index, live)
    ensures |live| <= |index| == MAX_QUEUE_RECORDS
    ensures |live| < MAX_QUEUE_RECORDS <==> exists i :: 0 <= i < |index| && index[i] == None
  {
    hide Bag;
    IndexHas(index, live, Entry(0, 0, 0, 0, 0));
  }

  lemma BudgetKnown(files: map<nat, seq<byte>>, segs: seq<seq<Rec>>, active: nat, live: seq<Placed>, nextId: nat, size: nat)
    requires FilesOk(files, segs, active) && LiveOk(segs, live, nextId) && |live| < MAX_QUEUE_RECORDS
    requires size <= REC_HEADER_SIZE + MAX_PAYLOAD
    ensures SumSize(live) + size <= BUDGET_BYTES
  {
    hide FilesOk, AllLive, SumSize, HoldsEvent;
    BudgetFits(files, segs, active, live, size);
  }

  lemma EncodedLength(ev: CapturedEvent)
    requires ValidEvent(ev)
    ensures 0 < |Serializer.Encode(ev)|
  {
    hide Serializer.Header, ValidEvent;
  }

  /** A segment has a file exactly if its recorded size is not zero. */
  lemma StoredBytes(files: map<nat, seq<byte>>, segs: seq<seq<Rec>>, active: nat, segBytes: seq<nat>, k: nat)
    requires FilesOk(files, segs, active) && BytesOk(segBytes, segs)
    ensures |segBytes| == |segs| == SEGMENTS
    ensures k < SEGMENTS ==> LogOk(segs[k]) && segBytes[k] == LogSize(segs[k])
    ensures k < SEGMENTS && segBytes[k] == 0 ==> EncodeLog(segs[k]) == []
    ensures k < SEGMENTS && segBytes[k] > 0 ==> k in files && files[k] == EncodeLog(segs[k])
  {
    hide LiveOf;
    if k < SEGMENTS {
      assert SegOk(files, segs[k], k);
      assert |EncodeLog(segs[k])| == segBytes[k];
    }
  }

  lemma RecImage(r: Rec)
    requires RecOk(r)
    ensures EncodeRec(r) == RecHeader(r.flag, r.id, |r.payload|, Crc.Checksum(r.payload)) + r.payload
    ensures [] + EncodeRec(r) == EncodeRec(r)
  {
  }

  lemma EventHeld(ev: CapturedEvent)
    requires ValidEvent(ev)
    ensures HoldsEvent(Rec(ev.eventId, PENDING, Serializer.Encode(ev)))
  {
    hide Serializer.Decode, Serializer.Encode;
    Serializer.DecodeEncode(ev);
  }

  lemma BytesAppend(segBytes: seq<nat>, segs: seq<seq<Rec>>, k: nat, r: Rec)
    requires BytesOk(segBytes, segs) && k < SEGMENTS && LogSize(segs[k] + [r]) == LogSize(segs[k]) + Size(r)
    ensures BytesOk(segBytes[k := segBytes[k] + Size(r)], segs[k := segs[k] + [r]])
  {
    hide LogSize, Size;
  }

  /** All that the state of a store needs after an append to segment `k`. */
  lemma Appended(files: map<nat, seq<byte>>, segs: seq<seq<Rec>>, k: nat, index: seq<Option<Entry>>, segBytes: seq<nat>,
                 live: seq<Placed>, nextId: nat, ev: CapturedEvent, idx: nat)
    requires FilesOk(files, segs, k) && LiveOk(segs, live, nextId) && 0 < k < SEGMENTS
    requires IndexOk(index, live) && BytesOk(segBytes, segs) && idx < |index| && index[idx] == None
    requires ValidEvent(ev) && ev.eventId < nextId && !HasId(live, ev.eventId)
    requires |Serializer.Encode(ev)| <= MAX_PAYLOAD && LogOk(segs[k])
    ensures var r := Rec(ev.eventId, PENDING, Serializer.Encode(ev));
      var p := Placed(r, k, segBytes[k]);
      && RecOk(r)
      && FilesOk(files[k := EncodeLog(segs[k]) + EncodeRec(r)], segs[k := segs[k] + [r]], k)
      && LiveOk(segs[k := segs[k] + [r]], live + [p], nextId)
      && IndexOk(index[idx := Some(EntryOf(p))], live + [p])
      && SumSize(live + [p]) == SumSize(live) + Size(r)
      && BytesOk(segBytes[k := segBytes[k] + Size(r)], segs[k := segs[k] + [r]])
  {
    hide FilesOk, AllLive, IndexOk, ValidEvent, SumSize, Serializer.Encode, HasId, EncodeLog, EncodeRec, HoldsEvent, EntryOf;
    EncodedLength(ev);
    EventHeld(ev);
    var r := Rec(ev.eventId, PENDING, Serializer.Encode(ev));
    FilesAppend(files, segs, k, k, r);
    LiveAppend(segs, live, nextId, k, r);
    IndexAppend(index, live, idx, Placed(r, k, segBytes[k]));
    BytesAppend(segBytes, segs, k, r);
  }

  /** What a power cut after the next refused rotation would leave is recovered all the same. */
  lemma BeyondRecovered(files: map<nat, seq<byte>>, segs: seq<seq<Rec>>, active: nat, live: seq<Placed>, nextId: nat, data: seq<byte>)
    requires FilesOk(files, segs, active) && active <= SEGMENTS && LiveOk(segs, live, nextId)
    ensures Recovered(files[SEGMENTS := data], LastScanned(SEGMENTS)) == EntriesOf(live)
  {
    hide FilesOk, AllLive, EntriesOf, Recovered, HoldsEvent;
    FilesWider(files, segs, active, SEGMENTS);
    RecoverLive(files, segs, SEGMENTS);
    BeyondIgnored(files, LastScanned(SEGMENTS), SEGMENTS, data);
  }

  lemma IndexSize(index: seq<Option<Entry>>, live: seq<Placed>)
    requires IndexOk(index, live)
    ensures |index| == MAX_QUEUE_RECORDS && |live| <= MAX_QUEUE_RECORDS
  {
    hide Bag;
  }

  lemma MarkedSizes(segBytes: seq<nat>, segs: seq<seq<Rec>>)
    requires BytesOk(segBytes, segs)
    ensures |segBytes| == |segs| == SEGMENTS
  {
  }

  lemma Present(live: seq<Placed>, k: nat)
    requires k < |live|
    ensures HasId(live, live[k].rec.id)
  {
    assert live[k] in live;
  }

  lemma StillUsed(index: seq<Option<Entry>>, i: nat, seg: nat)
    requires i < |index| && index[i].Some? && index[i].value.seg == seg
    ensures UsesSegment(index, seg)
  {
  }

  lemma RecordSlot(index: seq<Option<Entry>>, live: seq<Placed>, k: nat)
    requires IndexOk(index, live) && k < |live|
    ensures exists i :: 0 <= i < |index| && index[i] == Some(EntryOf(live[k]))
  {
    hide IndexOk, EntryOf;
    IndexHas(index, live, EntryOf(live[k]));
  }

  lemma LiveReadable(files: map<nat, seq<byte>>, segs: seq<seq<Rec>>, active: nat, live: seq<Placed>, nextId: nat, k: nat)
    requires FilesOk(files, segs, active) && LiveOk(segs, live, nextId) && k < |live|
    ensures var p := live[k];
      && p.seg in files && p.offset + Size(p.rec) <= |files[p.seg]|
      && files[p.seg][p.offset + REC_HEADER_SIZE..p.offset + Size(p.rec)] == p.rec.payload
      && Serializer.Decode(p.rec.payload).Some? && Serializer.Decode(p.rec.payload).value.eventId == p.rec.id
  {
    hide FilesOk, AllLive, Serializer.Decode;
    assert live[k] in live;
    LiveRecOk(files, segs, active, live[k]);
    assert HoldsEvent(live[k].rec);
  }

  /** What the scan does with the record at its cursor. */
  lemma WalkNext(s: seq<byte>, seg: nat, offset: nat, v: Peeked)
    requires NextRec(s) == Some(v)
    ensures var size := REC_HEADER_SIZE + v.len;
      && size <= |s|
      && WalkEnd(s, offset) == WalkEnd(s[size..], offset + size)
      && Walk(s, seg, offset)
         == (if v.intact && IsLive(v.flag) then [Entry(v.id, v.flag, seg, offset, v.len)] else [])
            + Walk(s[size..], seg, offset + size)
  {
    hide NextRec, IsLive;
  }

  /** The first free slot of a packed index is the one behind its entries. */
  lemma PackedFree(es: seq<Entry>, n: nat, idx: nat)
    requires |es| <= n && idx <= n
    requires idx < n ==> Packed(es, n)[idx] == None
    requires forall j :: 0 <= j < idx ==> Packed(es, n)[j] != None
    ensures idx == |es|
  {
    hide Packed;
    if idx < n {
      PackedAt(es, n, idx);
    }
    if |es| < idx {
      PackedAt(es, n, |es|);
    }
  }

  // ----- What recovery needs to know -----

  lemma PackedNone(index: seq<Option<Entry>>)
    requires |index| == MAX_QUEUE_RECORDS && forall i :: 0 <= i < |index| ==> index[i] == None
    ensures index == Packed([], MAX_QUEUE_RECORDS)
  {
    hide Packed;
    forall i | 0 <= i < MAX_QUEUE_RECORDS
      ensures index[i] == Packed([], MAX_QUEUE_RECORDS)[i]
    {
      PackedAt([], MAX_QUEUE_RECORDS, i);
    }
  }

  /** Reclaiming earlier segments does not change what a later one yields. */
  lemma LaterScanned(files: map<nat, seq<byte>>, k: nat, j: nat)
    requires k < j
    ensures var f := Reclaimed(files, k);
      && Scanned(f, j) == Scanned(files, j) && IsDead(f, j) == IsDead(files, j)
      && ScannedBytes(f, j) == ScannedBytes(files, j) && (j in f <==> j in files)
      && (j !in files ==> ScannedBytes(files, j) == 0)
  {
    hide Reclaimed, Walk, WalkEnd;
    LaterKept(files, k, j);
  }

  lemma {:induction false} RecoveredGrows(files: map<nat, seq<byte>>, k: nat, last: nat)
    requires k <= last
    ensures |Recovered(files, k)| <= |Recovered(files, last)|
    decreases last
  {
    hide Scanned;
    if k < last {
      RecoveredGrows(files, k, last - 1);
    }
  }

  lemma IdsBelow(segs: seq<seq<Rec>>, live: seq<Placed>, nextId: nat)
    requires LiveOk(segs, live, nextId)
    ensures forall k :: 0 <= k < |live| ==> live[k].rec.id < nextId
  {
    hide AllLive, HoldsEvent;
  }

  ghost predicate BytesScanned(files: map<nat, seq<byte>>, segBytes: seq<nat>, last: nat) {
    |segBytes| == SEGMENTS
    && forall k :: 0 <= k < SEGMENTS ==> segBytes[k] == if 0 < k <= last then ScannedBytes(files, k) else 0
  }

  /** The rebuilt RAM state fits the disk it was rebuilt from. */
  lemma RebuiltState(files: map<nat, seq<byte>>, segs: seq<seq<Rec>>, active: nat, live: seq<Placed>, nextId: nat,
                     index: seq<Option<Entry>>, segBytes: seq<nat>)
    requires FilesOk(files, segs, active) && 0 < active <= SEGMENTS && LiveOk(segs, live, nextId)
    requires |live| <= MAX_QUEUE_RECORDS && |Recovered(files, LastScanned(active))| <= MAX_QUEUE_RECORDS
    requires index == Packed(Recovered(files, LastScanned(active)), MAX_QUEUE_RECORDS) && |segBytes| == SEGMENTS
    requires BytesScanned(files, segBytes, LastScanned(active))
    ensures Recovered(files, LastScanned(active)) == EntriesOf(live)
    ensures IndexOk(index, live) && BytesOk(segBytes, segs) && SumSlots(index) == SumSize(live)
    ensures Reclaimed(files, LastScanned(active)) == files
  {
    hide Packed, Recovered, Reclaimed, ScannedBytes, LiveOk, EntriesOf, SumSlots, SumSize, Bag, FreeSlots, AllLive, SegOk, LogSize;
    var last := LastScanned(active);
    RecoverLive(files, segs, active);
    UniqueLive(segs, live, nextId);
    PackedBag(live, MAX_QUEUE_RECORDS);
    PackedSum(live, MAX_QUEUE_RECORDS);
    NothingReclaimed(files, segs, active, last);
    forall k | 0 <= k < SEGMENTS
      ensures segBytes[k] == LogSize(segs[k])
    {
      NoneDead(files, segs, active, k);
      NoSize();
    }
  }
}
