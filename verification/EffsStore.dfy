/**
 * The flash-backed event queue: a segmented append log with an index in RAM.
 *
 * `live` is the reference: the records that are pending or quarantined, in
 * append order. Every operation is specified by what it does to that list.
 */
module EffsStore {
  import opened Bytes
  import opened GatewayTypes
  import opened EffsLog
  import opened EffsState
  import opened EffsDisk
  import opened EffsFacts
  import Crc
  import Serializer

  function MetaOrDefault(meta: Option<Meta>): Meta {
    match meta
    case None => Meta(1, 1, 0)
    case Some(m) => Meta(if m.nextId == 0 then 1 else m.nextId, if m.active == 0 then 1 else m.active, m.bytesUsed)
  }

  /** The pending record's event, under the record's own id. */
  ghost predicate Offers(r: Rec, ev: Option<CapturedEvent>) {
    r.flag == PENDING && Serializer.Decode(r.payload) == ev && ev.Some? && ev.value.eventId == r.id
  }

  /** The live records fill the first slots of the index, in append order. */
  ghost predicate FreshlyIndexed(index: seq<Option<Entry>>, live: seq<Placed>) {
    |live| <= MAX_QUEUE_RECORDS && index == Packed(EntriesOf(live), MAX_QUEUE_RECORDS)
  }

  class Store {
    // On the disk.
    var files: map<nat, seq<byte>>
    var meta: Option<Meta>
    // In RAM.
    var index: seq<Option<Entry>>
    var segBytes: seq<nat>
    var activeSeg: nat
    var bytesUsed: nat
    var nextId: nat
    var fullCount: nat
    // The records behind the files, and the live ones among them.
    ghost var segs: seq<seq<Rec>>
    ghost var live: seq<Placed>

    /** What survives a power cut. */
    ghost predicate DiskValid()
      reads this
    {
      && meta.Some? && meta.value.nextId > 0 && 0 < meta.value.active <= SEGMENTS
      && FilesOk(files, segs, meta.value.active)
      && LiveOk(segs, live, meta.value.nextId)
      && |live| <= MAX_QUEUE_RECORDS
    }

    ghost predicate Valid()
      reads this
    {
      && DiskValid()
      && (meta.value.active == activeSeg || (meta.value.active == SEGMENTS - 1 && activeSeg == SEGMENTS))
      && meta.value.nextId == nextId
      && IndexOk(index, live)
      && BytesOk(segBytes, segs)
      && bytesUsed == SumSize(live)
    }

    /** The active segment has passed the last one that is scanned, and META says so. */
    ghost predicate Stranded()
      reads this
    {
      && activeSeg == SEGMENTS && meta.Some? && meta.value.active == SEGMENTS
      && |index| == MAX_QUEUE_RECORDS && |segBytes| == SEGMENTS && 0 < nextId < 0x1_0000_0000_0000_0000
    }

    /** Nothing but the live records is indexed, accounted for and below the next id. */
    ghost predicate Exact()
      reads this
    {
      && FreshlyIndexed(index, live)
      && bytesUsed == SumSize(live)
      && forall k :: 0 <= k < |live| ==> live[k].rec.id < nextId
    }

    /** An empty disk, and the RAM after a first recovery. */
    constructor ()
      ensures Valid() && live == [] && files == map[] && activeSeg == 1 && nextId == 1
      ensures forall k :: 0 <= k < SEGMENTS ==> segBytes[k] == 0
    {
      hide FilesOk, LiveOk, IndexOk, BytesOk, SumSize;
      files, meta := map[], Some(Meta(1, 1, 0));
      index, segBytes := seq(MAX_QUEUE_RECORDS, _ => None), seq(SEGMENTS, _ => 0);
      activeSeg, bytesUsed, nextId, fullCount := 1, 0, 1, 0;
      segs, live := seq(SEGMENTS, _ => []), [];
      new;
      EmptyLog(segs);
      EmptyIndex(index);
      EmptyBytes(segBytes, segs);
    }

    method WriteMeta()
      modifies this`meta
      requires nextId < 0x1_0000_0000_0000_0000
      ensures meta == Some(Meta(nextId, if activeSeg == 0 then 1 else activeSeg, bytesUsed))
    {
      meta := Some(Meta(nextId, if activeSeg == 0 then 1 else activeSeg, bytesUsed));
    }

    method AllocateEventId() returns (id: u64)
      requires (Valid() || Stranded()) && nextId + 1 < 0x1_0000_0000_0000_0000
      modifies this`nextId, this`meta
      ensures id == old(nextId) && nextId == id + 1
      ensures old(Valid()) ==> Valid() && !HasId(live, id)
      ensures old(Stranded()) ==> Stranded()
    {
      hide FilesOk, AllLive, IndexOk, BytesOk, HoldsEvent, SumSize;
      id := nextId;
      nextId := nextId + 1;
      WriteMeta();
      assert old(Valid()) ==> forall p :: p in live ==> p.rec.id != id;
      if old(Valid()) && meta.value.active != old(meta.value.active) {
        FilesWider(files, segs, SEGMENTS - 1, SEGMENTS);
      }
    }

    method FindFreeIndex() returns (idx: nat)
      requires |index| == MAX_QUEUE_RECORDS
      ensures idx <= MAX_QUEUE_RECORDS && (idx < MAX_QUEUE_RECORDS ==> index[idx] == None)
      ensures forall j :: 0 <= j < idx ==> index[j] != None
    {
      idx := 0;
      while idx < MAX_QUEUE_RECORDS && index[idx] != None
        invariant idx <= MAX_QUEUE_RECORDS
        invariant forall j :: 0 <= j < idx ==> index[j] != None
      {
        idx := idx + 1;
      }
    }

    method FindIndexByEventId(id: u64) returns (idx: nat)
      requires |index| == MAX_QUEUE_RECORDS
      ensures idx <= MAX_QUEUE_RECORDS
      ensures idx < MAX_QUEUE_RECORDS ==> index[idx].Some? && index[idx].value.id == id
      ensures forall j :: 0 <= j < idx ==> !(index[j].Some? && index[j].value.id == id)
    {
      idx := 0;
      while idx < MAX_QUEUE_RECORDS && !(index[idx].Some? && index[idx].value.id == id)
        invariant idx <= MAX_QUEUE_RECORDS
        invariant forall j :: 0 <= j < idx ==> !(index[j].Some? && index[j].value.id == id)
      {
        idx := idx + 1;
      }
    }

    /**
     * EffsAppendLocked. Accepted, the event becomes the last live record -
     * unless an earlier refusal has pushed the active segment to 256: then it
     * is written to a file that recovery never reads, and takes the place of
     * whatever that file held. `sound` says which of the two it is.
     */
    method Append(ev: CapturedEvent, ghost sound: bool) returns (ok: bool)
      requires if sound then Valid() else Stranded()
      requires ValidEvent(ev) && (sound ==> ev.eventId < nextId < 0x1_0000_0000_0000_0000 && !HasId(live, ev.eventId))
      modifies this`files, this`meta, this`activeSeg, this`bytesUsed, this`fullCount, this`segs, this`live, this`index, this`segBytes
      ensures sound
        ==> var n := |Serializer.Encode(ev)|;
            var over := old(activeSeg) < 256 && old(segBytes)[old(activeSeg)] + 24 + n > 65536;
            && ok == (|old(live)| < 64 && n <= 1024 && !(over && old(activeSeg) == 255))
            && (ok ==> activeSeg == old(activeSeg) + if over then 1 else 0)
      ensures sound && !ok ==> Valid() && live == old(live) && files == old(files) && segs == old(segs)
      ensures sound && !ok && |live| < MAX_QUEUE_RECORDS && |Serializer.Encode(ev)| <= MAX_PAYLOAD ==> activeSeg >= SEGMENTS
      ensures sound && ok && old(activeSeg) < SEGMENTS ==> Valid() && activeSeg < SEGMENTS
      ensures sound && ok && old(activeSeg) < SEGMENTS
        ==> live == old(live) + [Placed(Rec(ev.eventId, PENDING, Serializer.Encode(ev)), activeSeg, old(segBytes)[activeSeg])]
      ensures sound && ok && old(activeSeg) < SEGMENTS
        ==> segBytes == old(segBytes)[activeSeg := old(segBytes)[activeSeg] + REC_HEADER_SIZE + |Serializer.Encode(ev)|]
      ensures sound && ok && old(activeSeg) == SEGMENTS
        ==> Stranded() && Recovered(files, LastScanned(SEGMENTS)) == EntriesOf(old(live))
      ensures old(activeSeg) <= activeSeg
      ensures ok && old(activeSeg) == SEGMENTS
        ==> |Serializer.Encode(ev)| <= MAX_PAYLOAD && live == old(live)
            && files == old(files)[SEGMENTS := EncodeRec(Rec(ev.eventId, PENDING, Serializer.Encode(ev)))]
      ensures !sound
        ==> Stranded() && live == old(live) && (!ok ==> files == old(files))
            && (ok <==> (exists i :: 0 <= i < MAX_QUEUE_RECORDS && old(index)[i] == None) && |Serializer.Encode(ev)| <= MAX_PAYLOAD
                        && old(bytesUsed) + 24 + |Serializer.Encode(ev)| <= 524288)
    {
      hide FilesOk, AllLive, IndexOk, BytesOk, LiveOk, SumSize, ValidEvent, Serializer.Encode, HasId, RecHeader;
      hide EntriesOf, Recovered, EncodeLog, EncodeRec, IsLive, Crc.Checksum;
      if sound {
        FreeSlotKnown(index, live);
      }
      var idx := FindFreeIndex();
      if idx == MAX_QUEUE_RECORDS {
        fullCount := fullCount + 1;
        return false;
      }
      var fits, blob, crc := Serialize(ev);
      if !fits {
        return false;
      }
      var recSize := REC_HEADER_SIZE + |blob|;
      if sound {
        BudgetKnown(files, segs, meta.value.active, live, meta.value.nextId, recSize);
        StoredBytes(files, segs, meta.value.active, segBytes, 0);
        FilesWider(files, segs, meta.value.active, activeSeg);
      }
      if bytesUsed + recSize > BUDGET_BYTES {
        fullCount := fullCount + 1;
        return false;
      }
      if activeSeg < SEGMENTS && segBytes[activeSeg] + recSize > SEGMENT_BYTES {
        FilesWider(files, segs, activeSeg, activeSeg + 1);
        activeSeg := activeSeg + 1;
        if activeSeg >= SEGMENTS {
          fullCount := fullCount + 1;
          return false;
        }
      }
      AddRecord(ev, idx, blob, crc, sound);
      ok := true;
    }

    method Serialize(ev: CapturedEvent) returns (ok: bool, blob: seq<byte>, crc: u32)
      requires ValidEvent(ev)
      ensures ok <==> |Serializer.Encode(ev)| <= MAX_PAYLOAD
      ensures ok ==> blob == Serializer.Encode(ev) && crc == Crc.Checksum(blob)
    {
      hide ValidEvent, Serializer.Encode;
      var buf := new byte[MAX_SERIALIZED_EVENT](_ => 0);
      var len: nat;
      ok, len, crc := Serializer.SerializeEvent(ev, buf);
      blob := buf[..len];
    }

    /** The record goes to the end of the active segment's file, which is created if it is empty so far. */
    method WriteRecord(id: u64, idx: nat, payload: seq<byte>, crc: u32)
      requires |segBytes| == SEGMENTS && 0 < |payload| <= MAX_PAYLOAD && idx < |index|
      requires 0 < activeSeg && nextId < 0x1_0000_0000_0000_0000
      requires activeSeg < SEGMENTS && segBytes[activeSeg] > 0 ==> activeSeg in files
      modifies this`files, this`meta, this`bytesUsed, this`index, this`segBytes
      ensures var offset := if activeSeg < SEGMENTS then old(segBytes)[activeSeg] else 0;
        && files == old(files)[activeSeg := (if offset == 0 then [] else old(files)[activeSeg])
                                            + (RecHeader(PENDING, id, |payload|, crc) + payload)]
        && index == old(index)[idx := Some(Entry(id, PENDING, activeSeg, offset, |payload|))]
        && segBytes == if activeSeg < SEGMENTS
                       then old(segBytes)[activeSeg := old(segBytes)[activeSeg] + REC_HEADER_SIZE + |payload|]
                       else old(segBytes)
      ensures bytesUsed == old(bytesUsed) + REC_HEADER_SIZE + |payload|
      ensures meta == Some(Meta(nextId, activeSeg, bytesUsed))
    {
      hide RecHeader;
      var recSize := REC_HEADER_SIZE + |payload|;
      var fileOffset := if activeSeg < SEGMENTS then segBytes[activeSeg] else 0;
      var start := if fileOffset == 0 then [] else files[activeSeg];
      files := files[activeSeg := start + (RecHeader(PENDING, id, |payload|, crc) + payload)];
      if activeSeg < SEGMENTS {
        var size: nat := fileOffset + recSize;
        segBytes := segBytes[activeSeg := size];
      }
      bytesUsed := bytesUsed + recSize;
      index := index[idx := Some(Entry(id, PENDING, activeSeg, fileOffset, |payload|))];
      WriteMeta();
    }

    /** In order but for the record that is about to be written. */
    ghost predicate Ready()
      reads this
    {
      && FilesOk(files, segs, activeSeg) && LiveOk(segs, live, nextId) && 0 < activeSeg <= SEGMENTS
      && IndexOk(index, live) && BytesOk(segBytes, segs) && bytesUsed == SumSize(live)
    }

    method AddRecord(ev: CapturedEvent, idx: nat, payload: seq<byte>, crc: u32, ghost sound: bool)
      requires if sound then Ready() else Stranded()
      requires sound ==> |live| < MAX_QUEUE_RECORDS && ev.eventId < nextId < 0x1_0000_0000_0000_0000 && !HasId(live, ev.eventId)
      requires idx < |index| && index[idx] == None && ValidEvent(ev)
      requires payload == Serializer.Encode(ev) && |payload| <= MAX_PAYLOAD && crc == Crc.Checksum(payload)
      modifies this`files, this`meta, this`bytesUsed, this`segs, this`live, this`index, this`segBytes
      ensures sound && activeSeg < SEGMENTS
        ==> Valid() && live == old(live) + [Placed(Rec(ev.eventId, PENDING, payload), activeSeg, old(segBytes)[activeSeg])]
            && segBytes == old(segBytes)[activeSeg := old(segBytes)[activeSeg] + REC_HEADER_SIZE + |payload|]
      ensures sound && activeSeg == SEGMENTS ==> Recovered(files, LastScanned(SEGMENTS)) == EntriesOf(old(live))
      ensures activeSeg == SEGMENTS
        ==> Stranded() && live == old(live) && files == old(files)[SEGMENTS := EncodeRec(Rec(ev.eventId, PENDING, payload))]
    {
      hide FilesOk, AllLive, IndexOk, BytesOk, LiveOk, SumSize, ValidEvent, Serializer.Encode, HasId, RecHeader;
      hide EntriesOf, Recovered, HoldsEvent, IsLive, EncodeRec, EncodeLog, Crc.Checksum;
      EncodedLength(ev);
      ghost var r := Rec(ev.eventId, PENDING, payload);
      RecImage(r);
      if sound {
        StoredBytes(files, segs, activeSeg, segBytes, activeSeg);
        FreeSlotKnown(index, live);
        if activeSeg < SEGMENTS {
          Appended(files, segs, activeSeg, index, segBytes, live, nextId, ev, idx);
          ghost var p := Placed(r, activeSeg, segBytes[activeSeg]);
          segs, live := segs[activeSeg := segs[activeSeg] + [r]], live + [p];
          assert Entry(ev.eventId, PENDING, activeSeg, segBytes[activeSeg], |payload|) == EntryOf(p);
        } else {
          BeyondRecovered(files, segs, activeSeg, live, nextId, EncodeRec(r));
        }
      }
      WriteRecord(ev.eventId, idx, payload, crc);
    }

    /** RewriteFlagsLocked */
    method RewriteFlags(seg: nat, offset: nat, flag: byte)
      requires seg in files && offset + 4 < |files[seg]|
      modifies this`files
      ensures files == Rewritten(old(files), seg, offset, flag)
    {
      var data: seq<byte> := files[seg][offset + 4 := flag];
      files := files[seg := data];
    }

    /** MaybeDeleteSegmentLocked */
    method MaybeDeleteSegment(seg: nat)
      requires |segBytes| == SEGMENTS
      modifies this`files, this`segBytes
      ensures UsesSegment(index, seg) ==> files == old(files) && segBytes == old(segBytes)
      ensures !UsesSegment(index, seg) ==> files == old(files) - {seg}
      ensures !UsesSegment(index, seg) && seg < SEGMENTS ==> segBytes == old(segBytes)[seg := 0]
    {
      for i := 0 to |index|
        invariant forall j :: 0 <= j < i ==> !(index[j].Some? && index[j].value.seg == seg)
      {
        if index[i].Some? && index[i].value.seg == seg {
          return;
        }
      }
      files := files - {seg};
      if seg < SEGMENTS {
        segBytes := segBytes[seg := 0];
      }
    }

    /** EffsMarkCommittedLocked */
    method MarkCommitted(id: u64) returns (ok: bool)
      requires Valid() && nextId < 0x1_0000_0000_0000_0000
      modifies this`files, this`meta, this`bytesUsed, this`segs, this`live, this`index, this`segBytes
      ensures Valid() && ok == HasId(old(live), id) && live == Marked(old(live), id, 1)
      ensures |segBytes| == |old(segBytes)| == SEGMENTS
      ensures forall seg :: 0 <= seg < SEGMENTS ==> segBytes[seg] == old(segBytes)[seg] || (segBytes[seg] == 0 && !UsesSegment(index, seg))
    {
      hide FilesOk, LiveOk, IndexOk, BytesOk, AllLive, LiveOf, SumSize, Marked, SetFlagAt, HasId, UsesSegment, Rewritten;
      IndexSize(index, live);
      MarkedSizes(segBytes, segs);
      var idx := FindIndexByEventId(id);
      if idx == MAX_QUEUE_RECORDS {
        NoSlot(index, live, id, COMMITTED);
        return false;
      }
      var e := index[idx].value;
      ghost var k := SlotRecord(index, live, idx);
      ghost var p := live[k];
      EntryPlace(p);
      Present(live, k);
      MarkedIndex(files, segs, meta.value.active, live, nextId, index, idx, k, COMMITTED);
      MarkedFiles(files, segs, meta.value.active, live, nextId, segBytes, k, COMMITTED);
      var recSize := REC_HEADER_SIZE + e.len;
      RewriteFlags(e.seg, e.offset, COMMITTED);
      index := index[idx := None];
      if bytesUsed < recSize {
        assert false;
      }
      bytesUsed := bytesUsed - recSize;
      MaybeDeleteSegment(e.seg);
      ghost var rs := SetFlagAt(segs[p.seg], p.offset, COMMITTED);
      segs := segs[p.seg := if UsesSegment(index, p.seg) then rs else []];
      live := Marked(live, id, COMMITTED);
      IndexSize(index, live);
      if meta.value.active != activeSeg {
        FilesWider(files, segs, meta.value.active, activeSeg);
      }
      WriteMeta();
      ok := true;
    }

    /** EffsQuarantineLocked */
    method Quarantine(id: u64) returns (ok: bool)
      requires Valid()
      modifies this`files, this`segs, this`live, this`index
      ensures Valid() && ok == HasId(old(live), id) && live == Marked(old(live), id, 2)
    {
      hide FilesOk, LiveOk, IndexOk, BytesOk, AllLive, LiveOf, SumSize, Marked, SetFlagAt, HasId, UsesSegment, Rewritten;
      IndexSize(index, live);
      var idx := FindIndexByEventId(id);
      if idx == MAX_QUEUE_RECORDS {
        NoSlot(index, live, id, QUARANTINED);
        return false;
      }
      var e := index[idx].value;
      ghost var k := SlotRecord(index, live, idx);
      ghost var p := live[k];
      EntryPlace(p);
      Present(live, k);
      MarkedIndex(files, segs, meta.value.active, live, nextId, index, idx, k, QUARANTINED);
      MarkedFiles(files, segs, meta.value.active, live, nextId, segBytes, k, QUARANTINED);
      index := index[idx := Some(e.(flag := QUARANTINED))];
      StillUsed(index, idx, p.seg);
      RewriteFlags(e.seg, e.offset, QUARANTINED);
      segs := segs[p.seg := SetFlagAt(segs[p.seg], p.offset, QUARANTINED)];
      live := Marked(live, id, QUARANTINED);
      IndexSize(index, live);
      ok := true;
    }

    /**
     * EffsPeekLocked: the event of the first pending slot. In a valid store the
     * file, the record and the event are always there to be read.
     */
    method PeekPending() returns (ev: Option<CapturedEvent>, slot: nat)
      requires Valid()
      ensures ev == None <==> forall k :: 0 <= k < |live| ==> live[k].rec.flag != PENDING
      ensures ev.Some? ==> slot < |index| && index[slot].Some?
      ensures ev.Some? ==> forall j :: 0 <= j < slot && index[j].Some? ==> index[j].value.flag != PENDING
      ensures ev.Some? ==> exists k :: 0 <= k < |live| && EntryOf(live[k]) == index[slot].value && Offers(live[k].rec, ev)
    {
      hide FilesOk, LiveOk, BytesOk, IndexOk, SumSize, Serializer.Decode, EntryOf;
      IndexSize(index, live);
      ev, slot := None, 0;
      for i := 0 to MAX_QUEUE_RECORDS
        invariant ev == None
        invariant forall j :: 0 <= j < i ==> !(index[j].Some? && index[j].value.flag == PENDING)
      {
        if index[i].Some? && index[i].value.flag == PENDING {
          var e := index[i].value;
          ghost var k := SlotRecord(index, live, i);
          EntryPlace(live[k]);
          LiveReadable(files, segs, meta.value.active, live, nextId, k);
          var payload := files[e.seg][e.offset + REC_HEADER_SIZE..e.offset + REC_HEADER_SIZE + e.len];
          ev, slot := Serializer.Decode(payload), i;
          return;
        }
      }
      forall k | 0 <= k < |live|
        ensures live[k].rec.flag != PENDING
      {
        RecordSlot(index, live, k);
        EntryPlace(live[k]);
      }
    }

    // ----- Recovery -----

    /** ScanSegmentLocked, on whatever the file holds: false if the index is too small. */
    method ScanSegment(seg: nat, ghost found: seq<Entry>) returns (ok: bool)
      requires 0 < seg < SEGMENTS && |segBytes| == SEGMENTS
      requires |found| <= MAX_QUEUE_RECORDS && index == Packed(found, MAX_QUEUE_RECORDS)
      modifies this`files, this`index, this`segBytes
      ensures |index| == MAX_QUEUE_RECORDS
      ensures ok <==> |found| + |Scanned(old(files), seg)| <= MAX_QUEUE_RECORDS
      ensures ok ==> index == Packed(found + Scanned(old(files), seg), MAX_QUEUE_RECORDS)
      ensures ok && seg in old(files) ==> segBytes == old(segBytes)[seg := ScannedBytes(old(files), seg)]
      ensures ok && seg !in old(files) ==> segBytes == old(segBytes)
      ensures ok ==> files == if IsDead(old(files), seg) then old(files) - {seg} else old(files)
    {
      hide NextRec, Packed, Walk, WalkEnd, IsLive;
      if seg !in files {
        assert found + Scanned(files, seg) == found;
        return true;
      }
      var file := files[seg];
      ghost var all := Walk(file, seg, 0);
      ghost var seen: seq<Entry> := [];
      var rest, offset, anyLive := file, 0, false;
      var next := NextRec(rest);
      assert found + seen == found;
      while next.Some?
        invariant files == old(files) && segBytes == old(segBytes)
        invariant next == NextRec(rest) && 0 <= offset
        invariant all == seen + Walk(rest, seg, offset) && WalkEnd(file, 0) == WalkEnd(rest, offset)
        invariant |found + seen| <= MAX_QUEUE_RECORDS && index == Packed(found + seen, MAX_QUEUE_RECORDS)
        invariant anyLive <==> seen != []
        decreases |rest|
      {
        var v := next.value;
        var recSize := REC_HEADER_SIZE + v.len;
        WalkNext(rest, seg, offset, v);
        if v.intact && IsLive(v.flag) {
          var e := Entry(v.id, v.flag, seg, offset, v.len);
          var idx := FindFreeIndex();
          PackedFree(found + seen, MAX_QUEUE_RECORDS, idx);
          if idx == MAX_QUEUE_RECORDS {
            return false;
          }
          PackedAppend(found + seen, MAX_QUEUE_RECORDS, e);
          index := index[idx := Some(e)];
          Assoc(seen, [e], Walk(rest[recSize..], seg, offset + recSize));
          assert found + (seen + [e]) == (found + seen) + [e];
          seen := seen + [e];
          anyLive := true;
        }
        rest, offset := rest[recSize..], offset + recSize;
        next := NextRec(rest);
      }
      NoRecord(rest, seg, offset);
      assert all == seen;
      segBytes := segBytes[seg := offset];
      if !anyLive && offset > 0 {
        files := files - {seg};
        segBytes := segBytes[seg := 0];
      }
      ok := true;
    }

    /**
     * RecoverEffsLocked: whatever RAM held before, and whatever the disk holds,
     * the index is rebuilt from the files alone. From the disk of a valid store
     * it is rebuilt exactly: every live record, in append order.
     */
    method Recover() returns (ok: bool)
      modifies this`files, this`meta, this`index, this`segBytes, this`activeSeg, this`bytesUsed, this`nextId
      ensures var m := MetaOrDefault(old(meta));
        && ok == (|Recovered(old(files), LastScanned(m.active))| <= MAX_QUEUE_RECORDS)
        && (ok ==> index == Packed(Recovered(old(files), LastScanned(m.active)), MAX_QUEUE_RECORDS)
                   && files == Reclaimed(old(files), LastScanned(m.active))
                   && nextId == m.nextId && activeSeg == m.active && bytesUsed == SumSlots(index))
      ensures ok ==> nextId == (if old(meta).Some? && old(meta).value.nextId != 0 then old(meta).value.nextId else 1)
      ensures ok ==> activeSeg == (if old(meta).Some? && old(meta).value.active != 0 then old(meta).value.active else 1)
      ensures old(DiskValid()) ==> ok && Valid() && files == old(files) && Exact()
    {
      hide Packed, Recovered, Reclaimed, ScannedBytes, Scanned, FilesOk, LiveOk, BytesOk, IndexOk, SumSlots, SumSize, EntriesOf, IsDead;
      ghost var disk := files;
      var m := MetaOrDefault(meta);
      nextId, activeSeg := m.nextId, m.active;
      var last := LastScanned(activeSeg);
      ok := ScanSegments(last);
      if !ok {
        if old(DiskValid()) {
          RecoverLive(disk, segs, m.active);
          UniqueLive(segs, live, m.nextId);
        }
        return;
      }
      bytesUsed := SumIndex();
      WriteMeta();
      if old(DiskValid()) {
        RebuiltState(disk, segs, m.active, live, m.nextId, index, segBytes);
        IdsBelow(segs, live, m.nextId);
      }
    }

    method ScanSegments(last: nat) returns (ok: bool)
      requires 0 < last < SEGMENTS
      modifies this`files, this`index, this`segBytes
      ensures ok == (|Recovered(old(files), last)| <= MAX_QUEUE_RECORDS)
      ensures ok ==> index == Packed(Recovered(old(files), last), MAX_QUEUE_RECORDS) && files == Reclaimed(old(files), last)
      ensures ok ==> BytesScanned(old(files), segBytes, last)
    {
      hide Packed, ScannedBytes, Scanned, IsDead;
      index, segBytes := seq(MAX_QUEUE_RECORDS, _ => None), seq(SEGMENTS, _ => 0);
      ghost var disk := files;
      PackedNone(index);
      var seg := 1;
      while seg <= last
        invariant 1 <= seg <= last + 1 && |index| == MAX_QUEUE_RECORDS && |segBytes| == SEGMENTS
        invariant |Recovered(disk, seg - 1)| <= MAX_QUEUE_RECORDS
        invariant index == Packed(Recovered(disk, seg - 1), MAX_QUEUE_RECORDS)
        invariant files == Reclaimed(disk, seg - 1)
        invariant forall k :: 0 <= k < SEGMENTS ==> segBytes[k] == if 0 < k < seg then ScannedBytes(disk, k) else 0
      {
        LaterScanned(disk, seg - 1, seg);
        var fits := ScanSegment(seg, Recovered(disk, seg - 1));
        if !fits {
          RecoveredGrows(disk, seg, last);
          return false;
        }
        seg := seg + 1;
      }
      ok := true;
    }

    method SumIndex() returns (bytes: nat)
      ensures bytes == SumSlots(index)
    {
      bytes := 0;
      for i := 0 to |index|
        invariant bytes == SumSlots(index[..i])
      {
        assert index[..i + 1][..i] == index[..i];
        if index[i].Some? {
          bytes := bytes + REC_HEADER_SIZE + index[i].value.len;
        }
      }
      assert index[..|index|] == index;
    }
  }

  // ----- Whole runs -----

  /** What the gateway asks of its queue; a captured event gets the next id. */
  datatype Request = Keep(ev: CapturedEvent) | Commit(id: u64) | SetAside(id: u64)

  /** The reference: the live records in append order, and the next id. */
  datatype Reference = Reference(recs: seq<Rec>, nextId: nat)

  function RecsOf(ps: seq<Placed>): seq<Rec> {
    if ps == [] then [] else [ps[0].rec] + RecsOf(ps[1..])
  }

  function MarkedRecs(rs: seq<Rec>, id: u64, flag: byte): seq<Rec> {
    if rs == [] then []
    else
      (if rs[0].id != id then [rs[0]] else if IsLive(flag) then [rs[0].(flag := flag)] else [])
      + MarkedRecs(rs[1..], id, flag)
  }

  ghost function StepReference(r: Reference, request: Request, accepted: bool): Reference
    requires r.nextId < 0x1_0000_0000_0000_0000
    requires request.Keep? ==> ValidEvent(request.ev)
  {
    match request
    case Keep(ev) =>
      var rec := Rec(r.nextId, PENDING, Serializer.Encode(ev.(eventId := r.nextId)));
      Reference(if accepted then r.recs + [rec] else r.recs, r.nextId + 1)
    case Commit(id) => r.(recs := MarkedRecs(r.recs, id, COMMITTED))
    case SetAside(id) => r.(recs := MarkedRecs(r.recs, id, QUARANTINED))
  }

  ghost predicate Sensible(requests: seq<Request>) {
    forall i :: 0 <= i < |requests| && requests[i].Keep? ==> ValidEvent(requests[i].ev)
  }

  ghost function RunReference(r: Reference, requests: seq<Request>, accepted: seq<bool>): (after: Reference)
    requires |requests| == |accepted| && Sensible(requests)
    requires r.nextId + |requests| < 0x1_0000_0000_0000_0000
    ensures after.nextId <= r.nextId + |requests|
    decreases |requests|
  {
    if requests == [] then r
    else
      var n := |requests| - 1;
      StepReference(RunReference(r, requests[..n], accepted[..n]), requests[n], accepted[n])
  }

  /** `live` and `nextId` are what the reference makes of the requests that were served. */
  ghost predicate Follows(live0: seq<Placed>, nextId0: nat, live: seq<Placed>, nextId: nat,
                          requests: seq<Request>, accepted: seq<bool>) {
    && |accepted| <= |requests| && Sensible(requests) && nextId0 + |requests| < 0x1_0000_0000_0000_0000
    && Reference(RecsOf(live), nextId)
       == RunReference(Reference(RecsOf(live0), nextId0), requests[..|accepted|], accepted)
  }

  lemma {:induction false} RecsOfMarked(ps: seq<Placed>, id: u64, flag: byte)
    ensures RecsOf(Marked(ps, id, flag)) == MarkedRecs(RecsOf(ps), id, flag)
    decreases |ps|
  {
    hide IsLive;
    if ps != [] {
      RecsOfMarked(ps[1..], id, flag);
      var m := MarkedOne(ps[0], id, flag);
      RecsOfConcat(m, Marked(ps[1..], id, flag));
      assert m != [] ==> m[1..] == [] && RecsOf(m) == [m[0].rec];
    }
  }

  lemma {:induction false} RecsOfConcat(a: seq<Placed>, b: seq<Placed>)
    ensures RecsOf(a + b) == RecsOf(a) + RecsOf(b)
    decreases |a|
  {
    if a == [] {
      assert a + b == b;
    } else {
      RecsOfConcat(a[1..], b);
      var whole := a + b;
      assert whole != [] && whole[0] == a[0] && whole[1..] == a[1..] + b;
    }
  }

  lemma RecsOfAppend(ps: seq<Placed>, p: Placed)
    ensures RecsOf(ps + [p]) == RecsOf(ps) + [p.rec]
  {
    RecsOfConcat(ps, [p]);
    assert [p][1..] == [] && RecsOf([p]) == [p.rec];
  }

  lemma {:induction false} RecsOfHas(ps: seq<Placed>, id: u64)
    ensures |RecsOf(ps)| == |ps| && (HasRecord(RecsOf(ps), id) <==> HasId(ps, id))
    decreases |ps|
  {
    if ps != [] {
      RecsOfHas(ps[1..], id);
      assert ps == [ps[0]] + ps[1..] && RecsOf(ps) == [ps[0].rec] + RecsOf(ps[1..]);
    }
  }

  ghost predicate HasRecord(rs: seq<Rec>, id: u64) {
    exists r :: r in rs && r.id == id
  }

  /** When a request is granted: room and size for a capture, a live record for the others. */
  ghost predicate Permitted(r: Reference, request: Request)
    requires r.nextId < 0x1_0000_0000_0000_0000
    requires request.Keep? ==> ValidEvent(request.ev)
  {
    match request
    case Keep(ev) =>
      |r.recs| < MAX_QUEUE_RECORDS && |Serializer.Encode(ev.(eventId := r.nextId))| <= MAX_PAYLOAD
    case Commit(id) => HasRecord(r.recs, id)
    case SetAside(id) => HasRecord(r.recs, id)
  }

  method Serve(store: Store, request: Request) returns (accepted: bool)
    requires store.Valid() && store.activeSeg < SEGMENTS && store.nextId + 1 < 0x1_0000_0000_0000_0000
    requires request.Keep? ==> ValidEvent(request.ev)
    modifies store
    ensures store.Valid()
    ensures Reference(RecsOf(store.live), store.nextId)
      == StepReference(Reference(RecsOf(old(store.live)), old(store.nextId)), request, accepted)
    ensures (accepted <==> Permitted(Reference(RecsOf(old(store.live)), old(store.nextId)), request))
      || (!accepted && store.activeSeg >= SEGMENTS)
  {
    hide FilesOk, LiveOk, IndexOk, BytesOk, SumSize, ValidEvent, Serializer.Encode, Marked, MarkedRecs, RecsOf, HasId, Recovered;
    hide HasRecord;
    ghost var before := store.live;
    match request {
      case Keep(ev) =>
        var id := store.AllocateEventId();
        SameButId(ev, id);
        RecsOfHas(before, id);
        accepted := store.Append(ev.(eventId := id), true);
        if accepted {
          RecsOfAppend(before, store.live[|before|]);
        }
      case Commit(id) =>
        RecsOfHas(before, id);
        accepted := store.MarkCommitted(id);
        RecsOfMarked(before, id, COMMITTED);
      case SetAside(id) =>
        RecsOfHas(before, id);
        accepted := store.Quarantine(id);
        RecsOfMarked(before, id, QUARANTINED);
    }
  }

  lemma SameButId(ev: CapturedEvent, id: u64)
    requires ValidEvent(ev)
    ensures ValidEvent(ev.(eventId := id))
  {
  }

  /** Request `i` was granted exactly if the reference says so. */
  ghost predicate Judged(start: Reference, requests: seq<Request>, accepted: seq<bool>, i: nat)
    requires i < |accepted| <= |requests| && Sensible(requests)
    requires start.nextId + |requests| < 0x1_0000_0000_0000_0000
  {
    accepted[i] <==> Permitted(RunReference(start, requests[..i], accepted[..i]), requests[i])
  }

  /** ... unless it was the last capture served and the last segment is used up. */
  ghost predicate Granted(live0: seq<Placed>, nextId0: nat, requests: seq<Request>, accepted: seq<bool>, activeSeg: nat, i: nat)
    requires i < |accepted| <= |requests| && Sensible(requests)
    requires nextId0 + |requests| < 0x1_0000_0000_0000_0000
  {
    || Judged(Reference(RecsOf(live0), nextId0), requests, accepted, i)
    || (i == |accepted| - 1 && !accepted[i] && activeSeg >= SEGMENTS - 1)
  }

  lemma JudgedBefore(start: Reference, requests: seq<Request>, accepted: seq<bool>, ok: bool, i: nat)
    requires i < |accepted| < |requests| && Sensible(requests)
    requires start.nextId + |requests| < 0x1_0000_0000_0000_0000
    ensures Judged(start, requests, accepted + [ok], i) <==> Judged(start, requests, accepted, i)
  {
    hide RunReference, Permitted;
    assert (accepted + [ok])[..i] == accepted[..i];
  }

  /**
   * After any run of requests a restart finds exactly the records that the
   * reference says are live, in append order, and each request was granted
   * exactly if the reference permits it. A run ends early only when the last
   * segment is used up, and only then can one more capture be refused.
   */
  method RunThenRecover(store: Store, requests: seq<Request>) returns (accepted: seq<bool>)
    requires store.Valid() && store.activeSeg < SEGMENTS && Sensible(requests)
    requires store.nextId + |requests| < 0x1_0000_0000_0000_0000
    modifies store
    ensures store.Valid() && store.Exact() && |accepted| <= |requests|
    ensures |accepted| < |requests| ==> store.activeSeg >= SEGMENTS - 1
    ensures Follows(old(store.live), old(store.nextId), store.live, store.nextId, requests, accepted)
    ensures forall i :: 0 <= i < |accepted| ==> Granted(old(store.live), old(store.nextId), requests, accepted, store.activeSeg, i)
  {
    hide RecsOf, StepReference, SumSize, Packed, EntriesOf, FilesOk, IndexOk, BytesOk, AllLive, HoldsEvent, SumSlots, ValidEvent;
    hide Judged;
    accepted := [];
    ghost var start := Reference(RecsOf(store.live), store.nextId);
    var i := 0;
    while i < |requests| && store.activeSeg < SEGMENTS
      invariant 0 <= i == |accepted| <= |requests| && store.Valid()
      invariant Reference(RecsOf(store.live), store.nextId) == RunReference(start, requests[..i], accepted)
      invariant forall j :: 0 <= j < i - 1 ==> Judged(start, requests, accepted, j)
      invariant i > 0 ==> Judged(start, requests, accepted, i - 1) || (!accepted[i - 1] && store.activeSeg >= SEGMENTS)
    {
      var ok := Serve(store, requests[i]);
      assert requests[..i + 1][..i] == requests[..i] && (accepted + [ok])[..i] == accepted;
      JudgedNow(start, requests, accepted, ok, store.activeSeg >= SEGMENTS);
      forall j | 0 <= j < i
        ensures Judged(start, requests, accepted + [ok], j) <==> Judged(start, requests, accepted, j)
      {
        JudgedBefore(start, requests, accepted, ok, j);
      }
      accepted := accepted + [ok];
      i := i + 1;
    }
    var _ := store.Recover();
  }

  lemma JudgedNow(start: Reference, requests: seq<Request>, accepted: seq<bool>, ok: bool, full: bool)
    requires |accepted| < |requests| && Sensible(requests) && start.nextId + |requests| < 0x1_0000_0000_0000_0000
    requires (ok <==> Permitted(RunReference(start, requests[..|accepted|], accepted), requests[|accepted|])) || (!ok && full)
    ensures Judged(start, requests, accepted + [ok], |accepted|) || (!ok && full)
  {
    hide RunReference, Permitted;
    assert (accepted + [ok])[..|accepted|] == accepted;
  }
}
