/** The end of the segment numbers. */
module EffsLimit {
  // A run gets there; and what becomes of events that are queued from then on.

  import opened Bytes
  import opened GatewayTypes
  import opened EffsLog
  import opened EffsState
  import opened EffsDisk
  import opened EffsFacts
  import opened EffsStore
  import Serializer

  lemma SameLength(ev: CapturedEvent, id: u64)
    requires ValidEvent(ev)
    ensures ValidEvent(ev.(eventId := id)) && |Serializer.Encode(ev.(eventId := id))| == |Serializer.Encode(ev)| > 0
  {
    hide Serializer.EncodeFields, Serializer.EncodeStr, ValidFields;
  }

  lemma MarkedPair(p: Placed, q: Placed, id: u64)
    requires p.rec.id != q.rec.id
    ensures id == p.rec.id ==> Marked([p, q], id, COMMITTED) == [q]
    ensures id == q.rec.id ==> Marked([p, q], id, COMMITTED) == [p]
  {
    assert [p, q][1..] == [q] && [q][1..] == [];
    assert Marked([q], id, COMMITTED) == MarkedOne(q, id, COMMITTED);
  }

  lemma KeeperUsed(index: seq<Option<Entry>>, live: seq<Placed>)
    requires IndexOk(index, live) && |live| == 1
    ensures UsesSegment(index, live[0].seg)
  {
    hide IndexOk;
    RecordSlot(index, live, 0);
    EntryPlace(live[0]);
  }

  /** The last segment that can be written, by one record that is never committed before the next segment is begun. */
  ghost predicate Filling(store: Store, keeper: u64)
    reads store
  {
    && store.Valid() && |store.live| == 1 && store.live[0].rec.id == keeper
    && |store.segBytes| == SEGMENTS
    && (store.activeSeg < SEGMENTS
        ==> store.live[0].seg == store.activeSeg && store.segBytes[store.activeSeg] <= SEGMENT_BYTES
            && store.nextId + SEGMENT_BYTES <= store.activeSeg * 0x2_0000 + store.segBytes[store.activeSeg])
    && forall k :: store.activeSeg < k < SEGMENTS ==> store.segBytes[k] == 0
  }

  method FirstKept(ev: CapturedEvent) returns (store: Store, keeper: u64)
    requires ValidEvent(ev) && |Serializer.Encode(ev)| <= MAX_PAYLOAD
    ensures fresh(store) && Filling(store, keeper) && store.activeSeg == 1
  {
    hide FilesOk, LiveOk, IndexOk, BytesOk, SumSize, ValidEvent, Serializer.Encode, HasId, Recovered, EncodeRec;
    store := new Store();
    MarkedSizes(store.segBytes, store.segs);
    keeper := store.AllocateEventId();
    SameLength(ev, keeper);
    var ok := store.Append(ev.(eventId := keeper), true);
    assert store.live == [store.live[0]];
  }

  /** One more event: behind the kept one, or in its stead at the front of the next segment. */
  method KeepOneMore(store: Store, ev: CapturedEvent, keeper: u64) returns (next: u64)
    requires ValidEvent(ev) && |Serializer.Encode(ev)| <= MAX_PAYLOAD
    requires Filling(store, keeper) && store.activeSeg < SEGMENTS
    modifies store
    ensures Filling(store, next) && old(store.activeSeg) <= store.activeSeg
    ensures old(store.activeSeg) == store.activeSeg
      ==> store.segBytes[store.activeSeg] > old(store.segBytes[store.activeSeg])
  {
    hide FilesOk, LiveOk, IndexOk, BytesOk, SumSize, ValidEvent, Serializer.Encode, HasId, Recovered, EncodeRec, Marked;
    hide UsesSegment;
    next := keeper;
    ghost var kept := store.live[0];
    assert store.live == [kept];
    Present(store.live, 0);
    var id := store.AllocateEventId();
    SameLength(ev, id);
    var before := store.activeSeg;
    var ok := store.Append(ev.(eventId := id), true);
    if ok {
      ghost var added := store.live[1];
      assert store.live == [kept, added];
      MarkedPair(kept, added, keeper);
      MarkedPair(kept, added, id);
      Present(store.live, 0);
      Present(store.live, 1);
      if store.activeSeg == before {
        var _ := store.MarkCommitted(id);
      } else {
        var _ := store.MarkCommitted(keeper);
        next := id;
      }
      KeeperUsed(store.index, store.live);
    }
    MarkedSizes(store.segBytes, store.segs);
  }

  /** Whatever the event: queueing it again and again, all but one at a time committed, uses up the segments. */
  method ReachLimit(ev: CapturedEvent) returns (store: Store)
    requires ValidEvent(ev) && |Serializer.Encode(ev)| <= MAX_PAYLOAD
    ensures fresh(store) && store.Valid() && store.activeSeg == SEGMENTS && |store.live| == 1
  {
    hide FilesOk, LiveOk, IndexOk, BytesOk, SumSize, ValidEvent, Serializer.Encode, Recovered;
    var keeper;
    store, keeper := FirstKept(ev);
    while store.activeSeg < SEGMENTS
      invariant fresh(store) && Filling(store, keeper)
      decreases SEGMENTS - store.activeSeg, if store.activeSeg < SEGMENTS then SEGMENT_BYTES - store.segBytes[store.activeSeg] else 0
    {
      keeper := KeepOneMore(store, ev, keeper);
    }
  }

  // ----- Beyond the limit -----

  /** The record of an event under that id, as it is written. */
  ghost function Image(ev: CapturedEvent, id: nat): seq<byte>
    requires ValidEvent(ev)
  {
    if id >= 0x1_0000_0000_0000_0000 then []
    else
      var payload := Serializer.Encode(ev.(eventId := id));
      if |payload| <= MAX_PAYLOAD then EncodeRec(Rec(id, PENDING, payload)) else []
  }

  /** The last event accepted is all that file 256 holds; the other files are left alone. */
  ghost function FilesAfter(files: map<nat, seq<byte>>, evs: seq<CapturedEvent>, accepted: seq<bool>, firstId: nat): map<nat, seq<byte>>
    requires |accepted| <= |evs| && forall i :: 0 <= i < |evs| ==> ValidEvent(evs[i])
  {
    if accepted == [] then files
    else
      var n := |accepted| - 1;
      if accepted[n] then files[SEGMENTS := Image(evs[n], firstId + n)] else FilesAfter(files, evs, accepted[..n], firstId)
  }

  lemma {:induction false} FilesAfterRecovered(files: map<nat, seq<byte>>, evs: seq<CapturedEvent>, accepted: seq<bool>, firstId: nat)
    requires |accepted| <= |evs| && forall i :: 0 <= i < |evs| ==> ValidEvent(evs[i])
    ensures Recovered(FilesAfter(files, evs, accepted, firstId), LastScanned(SEGMENTS)) == Recovered(files, LastScanned(SEGMENTS))
    decreases |accepted|
  {
    hide Recovered, ValidEvent, Image;
    if accepted != [] {
      var n := |accepted| - 1;
      if accepted[n] {
        BeyondIgnored(files, LastScanned(SEGMENTS), SEGMENTS, Image(evs[n], firstId + n));
      } else {
        FilesAfterRecovered(files, evs, accepted[..n], firstId);
      }
    }
  }

  lemma {:induction false} FilesAfterTwice(files: map<nat, seq<byte>>, evs: seq<CapturedEvent>, accepted: seq<bool>, firstId: nat, data: seq<byte>)
    requires |accepted| <= |evs| && forall i :: 0 <= i < |evs| ==> ValidEvent(evs[i])
    ensures FilesAfter(files, evs, accepted, firstId)[SEGMENTS := data] == files[SEGMENTS := data]
    decreases |accepted|
  {
    hide ValidEvent, Image;
    if accepted != [] {
      FilesAfterTwice(files, evs, accepted[..|accepted| - 1], firstId, data);
    }
  }

  /** Events queued once the active segment is 256 only ever change file 256. */
  method QueueBeyond(store: Store, evs: seq<CapturedEvent>) returns (accepted: seq<bool>)
    requires store.Valid() && store.activeSeg == SEGMENTS && store.nextId + |evs| < 0x1_0000_0000_0000_0000
    requires forall i :: 0 <= i < |evs| ==> ValidEvent(evs[i])
    modifies store
    ensures |accepted| == |evs| && store.live == old(store.live) && store.activeSeg == SEGMENTS
    ensures if true in accepted then store.Stranded() else store.Valid()
    ensures |old(store.live)| < MAX_QUEUE_RECORDS && evs != [] && |Serializer.Encode(evs[0])| <= MAX_PAYLOAD ==> accepted[0]
    ensures store.files == FilesAfter(old(store.files), evs, accepted, old(store.nextId))
  {
    hide FilesOk, LiveOk, IndexOk, BytesOk, SumSize, ValidEvent, Serializer.Encode, HasId, EncodeRec;
    hide Recovered, EntriesOf;
    accepted := [];
    ghost var files, live, firstId := store.files, store.live, store.nextId;
    for i := 0 to |evs|
      invariant |accepted| == i && store.nextId == firstId + i && store.live == live && store.activeSeg == SEGMENTS
      invariant if true in accepted then store.Stranded() else store.Valid()
      invariant i > 0 && |live| < MAX_QUEUE_RECORDS && |Serializer.Encode(evs[0])| <= MAX_PAYLOAD ==> accepted[0]
      invariant store.files == FilesAfter(files, evs, accepted, firstId)
    {
      var id := store.AllocateEventId();
      SameLength(evs[i], id);
      var ok := store.Append(evs[i].(eventId := id), true !in accepted);
      FilesAfterTwice(files, evs, accepted, firstId, Image(evs[i], id));
      assert (accepted + [ok])[..i] == accepted;
      accepted := accepted + [ok];
    }
  }

  /**
   * They are accepted while an index slot is free, each taking the place of the
   * one before; a restart then finds the records that were live before, and none
   * of them.
   */
  method QueueBeyondAndRestart(store: Store, evs: seq<CapturedEvent>) returns (accepted: seq<bool>)
    requires store.Valid() && store.activeSeg == SEGMENTS && store.nextId + |evs| < 0x1_0000_0000_0000_0000
    requires forall i :: 0 <= i < |evs| ==> ValidEvent(evs[i])
    modifies store
    ensures |accepted| == |evs|
    ensures |old(store.live)| < MAX_QUEUE_RECORDS && evs != [] && |Serializer.Encode(evs[0])| <= MAX_PAYLOAD ==> accepted[0]
    ensures store.files == Reclaimed(FilesAfter(old(store.files), evs, accepted, old(store.nextId)), LastScanned(SEGMENTS))
    ensures FreshlyIndexed(store.index, old(store.live))
  {
    hide FilesOk, IndexOk, BytesOk, SumSize, ValidEvent, Serializer.Encode, HoldsEvent, AllLive, FilesAfter;
    hide Reclaimed, Recovered, EntriesOf, Packed, SumSlots;
    ghost var files, live, firstId := store.files, store.live, store.nextId;
    FilesWider(files, store.segs, store.meta.value.active, SEGMENTS);
    RecoverLive(files, store.segs, SEGMENTS);
    IndexSize(store.index, live);
    accepted := QueueBeyond(store, evs);
    FilesAfterRecovered(files, evs, accepted, firstId);
    var found := store.Recover();
  }
}
