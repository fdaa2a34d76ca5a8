/** The event queue that QueueInit selects: a ring of 128 RAM slots. */
module RamQueue {
  // Append takes the first free slot and peek the first pending one, so the queue
  // keeps no order; what it keeps is a finite map from event id to event.

  import opened Bytes
  import opened GatewayTypes
  import opened Serializer
  import Crc

  const RAM_SLOTS: nat := 128

  datatype RamSlot = RamSlot(
    used: bool,
    committed: bool,
    quarantined: bool,
    eventId: u64,
    blob: seq<byte>,
    crc: u32)

  const FREE_SLOT := RamSlot(false, false, false, 0, [], 0)

  datatype Pressure = Normal | Warning | Critical | Full

  // ----- Abstract view -----

  predicate IsPending(s: RamSlot) {
    s.used && !s.committed && !s.quarantined
  }

  /** The checks that peek makes before it hands out a slot. */
  predicate Readable(s: RamSlot) {
    Crc.Checksum(s.blob) == s.crc && Decode(s.blob).Some?
  }

  /** A used slot is pending and holds the undamaged image of an event of that id. */
  ghost predicate Sound(s: RamSlot) {
    s.used ==>
      IsPending(s) && Readable(s) && Decode(s.blob).value.eventId == s.eventId && |s.blob| <= MAX_SERIALIZED_EVENT
  }

  ghost predicate DistinctIds(slots: seq<RamSlot>) {
    forall i, j :: 0 <= i < j < |slots| && slots[i].used && slots[j].used ==> slots[i].eventId != slots[j].eventId
  }

  ghost predicate SoundSlots(slots: seq<RamSlot>) {
    (forall i :: 0 <= i < |slots| ==> Sound(slots[i])) && DistinctIds(slots)
  }

  /** The queue as a map: each used slot's id to what its blob decodes to. */
  ghost function Contents(slots: seq<RamSlot>): map<u64, Option<CapturedEvent>> {
    if slots == [] then map[]
    else
      var last := slots[|slots| - 1];
      var rest := Contents(slots[..|slots| - 1]);
      if last.used then rest[last.eventId := Decode(last.blob)] else rest
  }

  function CountUsed(slots: seq<RamSlot>): (n: nat)
    ensures n <= |slots|
  {
    if slots == [] then 0
    else CountUsed(slots[..|slots| - 1]) + if slots[|slots| - 1].used then 1 else 0
  }

  /** The first slot at or after `i` that is free, or the length if there is none. */
  function FirstFree(slots: seq<RamSlot>, i: nat): (k: nat)
    requires i <= |slots|
    ensures i <= k <= |slots| && (k < |slots| ==> !slots[k].used)
    ensures forall j :: i <= j < k ==> slots[j].used
    decreases |slots| - i
  {
    if i == |slots| || !slots[i].used then i else FirstFree(slots, i + 1)
  }

  function FirstOf(slots: seq<RamSlot>, id: u64, i: nat): (k: nat)
    requires i <= |slots|
    ensures i <= k <= |slots| && (k < |slots| ==> slots[k].used && slots[k].eventId == id)
    ensures forall j :: i <= j < k ==> !(slots[j].used && slots[j].eventId == id)
    decreases |slots| - i
  {
    if i == |slots| || (slots[i].used && slots[i].eventId == id) then i else FirstOf(slots, id, i + 1)
  }

  // ----- Lemmas about the view -----

  lemma {:induction false} ContentsAt(slots: seq<RamSlot>, i: nat)
    requires i < |slots| && slots[i].used && DistinctIds(slots)
    ensures slots[i].eventId in Contents(slots) && Contents(slots)[slots[i].eventId] == Decode(slots[i].blob)
    decreases |slots|
  {
    hide Decode;
    if i < |slots| - 1 {
      ContentsAt(slots[..|slots| - 1], i);
    }
  }

  lemma {:induction false} ContentsOnly(slots: seq<RamSlot>, id: u64)
    ensures id in Contents(slots) ==> FirstOf(slots, id, 0) < |slots|
    decreases |slots|
  {
    hide Decode;
    if slots != [] {
      ContentsOnly(slots[..|slots| - 1], id);
      if id in Contents(slots[..|slots| - 1]) {
        var k := FirstOf(slots[..|slots| - 1], id, 0);
        assert slots[k].used && slots[k].eventId == id;
      }
    }
  }

  /** Filling a free slot adds one entry. */
  lemma {:induction false} ContentsFill(slots: seq<RamSlot>, i: nat, s: RamSlot)
    requires i < |slots| && !slots[i].used && s.used
    requires forall j :: 0 <= j < |slots| && slots[j].used ==> slots[j].eventId != s.eventId
    ensures Contents(slots[i := s]) == Contents(slots)[s.eventId := Decode(s.blob)]
    ensures CountUsed(slots[i := s]) == CountUsed(slots) + 1
    decreases |slots|
  {
    hide Decode;
    var n := |slots| - 1;
    if i < n {
      ContentsFill(slots[..n], i, s);
      assert slots[i := s][..n] == slots[..n][i := s];
    } else {
      assert slots[i := s][..n] == slots[..n];
    }
  }

  /** Freeing a used slot removes one entry. */
  lemma {:induction false} ContentsFree(slots: seq<RamSlot>, i: nat, s: RamSlot)
    requires i < |slots| && slots[i].used && !s.used && DistinctIds(slots)
    ensures Contents(slots[i := s]) == Contents(slots) - {slots[i].eventId}
    ensures CountUsed(slots[i := s]) == CountUsed(slots) - 1
    decreases |slots|
  {
    hide Decode;
    var n := |slots| - 1;
    if i < n {
      ContentsFree(slots[..n], i, s);
      assert slots[i := s][..n] == slots[..n][i := s];
    } else {
      assert slots[i := s][..n] == slots[..n];
      ContentsOnly(slots[..n], slots[n].eventId);
      assert slots[n].eventId !in Contents(slots[..n]);
    }
  }

  /** As many entries as used slots: no two slots share an id. */
  lemma {:induction false} ContentsSize(slots: seq<RamSlot>)
    requires DistinctIds(slots)
    ensures |Contents(slots)| == CountUsed(slots)
    decreases |slots|
  {
    hide Decode;
    if slots != [] {
      var n := |slots| - 1;
      ContentsSize(slots[..n]);
      ContentsOnly(slots[..n], slots[n].eventId);
      assert slots[n].used ==> slots[n].eventId !in Contents(slots[..n]);
    }
  }

  lemma {:induction false} FullMeansNoneFree(slots: seq<RamSlot>)
    ensures CountUsed(slots) == |slots| <==> forall j :: 0 <= j < |slots| ==> slots[j].used
    ensures CountUsed(slots) == |slots| <==> FirstFree(slots, 0) == |slots|
    decreases |slots|
  {
    if slots != [] {
      var n := |slots| - 1;
      FullMeansNoneFree(slots[..n]);
      assert slots == slots[..n] + [slots[n]];
    }
  }

  // ----- Peek -----

  datatype PeekResult = PeekResult(slots: seq<RamSlot>, found: Option<nat>, dropped: nat)

  /** The scan from slot `i`: unreadable slots are freed on the way. */
  function Peek(slots: seq<RamSlot>, i: nat): PeekResult
    requires i <= |slots|
    decreases |slots| - i
  {
    if i == |slots| then PeekResult(slots, None, 0)
    else if !IsPending(slots[i]) then Peek(slots, i + 1)
    else if Readable(slots[i]) then PeekResult(slots, Some(i), 0)
    else
      var r := Peek(slots[i := slots[i].(quarantined := true, used := false)], i + 1);
      r.(dropped := r.dropped + 1)
  }

  /** In a sound queue peek changes nothing and finds an event unless the queue is empty. */
  lemma {:induction false} PeekSound(slots: seq<RamSlot>, i: nat)
    requires i <= |slots| && SoundSlots(slots)
    requires forall j :: 0 <= j < i ==> !slots[j].used
    ensures var r := Peek(slots, i);
      r.slots == slots && r.dropped == 0
      && (r.found == None <==> Contents(slots) == map[])
      && (r.found.Some? ==> r.found.value < |slots| && IsPending(slots[r.found.value]) && Readable(slots[r.found.value]))
    decreases |slots| - i
  {
    hide Decode, Readable;
    if i == |slots| {
      if Contents(slots) != map[] {
        var id :| id in Contents(slots);
        ContentsOnly(slots, id);
      }
    } else if slots[i].used {
      assert Sound(slots[i]);
      ContentsAt(slots, i);
    } else {
      PeekSound(slots, i + 1);
    }
  }

  /** Whatever damage the RAM has taken, peek frees only unreadable slots and hands out only readable ones. */
  lemma {:induction false} PeekDamaged(slots: seq<RamSlot>, i: nat, k: nat)
    requires i <= |slots| && k < |slots|
    ensures var r := Peek(slots, i);
      && |r.slots| == |slots|
      && (r.slots[k] == slots[k] || (IsPending(slots[k]) && !Readable(slots[k]) && !r.slots[k].used))
      && (r.found.Some? ==> i <= r.found.value < |slots|)
      && (r.found.Some? ==> IsPending(slots[r.found.value]) && Readable(slots[r.found.value]))
      && (i <= k && IsPending(slots[k]) && Readable(slots[k]) ==> r.found.Some? && r.found.value <= k)
    decreases |slots| - i
  {
    hide Decode, Readable;
    if i < |slots| {
      var next := if IsPending(slots[i]) && !Readable(slots[i])
                  then slots[i := slots[i].(quarantined := true, used := false)] else slots;
      PeekDamaged(next, i + 1, k);
    }
  }

  // ----- The queue object -----

  class Queue {
    var slots: array<RamSlot>
    var nextId: nat
    var fullCount: nat
    var quarantineTotal: nat

    ghost predicate Valid()
      reads this, slots
    {
      && slots.Length == RAM_SLOTS
      && SoundSlots(slots[..])
      && (forall id :: id in Contents(slots[..]) ==> id < nextId)
    }

    ghost function Pending(): map<u64, Option<CapturedEvent>>
      reads this, slots
    {
      Contents(slots[..])
    }

    /** QueueInit */
    constructor ()
      ensures Valid() && fresh(slots) && Pending() == map[]
      ensures nextId == 1 && fullCount == 0 && quarantineTotal == 0
    {
      slots := new RamSlot[RAM_SLOTS](_ => FREE_SLOT);
      nextId, fullCount, quarantineTotal := 1, 0, 0;
      new;
      forall id: u64
        ensures id !in Contents(slots[..])
      {
        ContentsOnly(slots[..], id);
      }
    }

    method AllocateEventId() returns (id: u64)
      requires Valid() && nextId < 0x1_0000_0000_0000_0000
      modifies this`nextId
      ensures Valid() && Pending() == old(Pending()) && slots == old(slots)
      ensures id == old(nextId) && nextId == id + 1 && id !in Pending()
    {
      id := nextId;
      nextId := nextId + 1;
    }

    method Append(ev: CapturedEvent) returns (ok: bool)
      requires Valid() && ValidEvent(ev) && ev.eventId < nextId && ev.eventId !in Pending()
      modifies this`fullCount, slots
      ensures Valid() && slots == old(slots)
      ensures ok <==> |old(Pending())| < 128 && |Encode(ev)| <= 1024
      ensures Pending() == if ok then old(Pending())[ev.eventId := Some(Persisted(ev))] else old(Pending())
      ensures fullCount == old(fullCount) + if |old(Pending())| < 128 then 0 else 1
    {
      hide Decode, Encode, Readable, ValidEvent;
      ok := false;
      ContentsSize(slots[..]);
      FullMeansNoneFree(slots[..]);
      var freeIdx := 0;
      while freeIdx < RAM_SLOTS && slots[freeIdx].used
        invariant freeIdx <= RAM_SLOTS
        invariant FirstFree(slots[..], freeIdx) == FirstFree(slots[..], 0)
      {
        freeIdx := freeIdx + 1;
      }
      if freeIdx == RAM_SLOTS {
        fullCount := fullCount + 1;
        return;
      }
      var blob := new byte[MAX_SERIALIZED_EVENT](_ => 0);
      var fits, len, crc := SerializeEvent(ev, blob);
      if !fits {
        return;
      }
      ghost var before := slots[..];
      var s := RamSlot(true, false, false, ev.eventId, blob[..len], crc);
      FreshId(before, ev.eventId);
      ContentsFill(before, freeIdx, s);
      FilledSound(before, freeIdx, ev, s);
      slots[freeIdx] := s;
      assert slots[..] == before[freeIdx := s];
      ok := true;
    }

    /** RamPeek */
    method PeekPending() returns (ev: Option<CapturedEvent>, slot: nat)
      requires Valid()
      modifies this`quarantineTotal, slots
      ensures Valid() && slots[..] == old(slots[..]) && slots == old(slots) && quarantineTotal == old(quarantineTotal)
      ensures ev == None <==> Pending() == map[]
      ensures ev.Some? ==> ev.value.eventId in Pending() && Pending()[ev.value.eventId] == ev
      ensures ev.Some? ==> slot < RAM_SLOTS && slots[slot].eventId == ev.value.eventId
    {
      hide Decode, Readable;
      ghost var before := slots[..];
      PeekSound(before, 0);
      ev, slot := PeekSlots();
      if ev.Some? {
        assert Sound(before[slot]);
        ContentsAt(before, slot);
      }
    }

    /** The scan itself, over slots in any condition. */
    method PeekSlots() returns (ev: Option<CapturedEvent>, slot: nat)
      requires slots.Length == RAM_SLOTS
      modifies this`quarantineTotal, slots
      ensures slots == old(slots)
      ensures var r := Peek(old(slots[..]), 0);
        && slots[..] == r.slots
        && quarantineTotal == old(quarantineTotal) + r.dropped
        && ev.Some? == r.found.Some?
        && (ev.Some? ==> slot == r.found.value && slot < RAM_SLOTS && ev == Decode(slots[slot].blob))
    {
      hide Decode;
      ev, slot := None, 0;
      ghost var goal := Peek(slots[..], 0);
      ghost var start := quarantineTotal;
      for i := 0 to RAM_SLOTS
        invariant ev == None && start <= quarantineTotal
        invariant goal == Peek(slots[..], i).(dropped := Peek(slots[..], i).dropped + quarantineTotal - start)
      {
        var s := slots[i];
        if s.used && !s.committed && !s.quarantined {
          var crc := Crc.Crc32(s.blob, |s.blob|);
          assert s.blob[..|s.blob|] == s.blob;
          if crc != s.crc || Decode(s.blob) == None {
            ghost var before := slots[..];
            slots[i] := s.(quarantined := true, used := false);
            assert slots[..] == before[i := s.(quarantined := true, used := false)];
            quarantineTotal := quarantineTotal + 1;
            continue;
          }
          ev, slot := Decode(s.blob), i;
          return;
        }
      }
    }

    method MarkCommitted(id: u64) returns (ok: bool)
      requires Valid()
      modifies slots
      ensures Valid() && slots == old(slots)
      ensures ok <==> id in old(Pending())
      ensures Pending() == old(Pending()) - {id}
    {
      ok := Release(id, true);
    }

    /** The payload is dropped and the slot freed. */
    method Quarantine(id: u64) returns (ok: bool)
      requires Valid()
      modifies this`quarantineTotal, slots
      ensures Valid() && slots == old(slots)
      ensures ok <==> id in old(Pending())
      ensures Pending() == old(Pending()) - {id}
      ensures quarantineTotal == old(quarantineTotal) + if ok then 1 else 0
    {
      ok := Release(id, false);
      if ok {
        quarantineTotal := quarantineTotal + 1;
      }
    }

    /** Frees the first used slot of that id. */
    method Release(id: u64, commit: bool) returns (ok: bool)
      requires Valid()
      modifies slots
      ensures Valid() && slots == old(slots)
      ensures ok <==> id in old(Pending())
      ensures Pending() == old(Pending()) - {id}
    {
      hide Decode, Readable;
      ok := false;
      ghost var before := slots[..];
      ContentsOnly(before, id);
      for i := 0 to RAM_SLOTS
        invariant slots[..] == before
        invariant FirstOf(before, id, i) == FirstOf(before, id, 0)
      {
        if slots[i].used && slots[i].eventId == id {
          var s := slots[i];
          var freed := if commit then s.(committed := true, used := false)
                       else s.(quarantined := false, committed := false, used := false, blob := []);
          ContentsAt(before, i);
          ContentsFree(before, i, freed);
          slots[i] := freed;
          assert slots[..] == before[i := freed];
          FreedSound(before, i, freed);
          ok := true;
          return;
        }
      }
    }

    /** The pending count and the pressure reported from it. */
    method GetStats() returns (pending: nat, pressure: Pressure)
      requires Valid()
      ensures pending == |Pending()|
      ensures pressure == Full <==> FirstFree(slots[..], 0) == 128
      ensures pressure == Critical <==> 115 < pending < 128
      ensures pressure == Warning <==> 96 < pending <= 115
    {
      hide Decode, Readable;
      pending := 0;
      for i := 0 to RAM_SLOTS
        invariant pending == CountUsed(slots[..i])
      {
        assert slots[..i + 1][..i] == slots[..i];
        assert Sound(slots[i]);
        if slots[i].used && !slots[i].committed && !slots[i].quarantined {
          pending := pending + 1;
        }
      }
      assert slots[..RAM_SLOTS] == slots[..];
      ContentsSize(slots[..]);
      FullMeansNoneFree(slots[..]);
      pressure :=
        if pending >= RAM_SLOTS then Full
        else if pending > RAM_SLOTS * 9 / 10 then Critical
        else if pending > RAM_SLOTS * 3 / 4 then Warning
        else Normal;
    }
  }

  lemma FreshId(slots: seq<RamSlot>, id: u64)
    requires DistinctIds(slots) && id !in Contents(slots)
    ensures forall j :: 0 <= j < |slots| && slots[j].used ==> slots[j].eventId != id
  {
    hide Decode;
    forall j | 0 <= j < |slots| && slots[j].used
      ensures slots[j].eventId != id
    {
      ContentsAt(slots, j);
    }
  }

  lemma FilledSound(slots: seq<RamSlot>, i: nat, ev: CapturedEvent, s: RamSlot)
    requires SoundSlots(slots) && i < |slots| && ValidEvent(ev) && |Encode(ev)| <= MAX_SERIALIZED_EVENT
    requires s == RamSlot(true, false, false, ev.eventId, Encode(ev), Crc.Checksum(Encode(ev)))
    requires forall j :: 0 <= j < |slots| && slots[j].used ==> slots[j].eventId != ev.eventId
    ensures Decode(s.blob) == Some(Persisted(ev))
    ensures SoundSlots(slots[i := s])
  {
    hide Decode, Encode, ValidEvent;
    DecodeEncode(ev);
  }

  lemma FreedSound(slots: seq<RamSlot>, i: nat, s: RamSlot)
    requires SoundSlots(slots) && i < |slots| && !s.used
    ensures SoundSlots(slots[i := s])
  {
    hide Decode, Readable;
  }
}
