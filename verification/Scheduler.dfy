/** RuntimePoll: one due mapping per call, round-robin. */
module Scheduler {
  import opened Bytes
  import opened Handshake
  import opened Arithmetic

  const TICK_RANGE: nat := 0x1_0000_0000
  const HALF_RANGE: nat := 0x8000_0000

  /** A mapping with the two enable flags that gate it; ticks are counted without bound here. */
  datatype Slot = Slot(enabled: bool, plcEnabled: bool, state: HandshakeState, nextPollTick: nat)

  predicate Urgent(s: HandshakeState) {
    s != Idle && s != Backoff && s != Faulted
  }

  /** How far the 32-bit tick counter is past the due tick. */
  function Lateness(now: nat, next: nat): (late: nat)
    ensures late < TICK_RANGE
  {
    (now - next) % TICK_RANGE
  }

  /** The signed 32-bit difference is not negative. */
  predicate Due(now: nat, next: nat) {
    Lateness(now, next) < HALF_RANGE
  }

  predicate Eligible(s: Slot, now: nat) {
    s.enabled && s.plcEnabled && (Urgent(s.state) || Due(now, s.nextPollTick))
  }

  /**
   * Both enable flags, and either work at hand or a due tick: the 32-bit
   * difference from it to now, read as a signed number, is not negative.
   */
  lemma EligibleExactly(s: Slot, now: nat)
    ensures Eligible(s, now)
      <==> s.enabled && s.plcEnabled
           && (s.state !in {Idle, Backoff, Faulted} || (now - s.nextPollTick) % 0x1_0000_0000 < 0x8000_0000)
  {
  }

  /** The mapping that is `n` places behind the cursor. */
  function At(rr: nat, n: nat, count: nat): (i: nat)
    requires count > 0
    ensures i < count
  {
    (rr + n) % count
  }

  /** The first eligible mapping at `n` or more places behind the cursor. */
  function Pick(slots: seq<Slot>, rr: nat, now: nat, n: nat): (i: Option<nat>)
    requires n <= |slots|
    ensures i.Some? ==> i.value < |slots| && Eligible(slots[i.value], now)
    decreases |slots| - n
  {
    if n == |slots| then None
    else if Eligible(slots[At(rr, n, |slots|)], now) then Some(At(rr, n, |slots|))
    else Pick(slots, rr, now, n + 1)
  }

  /** How many places mapping `j` is behind the cursor. */
  function Distance(rr: nat, j: nat, count: nat): (d: nat)
    requires j < count
    ensures d < count
  {
    var r := rr % count;
    if j >= r then j - r else j + count - r
  }

  /** Without the division: places wrap around once at most. */
  lemma AtPlace(rr: nat, n: nat, count: nat)
    requires n < count
    ensures var r := rr % count; At(rr, n, count) == if r + n < count then r + n else r + n - count
  {
    var q, r := rr / count, rr % count;
    assert rr == q * count + r;
    if r + n < count {
      DivModUnique(rr + n, q, r + n, count);
    } else {
      assert (q + 1) * count == q * count + count;
      DivModUnique(rr + n, q + 1, r + n - count, count);
    }
  }

  /** Place and distance are inverse to each other. */
  lemma DistanceAt(rr: nat, n: nat, j: nat, count: nat)
    requires n < count && j < count
    ensures At(rr, n, count) == j <==> Distance(rr, j, count) == n
  {
    hide At;
    AtPlace(rr, n, count);
  }

  /** The poll picks nothing behind an eligible mapping, and something if there is one. */
  lemma {:induction false} PickNearest(slots: seq<Slot>, rr: nat, now: nat, n: nat, j: nat)
    requires j < |slots| && n <= Distance(rr, j, |slots|) && Eligible(slots[j], now)
    ensures var p := Pick(slots, rr, now, n);
      p.Some? && n <= Distance(rr, p.value, |slots|) <= Distance(rr, j, |slots|)
    decreases |slots| - n
  {
    hide Eligible, At, Distance;
    var here := At(rr, n, |slots|);
    DistanceAt(rr, n, here, |slots|);
    if !Eligible(slots[here], now) {
      DistanceAt(rr, n, j, |slots|);
      PickNearest(slots, rr, now, n + 1, j);
    }
  }

  /** Nothing is picked exactly if nothing is eligible, and what is picked is. */
  lemma PickExactly(slots: seq<Slot>, rr: nat, now: nat)
    ensures Pick(slots, rr, now, 0) == None <==> forall j :: 0 <= j < |slots| ==> !Eligible(slots[j], now)
    ensures Pick(slots, rr, now, 0).Some? ==> Eligible(slots[Pick(slots, rr, now, 0).value], now)
  {
    hide Eligible, At, Distance;
    forall j | 0 <= j < |slots| && Eligible(slots[j], now)
      ensures Pick(slots, rr, now, 0).Some?
    {
      PickNearest(slots, rr, now, 0, j);
    }
  }

  /** After another mapping was picked, `j` is nearer to the cursor. */
  lemma DistanceDrops(rr: nat, i: nat, j: nat, count: nat)
    requires i < count && j < count && Distance(rr, i, count) < Distance(rr, j, count)
    ensures Distance(i + 1, j, count) == Distance(rr, j, count) - Distance(rr, i, count) - 1
  {
    if i + 1 < count {
      DivModUnique(i + 1, 0, i + 1, count);
    } else {
      DivModUnique(i + 1, 1, 0, count);
    }
  }

  // ----- Runs of polls -----

  /** A poll at a tick; `after` is what stepping makes of the picked mapping's runtime state. */
  datatype Poll = Poll(now: nat, state: HandshakeState, nextPollTick: nat)

  function SlotsAfter(slots: seq<Slot>, rr: nat, p: Poll): (after: seq<Slot>)
    ensures |after| == |slots|
  {
    match Pick(slots, rr, p.now, 0)
    case None => slots
    case Some(i) => slots[i := slots[i].(state := p.state, nextPollTick := p.nextPollTick)]
  }

  function CursorAfter(slots: seq<Slot>, rr: nat, p: Poll): nat {
    match Pick(slots, rr, p.now, 0)
    case None => rr
    case Some(i) => i + 1
  }

  /** The mappings that a run of polls steps, in order. */
  function Picks(slots: seq<Slot>, rr: nat, polls: seq<Poll>): (picks: seq<Option<nat>>)
    ensures |picks| == |polls|
    decreases |polls|
  {
    if polls == [] then []
    else [Pick(slots, rr, polls[0].now, 0)]
         + Picks(SlotsAfter(slots, rr, polls[0]), CursorAfter(slots, rr, polls[0]), polls[1..])
  }

  ghost predicate InOrder(polls: seq<Poll>) {
    forall a, b :: 0 <= a <= b < |polls| ==> polls[a].now <= polls[b].now
  }

  /** Eligible now, and for as long as the run lasts unless stepped: the due tick is less than half a counter range ago. */
  ghost predicate StaysEligible(s: Slot, polls: seq<Poll>) {
    && polls != [] && InOrder(polls) && s.enabled && s.plcEnabled
    && (s.state !in {Idle, Backoff, Faulted}
        || (polls[0].now - s.nextPollTick) % 0x1_0000_0000 + (polls[|polls| - 1].now - polls[0].now) < 0x8000_0000)
  }

  lemma LatenessGrows(now: nat, later: nat, next: nat)
    requires now <= later && Lateness(now, next) + (later - now) < HALF_RANGE
    ensures Lateness(later, next) == Lateness(now, next) + (later - now)
  {
    var l := Lateness(now, next);
    var k := (now - next) / TICK_RANGE;
    assert now - next == k * TICK_RANGE + l;
    assert later - next == k * TICK_RANGE + (l + (later - now));
  }

  lemma StillEligible(s: Slot, polls: seq<Poll>)
    requires StaysEligible(s, polls) && |polls| > 1
    ensures StaysEligible(s, polls[1..])
  {
    assert polls[0].now <= polls[1].now <= polls[|polls| - 1].now;
    if !Urgent(s.state) {
      LatenessGrows(polls[0].now, polls[1].now, s.nextPollTick);
    }
  }

  /**
   * Bounded waiting: whatever the other mappings do, an eligible mapping is
   * stepped within as many polls as there are places before it, at most one turn.
   */
  lemma {:induction false} BoundedWaiting(slots: seq<Slot>, rr: nat, polls: seq<Poll>, j: nat)
    requires j < |slots| && |polls| > Distance(rr, j, |slots|) && StaysEligible(slots[j], polls)
    ensures exists t :: 0 <= t <= Distance(rr, j, |slots|) && Picks(slots, rr, polls)[t] == Some(j)
    decreases |polls|
  {
    hide Pick, Distance, Eligible, StaysEligible;
    assert Eligible(slots[j], polls[0].now) by { EligibleFirst(slots[j], polls); }
    PickNearest(slots, rr, polls[0].now, 0, j);
    var i := Pick(slots, rr, polls[0].now, 0).value;
    if i == j {
      assert Picks(slots, rr, polls)[0] == Some(j);
    } else {
      SamePlaceSame(rr, i, j, |slots|);
      DistanceDrops(rr, i, j, |slots|);
      var slots2, rr2 := SlotsAfter(slots, rr, polls[0]), CursorAfter(slots, rr, polls[0]);
      StillEligible(slots[j], polls);
      BoundedWaiting(slots2, rr2, polls[1..], j);
      var t :| 0 <= t <= Distance(rr2, j, |slots|) && Picks(slots2, rr2, polls[1..])[t] == Some(j);
      assert Picks(slots, rr, polls)[t + 1] == Some(j);
    }
  }

  lemma EligibleFirst(s: Slot, polls: seq<Poll>)
    requires StaysEligible(s, polls)
    ensures Eligible(s, polls[0].now)
  {
  }

  lemma SamePlaceSame(rr: nat, i: nat, j: nat, count: nat)
    requires i < count && j < count
    ensures Distance(rr, i, count) == Distance(rr, j, count) ==> i == j
  {
  }

  // ----- The poll itself -----

  class Runtime {
    var slots: array<Slot>
    var rr: nat

    constructor (mappings: nat)
      ensures slots.Length == mappings && rr == 0 && fresh(slots)
      ensures forall i :: 0 <= i < mappings ==> Urgent(slots[i].state)
    {
      slots := new Slot[mappings](_ => Slot(true, true, Initializing, 0));
      rr := 0;
    }

    /** The drain that RuntimePoll also starts is modelled separately. */
    method RuntimePoll(poll: Poll) returns (picked: Option<nat>)
      modifies this`rr, slots
      ensures slots == old(slots)
      ensures picked == Pick(old(slots[..]), old(rr), poll.now, 0)
      ensures slots[..] == SlotsAfter(old(slots[..]), old(rr), poll)
      ensures rr == CursorAfter(old(slots[..]), old(rr), poll)
    {
      hide Eligible, At;
      picked := None;
      var count := slots.Length;
      for n := 0 to count
        invariant Pick(slots[..], rr, poll.now, 0) == Pick(slots[..], rr, poll.now, n)
      {
        var i := At(rr, n, count);
        if Eligible(slots[i], poll.now) {
          ghost var before := slots[..];
          slots[i] := slots[i].(state := poll.state, nextPollTick := poll.nextPollTick);
          assert slots[..] == before[i := slots[i]];
          rr := i + 1;
          return Some(i);
        }
      }
    }
  }
}
