/** From the trigger to the database. */
module Delivery {
  // One mapping's handshake and the gateway's queue, drain and worker, running
  // together. The handshake's append is the queue's: it takes the next id and
  // succeeds exactly if the queue has room for the event. (The id is allocated when
  // the capture begins; both happen on one thread, so nobody asks for another one
  // in between.) Everything else - the PLC's moves, the drain, the worker, web
  // requests, captures by other mappings - may happen before, after and in between.

  import opened Bytes
  import opened GatewayTypes
  import opened SqlText
  import opened DrainLedger
  import H = Handshake
  import RamQueue
  import Serializer

  /** `hand` is the handshake of the mapping looked at, `gate` the rest of the gateway. */
  datatype Joint = Joint(hand: H.World, gate: View)

  datatype JointStep =
    | Tag(a: H.Action)
    | Queue(ev: CapturedEvent)
    | Gate(step: DrainStep)

  const ID_LIMIT: nat := 0x1_0000_0000_0000_0000

  ghost predicate HasRoom(v: View, ev: CapturedEvent)
    requires ValidEvent(ev) && v.ledger.nextId < ID_LIMIT
  {
    && |v.ledger.pending| < RamQueue.RAM_SLOTS
    && |Serializer.Encode(ev.(eventId := v.ledger.nextId))| <= MAX_SERIALIZED_EVENT
  }

  /** A capture that fails has used up an id as well. */
  ghost predicate TagStep(j: Joint, a: H.Action, k: Joint) {
    && !a.Append? && H.Enabled(j.hand, a) && k.hand == H.Next(j.hand, a)
    && k.gate == if a == H.CaptureTags(false) then j.gate.(ledger := Skipped(j.gate.ledger)) else j.gate
  }

  ghost function Skipped(l: Ledger): Ledger {
    l.(nextId := l.nextId + 1)
  }

  ghost predicate QueueStep(j: Joint, ev: CapturedEvent, k: Joint) {
    && j.hand.progress == H.Captured(true) && ValidEvent(ev) && j.gate.ledger.nextId < ID_LIMIT
    && k.hand == H.Next(j.hand, H.Append(HasRoom(j.gate, ev), j.gate.ledger.nextId))
    && k.gate == AfterCaptureStep(j.gate, ev)
  }

  ghost predicate GateStep(j: Joint, step: DrainStep, k: Joint, cfg: SqlConfig, fmt: Formats) {
    && (step.CaptureEvent? ==> ValidEvent(step.ev) && j.gate.ledger.nextId < ID_LIMIT)
    && Does(j.gate, step, k.gate, cfg, fmt) && k.hand == j.hand
  }

  ghost predicate Moves(j: Joint, step: JointStep, k: Joint, cfg: SqlConfig, fmt: Formats) {
    match step
    case Tag(a) => TagStep(j, a, k)
    case Queue(ev) => QueueStep(j, ev, k)
    case Gate(s) => GateStep(j, s, k, cfg, fmt)
  }

  ghost predicate JointRun(js: seq<Joint>, steps: seq<JointStep>, cfg: SqlConfig, fmt: Formats) {
    |js| == |steps| + 1 && forall i :: 0 <= i < |steps| ==> Moves(js[i], steps[i], js[i + 1], cfg, fmt)
  }

  // ----- The invariant -----

  ghost predicate GateOk(v: View, cfg: SqlConfig, fmt: Formats) {
    LedgerOk(v.ledger, cfg, fmt) && FlightFits(v.ledger, cfg, fmt, v.inflight, v.staged, v.job, v.failId, v.failCount)
  }

  function Flat(ps: seq<H.Pulse>): seq<nat> {
    if ps == [] then [] else Flat(ps[..|ps| - 1]) + ps[|ps| - 1].events
  }

  /** The events of all pulses so far, in the order they were queued. */
  function Answers(w: H.World): seq<nat> {
    Flat(w.pulses) + w.pulse.events
  }

  ghost predicate Ascending(ids: seq<nat>) {
    forall i, j :: 0 <= i < j < |ids| ==> ids[i] < ids[j]
  }

  /** They were all appended under an id of their own. */
  ghost predicate AnswersOk(ids: seq<nat>, l: Ledger) {
    && Ascending(ids)
    && forall i :: 0 <= i < |ids| ==> ids[i] < l.nextId && ids[i] < ID_LIMIT && ids[i] in l.appended
  }

  ghost predicate JointInv(j: Joint, cfg: SqlConfig, fmt: Formats) {
    H.Inv(j.hand) && GateOk(j.gate, cfg, fmt) && AnswersOk(Answers(j.hand), j.gate.ledger)
  }

  // ----- What the gateway's own steps keep -----

  lemma CaptureStepKeeps(v: View, ev: CapturedEvent, cfg: SqlConfig, fmt: Formats)
    requires GateOk(v, cfg, fmt) && ValidEvent(ev) && v.ledger.nextId < ID_LIMIT
    ensures var w := AfterCaptureStep(v, ev);
      && GateOk(w, cfg, fmt) && Extends(v.ledger, w.ledger) && w.ledger.nextId == v.ledger.nextId + 1
      && v.ledger.nextId !in v.ledger.appended && (HasRoom(v, ev) ==> v.ledger.nextId in w.ledger.appended)
  {
    hide Statement, Serializer.Encode, Serializer.PersistedFields, Serializer.PersistedValues, ValidEvent, LedgerOk, FlightFits;
    var l := v.ledger;
    FreshId(l, cfg, fmt);
    var id: u64 := l.nextId;
    var stamped := ev.(eventId := id);
    StampedValid(ev, id);
    var kept := Serializer.Persisted(stamped);
    CaptureFlight(l, cfg, fmt, v.inflight, v.staged, v.job, v.failId, v.failCount, id, kept);
    AllocateKeeps(l, cfg, fmt);
    CaptureKeeps(l.(nextId := id + 1), cfg, fmt, id, kept);
    CaptureExtends(l, id, kept);
  }

  lemma SkipKeeps(v: View, cfg: SqlConfig, fmt: Formats)
    requires GateOk(v, cfg, fmt)
    ensures GateOk(v.(ledger := Skipped(v.ledger)), cfg, fmt) && Extends(v.ledger, Skipped(v.ledger))
  {
    hide Statement, LedgerOk, Trailing;
    AllocateKeeps(v.ledger, cfg, fmt);
  }

  lemma DrainsOneKeeps(v: View, w: View, cfg: SqlConfig, fmt: Formats, id: u64)
    requires GateOk(v, cfg, fmt) && v.inflight == 0 && v.job == None && DrainsOne(v, w, cfg, fmt, id)
    ensures GateOk(w, cfg, fmt) && Extends(v.ledger, w.ledger)
  {
    hide Statement, LedgerOk, Trailing, FailedFiveTimes;
    PendingKnown(v.ledger, cfg, fmt, id);
    if !Writable(v.ledger.appended[id], cfg, fmt) {
      QuarantineKeeps(v.ledger, cfg, fmt, id);
      QuarantineFlight(v.ledger, cfg, fmt, id, v.staged, v.job, v.failId, v.failCount);
    }
  }

  lemma WorkKeeps(v: View, outcome: WriteOutcome, now: nat, cfg: SqlConfig, fmt: Formats)
    requires GateOk(v, cfg, fmt)
    ensures GateOk(AfterWork(v, outcome, now), cfg, fmt) && Extends(v.ledger, AfterWork(v, outcome, now).ledger)
  {
    hide Statement, LedgerOk, Trailing, Extends, AfterWrite, OwnStatement;
    WorkExtends(v, outcome, now);
    if v.job == Some(MutationJob) && outcome != NoConnection {
      WriteKeeps(v.ledger, cfg, fmt, v.inflight, v.staged.value, outcome == Succeeded, v.failId, v.failCount);
    }
  }

  /** Every step of the gateway keeps the ledger in order and forgets nothing. */
  lemma DoesKeeps(v: View, step: DrainStep, w: View, cfg: SqlConfig, fmt: Formats)
    requires step.CaptureEvent? ==> ValidEvent(step.ev) && v.ledger.nextId < ID_LIMIT
    requires GateOk(v, cfg, fmt) && Does(v, step, w, cfg, fmt)
    ensures GateOk(w, cfg, fmt) && Extends(v.ledger, w.ledger)
  {
    hide LedgerOk, Extends, ValidEvent, AfterCaptureStep, AfterWork, DrainsOne, FlightFits, Statement;
    NothingExtends(v.ledger);
    match step {
      case CaptureEvent(ev) => CaptureStepKeeps(v, ev, cfg, fmt);
      case Web => WebHarmless(v.ledger, cfg, fmt, v.inflight, v.staged, v.job, v.failId, v.failCount);
      case DrainOnce(now) =>
        if MayDrain(v, now) {
          var id :| DrainsOne(v, w, cfg, fmt, id);
          DrainsOneKeeps(v, w, cfg, fmt, id);
        }
      case Work(outcome, now) => WorkKeeps(v, outcome, now, cfg, fmt);
    }
  }

  // ----- What the handshake's steps keep -----

  lemma FlatOne(ps: seq<H.Pulse>, p: H.Pulse)
    ensures Flat(ps + [p]) == Flat(ps) + p.events
  {
    assert (ps + [p])[..|ps|] == ps;
  }

  /** Only an append that succeeds adds to the answers. */
  lemma AnswersStep(w: H.World, a: H.Action)
    requires H.Inv(w) && H.Enabled(w, a)
    ensures Answers(H.Next(w, a)) == Answers(w) + if a.Append? && a.ok then [a.id] else []
  {
    hide H.StateFits, H.ProgressFits, Flat;
    var v := H.Next(w, a);
    if a.LowerTrigger? {
      FlatOne(w.pulses, w.pulse);
      assert Answers(w) + [] == Answers(w);
    } else if a.Append? && a.ok {
      assert Answers(v) == Answers(w) + [a.id];
    } else {
      assert v.pulses == w.pulses && v.pulse.events == w.pulse.events;
    }
  }

  lemma AnswersKept(ids: seq<nat>, l: Ledger, m: Ledger)
    requires AnswersOk(ids, l) && Extends(l, m)
    ensures AnswersOk(ids, m)
  {
  }

  lemma TagKeeps(j: Joint, a: H.Action, k: Joint, cfg: SqlConfig, fmt: Formats)
    requires JointInv(j, cfg, fmt) && TagStep(j, a, k)
    ensures JointInv(k, cfg, fmt)
  {
    hide H.Inv, H.Enabled, H.Next, GateOk, AnswersOk, Extends;
    H.InvStep(j.hand, a);
    AnswersStep(j.hand, a);
    assert Answers(j.hand) + [] == Answers(j.hand);
    if a == H.CaptureTags(false) {
      SkipKeeps(j.gate, cfg, fmt);
      AnswersKept(Answers(j.hand), j.gate.ledger, k.gate.ledger);
    }
  }

  lemma QueueKeeps(j: Joint, ev: CapturedEvent, k: Joint, cfg: SqlConfig, fmt: Formats)
    requires JointInv(j, cfg, fmt) && QueueStep(j, ev, k)
    ensures JointInv(k, cfg, fmt)
  {
    hide H.Inv, H.Next, GateOk, ValidEvent, Extends, AfterCaptureStep, HasRoom;
    var id := j.gate.ledger.nextId;
    var a := H.Append(HasRoom(j.gate, ev), id);
    H.InvStep(j.hand, a);
    AnswersStep(j.hand, a);
    CaptureStepKeeps(j.gate, ev, cfg, fmt);
    AnswersKept(Answers(j.hand), j.gate.ledger, k.gate.ledger);
    assert Answers(j.hand) + [] == Answers(j.hand);
  }

  lemma JointKeeps(j: Joint, step: JointStep, k: Joint, cfg: SqlConfig, fmt: Formats)
    requires JointInv(j, cfg, fmt) && Moves(j, step, k, cfg, fmt)
    ensures JointInv(k, cfg, fmt)
  {
    hide TagStep, QueueStep, GateOk, AnswersOk, H.Inv, Does, ValidEvent;
    match step {
      case Tag(a) => TagKeeps(j, a, k, cfg, fmt);
      case Queue(ev) => QueueKeeps(j, ev, k, cfg, fmt);
      case Gate(s) =>
        DoesKeeps(j.gate, s, k.gate, cfg, fmt);
        AnswersKept(Answers(j.hand), j.gate.ledger, k.gate.ledger);
    }
  }

  lemma {:induction false} JointInvRun(js: seq<Joint>, steps: seq<JointStep>, cfg: SqlConfig, fmt: Formats, i: nat)
    requires JointRun(js, steps, cfg, fmt) && JointInv(js[0], cfg, fmt) && i < |js|
    ensures JointInv(js[i], cfg, fmt)
    decreases i
  {
    hide JointInv, Moves;
    if i > 0 {
      JointInvRun(js, steps, cfg, fmt, i - 1);
      JointKeeps(js[i - 1], steps[i - 1], js[i], cfg, fmt);
    }
  }

  // ----- Main results -----

  /** The event's own statement was executed on the server, and succeeded. */
  ghost predicate Delivered(l: Ledger, cfg: SqlConfig, fmt: Formats, id: u64)
    requires IdsFit(l) && id in l.appended
  {
    exists k :: 0 <= k < |l.log| && IsDelivery(l, cfg, fmt, id, l.log[k])
  }

  ghost predicate IsDelivery(l: Ledger, cfg: SqlConfig, fmt: Formats, id: u64, e: Executed)
    requires IdsFit(l) && id in l.appended
  {
    e.id == id && e.ok && Statement(l.appended[id], cfg, fmt) == Some(e.sql)
  }

  /** Waiting in the queue as it was captured, delivered, or given up - and then unwritable or failed five times in a row. */
  ghost predicate AccountedFor(l: Ledger, cfg: SqlConfig, fmt: Formats, id: nat) {
    && 0 < id < ID_LIMIT && IdsFit(l) && id in l.appended
    && match Whereabouts(l, id)
       case Waiting => id in l.pending && l.pending[id] == Some(l.appended[id])
       case Committed => Delivered(l, cfg, fmt, id)
       case Dropped => !Writable(l.appended[id], cfg, fmt) || FailedFiveTimes(l.log, id)
       case Unknown => false
  }

  datatype Place = Waiting | Committed | Dropped | Unknown

  /** Where the ledger has the event; `Unknown` if in no place or in several. */
  ghost function Whereabouts(l: Ledger, id: u64): Place {
    if id in l.pending && id !in l.committed && id !in l.quarantined then Waiting
    else if id !in l.pending && id in l.committed && id !in l.quarantined then Committed
    else if id !in l.pending && id !in l.committed && id in l.quarantined then Dropped
    else Unknown
  }

  ghost predicate PulseAccountedFor(p: H.Pulse, l: Ledger, cfg: SqlConfig, fmt: Formats) {
    && 1 <= |p.events| <= 1 + p.failedAcks
    && forall i :: 0 <= i < |p.events| ==> AccountedFor(l, cfg, fmt, p.events[i])
  }

  /** The same of a pulse that is still running, once the PLC sees it acknowledged. */
  ghost predicate RunningAccountedFor(w: H.World, l: Ledger, cfg: SqlConfig, fmt: Formats) {
    && (w.trigger && w.ack ==> |w.pulse.events| >= 1)
    && forall i :: 0 <= i < |w.pulse.events| ==> AccountedFor(l, cfg, fmt, w.pulse.events[i])
  }

  /** Each pulse has its events, all accounted for, and no event answers two pulses. */
  ghost predicate AllAccountedFor(j: Joint, cfg: SqlConfig, fmt: Formats) {
    && (forall i :: 0 <= i < |j.hand.pulses| ==> PulseAccountedFor(j.hand.pulses[i], j.gate.ledger, cfg, fmt))
    && RunningAccountedFor(j.hand, j.gate.ledger, cfg, fmt) && Ascending(Answers(j.hand))
  }

  lemma InLedger(l: Ledger, cfg: SqlConfig, fmt: Formats, id: u64)
    requires LedgerOk(l, cfg, fmt) && id in l.appended
    ensures AccountedFor(l, cfg, fmt, id)
  {
    hide Statement, Writable, FailedFiveTimes;
    if id in l.committed {
      assert WasWritten(l.log, id);
      var k :| 0 <= k < |l.log| && l.log[k].id == id && l.log[k].ok;
      assert OwnStatement(l, cfg, fmt, l.log[k]);
      assert IsDelivery(l, cfg, fmt, id, l.log[k]);
    }
    if id in l.quarantined {
      assert GivenUp(l, cfg, fmt, id);
    }
  }

  /** An event of the `i`-th pulse is among all of them. */
  lemma {:induction false} FlatHas(ps: seq<H.Pulse>, i: nat, k: nat)
    requires i < |ps| && k < |ps[i].events|
    ensures ps[i].events[k] in Flat(ps)
    decreases |ps|
  {
    var n := |ps| - 1;
    if i < n {
      FlatHas(ps[..n], i, k);
    }
  }

  lemma AnswerAccounted(j: Joint, cfg: SqlConfig, fmt: Formats, id: nat)
    requires JointInv(j, cfg, fmt) && id in Answers(j.hand)
    ensures AccountedFor(j.gate.ledger, cfg, fmt, id)
  {
    hide LedgerOk, FlightFits, AccountedFor, Answers, H.Inv;
    var ids := Answers(j.hand);
    var at :| 0 <= at < |ids| && ids[at] == id;
    assert id < ID_LIMIT && id in j.gate.ledger.appended;
    InLedger(j.gate.ledger, cfg, fmt, id);
  }

  lemma InvAccounts(j: Joint, cfg: SqlConfig, fmt: Formats)
    requires JointInv(j, cfg, fmt)
    ensures AllAccountedFor(j, cfg, fmt)
  {
    hide LedgerOk, FlightFits, AccountedFor, Flat, H.StateFits, H.ProgressFits;
    forall i, k | 0 <= i < |j.hand.pulses| && 0 <= k < |j.hand.pulses[i].events|
      ensures AccountedFor(j.gate.ledger, cfg, fmt, j.hand.pulses[i].events[k])
    {
      FlatHas(j.hand.pulses, i, k);
      AnswerAccounted(j, cfg, fmt, j.hand.pulses[i].events[k]);
    }
    forall k | 0 <= k < |j.hand.pulse.events|
      ensures AccountedFor(j.gate.ledger, cfg, fmt, j.hand.pulse.events[k])
    {
      AnswerAccounted(j, cfg, fmt, j.hand.pulse.events[k]);
    }
    forall i | 0 <= i < |j.hand.pulses|
      ensures PulseAccountedFor(j.hand.pulses[i], j.gate.ledger, cfg, fmt)
    {
      assert H.PulseServed(j.hand.pulses[i]);
    }
  }

  /** The gateway may have been running for any time before this mapping starts. */
  ghost predicate StartsWith(js: seq<Joint>, trigger: bool, ack: bool, v: View) {
    |js| > 0 && js[0] == Joint(H.Start(trigger, ack), v)
  }

  lemma RunAccounts(js: seq<Joint>, steps: seq<JointStep>, trigger: bool, ack: bool, v: View,
                    cfg: SqlConfig, fmt: Formats, i: nat)
    requires !(trigger && ack) && GateOk(v, cfg, fmt) && StartsWith(js, trigger, ack, v)
    requires JointRun(js, steps, cfg, fmt) && i < |js|
    ensures AllAccountedFor(js[i], cfg, fmt)
  {
    hide GateOk, AllAccountedFor, JointRun, H.Inv;
    H.StartInv(trigger, ack);
    assert Answers(js[0].hand) == [];
    JointInvRun(js, steps, cfg, fmt, i);
    InvAccounts(js[i], cfg, fmt);
  }

  ghost predicate AlwaysAccountedFor(js: seq<Joint>, cfg: SqlConfig, fmt: Formats) {
    forall i :: 0 <= i < |js| ==> AllAccountedFor(js[i], cfg, fmt)
  }

  /**
   * At every moment of every run of the PLC, the handshake, the queue, the drain
   * and the worker together, each completed trigger pulse, and each running one
   * that is acknowledged, has an event of its own that is waiting, delivered or
   * given up for cause - exactly if the two tags do not both start high.
   */
  lemma EveryPulseAccountedFor(trigger: bool, ack: bool, v: View, cfg: SqlConfig, fmt: Formats)
    requires GateOk(v, cfg, fmt)
    ensures (forall js, steps :: StartsWith(js, trigger, ack, v) && JointRun(js, steps, cfg, fmt)
                ==> AlwaysAccountedFor(js, cfg, fmt))
      <==> !(trigger && ack)
  {
    hide GateOk, AllAccountedFor, JointRun, StartsWith;
    if trigger && ack {
      LostPulse(v, cfg, fmt);
    } else {
      forall js, steps | StartsWith(js, trigger, ack, v) && JointRun(js, steps, cfg, fmt)
        ensures AlwaysAccountedFor(js, cfg, fmt)
      {
        forall i | 0 <= i < |js|
          ensures AllAccountedFor(js[i], cfg, fmt)
        {
          RunAccounts(js, steps, trigger, ack, v, cfg, fmt, i);
        }
      }
    }
  }

  lemma LostPulse(v: View, cfg: SqlConfig, fmt: Formats)
    ensures exists js, steps :: StartsWith(js, true, true, v) && JointRun(js, steps, cfg, fmt)
                && !AlwaysAccountedFor(js, cfg, fmt)
  {
    var w := H.Start(true, true);
    var lowered := H.Next(w, H.LowerTrigger);
    var js, steps := [Joint(w, v), Joint(lowered, v)], [Tag(H.LowerTrigger)];
    assert Moves(js[0], steps[0], js[1], cfg, fmt);
    assert JointRun(js, steps, cfg, fmt);
    assert !PulseAccountedFor(lowered.pulses[0], v.ledger, cfg, fmt);
    assert !AllAccountedFor(js[1], cfg, fmt);
  }
}
