/** What becomes of captured events. */
module DrainLedger {
  // A ledger of where each event is and of every statement executed, and what each
  // step of the gateway does to it.

  import opened Bytes
  import opened GatewayTypes
  import opened SqlText
  import SqlBuild
  import Serializer
  import RamQueue
  import Scheduler

  const SQL_CAP: nat := 768
  const BACKOFF_TICKS: nat := 100
  const QUARANTINE_AFTER: nat := 5

  datatype Job = WebJob | MutationJob

  /** What the server makes of a staged write; without a connection nobody is notified. */
  datatype WriteOutcome = NoConnection | Succeeded | Failed

  /** One execution of the event's statement on the server. */
  datatype Executed = Executed(id: u64, sql: string, ok: bool)

  /** The event has a statement and it fits the buffer. */
  ghost predicate Writable(ev: CapturedEvent, cfg: SqlConfig, fmt: Formats)
    requires |ev.fields| == |ev.values|
  {
    Statement(ev, cfg, fmt).Some? && |Statement(ev, cfg, fmt).value| < 768
  }

  /** The last `n` executions were failed ones of that event. */
  ghost predicate Trailing(log: seq<Executed>, id: u64, n: nat) {
    n <= |log| && forall j :: |log| - n <= j < |log| ==> log[j].id == id && !log[j].ok
  }

  ghost predicate FailedFiveTimes(log: seq<Executed>, id: u64) {
    exists k :: 0 <= k <= |log| && Trailing(log[..k], id, 5)
  }

  ghost predicate WasWritten(log: seq<Executed>, id: u64) {
    exists k :: 0 <= k < |log| && log[k].id == id && log[k].ok
  }

  /** What became of every event ever appended, and every statement executed. */
  datatype Ledger = Ledger(
    pending: map<u64, Option<CapturedEvent>>,
    appended: map<u64, CapturedEvent>,
    committed: set<u64>,
    quarantined: set<u64>,
    log: seq<Executed>,
    nextId: nat)

  /** Each appended event is in exactly one of three places, and the queue still holds it unchanged. */
  ghost predicate Conserved(l: Ledger) {
    && l.appended.Keys == l.pending.Keys + l.committed + l.quarantined
    && l.pending.Keys !! l.committed && l.pending.Keys !! l.quarantined && l.committed !! l.quarantined
    && (forall id :: id in l.pending ==> l.pending[id] == Some(l.appended[id]))
  }

  ghost predicate IdsFit(l: Ledger) {
    l.nextId > 0
    && forall id :: id in l.appended ==> 0 < id < l.nextId && |l.appended[id].fields| == |l.appended[id].values|
  }

  /** Why an event may be quarantined. */
  ghost predicate GivenUp(l: Ledger, cfg: SqlConfig, fmt: Formats, id: u64)
    requires IdsFit(l)
  {
    id in l.appended && (!Writable(l.appended[id], cfg, fmt) || FailedFiveTimes(l.log, id))
  }

  ghost predicate OwnStatement(l: Ledger, cfg: SqlConfig, fmt: Formats, e: Executed)
    requires IdsFit(l)
  {
    e.id in l.appended && Statement(l.appended[e.id], cfg, fmt) == Some(e.sql)
  }

  /** What is executed is the event's own statement; committed means executed, quarantined means given up. */
  ghost predicate Justified(l: Ledger, cfg: SqlConfig, fmt: Formats) {
    && IdsFit(l)
    && (forall k :: 0 <= k < |l.log| ==> OwnStatement(l, cfg, fmt, l.log[k]))
    && (forall id :: id in l.committed ==> WasWritten(l.log, id))
    && (forall id :: id in l.quarantined ==> GivenUp(l, cfg, fmt, id))
  }

  ghost predicate LedgerOk(l: Ledger, cfg: SqlConfig, fmt: Formats) {
    Conserved(l) && Justified(l, cfg, fmt)
  }

  // ----- The ledger's steps -----

  lemma LogGrows(log: seq<Executed>, e: Executed, id: u64)
    ensures FailedFiveTimes(log, id) ==> FailedFiveTimes(log + [e], id)
    ensures WasWritten(log, id) ==> WasWritten(log + [e], id)
  {
    if FailedFiveTimes(log, id) {
      var k :| 0 <= k <= |log| && Trailing(log[..k], id, QUARANTINE_AFTER);
      assert (log + [e])[..k] == log[..k];
    }
    if WasWritten(log, id) {
      var k :| 0 <= k < |log| && log[k].id == id && log[k].ok;
      assert (log + [e])[k] == log[k];
    }
  }

  lemma FailureCounts(log: seq<Executed>, id: u64, sql: string, n: nat)
    requires Trailing(log, id, n)
    ensures Trailing(log + [Executed(id, sql, false)], id, n + 1)
    ensures n + 1 == QUARANTINE_AFTER ==> FailedFiveTimes(log + [Executed(id, sql, false)], id)
  {
    var longer := log + [Executed(id, sql, false)];
    assert longer[..|longer|] == longer;
  }

  function AfterCapture(l: Ledger, id: u64, ev: CapturedEvent): Ledger {
    l.(pending := l.pending[id := Some(ev)], appended := l.appended[id := ev])
  }

  function AfterExecution(l: Ledger, e: Executed): Ledger {
    l.(log := l.log + [e],
       pending := if e.ok then l.pending - {e.id} else l.pending,
       committed := if e.ok then l.committed + {e.id} else l.committed)
  }

  function AfterQuarantine(l: Ledger, id: u64): Ledger {
    l.(pending := l.pending - {id}, quarantined := l.quarantined + {id})
  }

  lemma CaptureKeeps(l: Ledger, cfg: SqlConfig, fmt: Formats, id: u64, ev: CapturedEvent)
    requires LedgerOk(l, cfg, fmt) && 0 < id < l.nextId && id !in l.appended && |ev.fields| == |ev.values|
    ensures LedgerOk(AfterCapture(l, id, ev), cfg, fmt)
  {
    hide Statement, Writable, FailedFiveTimes, WasWritten, GivenUp, OwnStatement;
    var v := AfterCapture(l, id, ev);
    assert IdsFit(v);
    forall q | q in v.quarantined
      ensures GivenUp(v, cfg, fmt, q)
    {
      assert GivenUp(l, cfg, fmt, q);
      StillGivenUp(l, v, cfg, fmt, q);
    }
    forall k | 0 <= k < |v.log|
      ensures OwnStatement(v, cfg, fmt, v.log[k])
    {
      assert OwnStatement(l, cfg, fmt, l.log[k]);
      StillOwn(l, v, cfg, fmt, l.log[k]);
    }
  }

  lemma StillGivenUp(l: Ledger, v: Ledger, cfg: SqlConfig, fmt: Formats, id: u64)
    requires IdsFit(l) && IdsFit(v) && l.log == v.log && GivenUp(l, cfg, fmt, id)
    requires id in v.appended && v.appended[id] == l.appended[id]
    ensures GivenUp(v, cfg, fmt, id)
  {
    hide Writable, FailedFiveTimes;
  }

  lemma StillOwn(l: Ledger, v: Ledger, cfg: SqlConfig, fmt: Formats, e: Executed)
    requires IdsFit(l) && IdsFit(v) && OwnStatement(l, cfg, fmt, e)
    requires e.id in l.appended ==> e.id in v.appended && v.appended[e.id] == l.appended[e.id]
    ensures OwnStatement(v, cfg, fmt, e)
  {
    hide Statement;
  }

  lemma AllocateKeeps(l: Ledger, cfg: SqlConfig, fmt: Formats)
    requires LedgerOk(l, cfg, fmt)
    ensures LedgerOk(l.(nextId := l.nextId + 1), cfg, fmt)
  {
    hide Statement, Writable, FailedFiveTimes, WasWritten;
  }

  lemma ExecutionKeeps(l: Ledger, cfg: SqlConfig, fmt: Formats, e: Executed)
    requires LedgerOk(l, cfg, fmt) && e.id in l.pending && Statement(l.appended[e.id], cfg, fmt) == Some(e.sql)
    ensures LedgerOk(AfterExecution(l, e), cfg, fmt)
  {
    hide Statement, Writable, FailedFiveTimes, WasWritten;
    var v := AfterExecution(l, e);
    assert v.log[|l.log|] == e;
    forall id | id in v.committed
      ensures WasWritten(v.log, id)
    {
      LogGrows(l.log, e, id);
      if id == e.id && e.ok {
        NowWritten(l.log, e);
      }
    }
    forall id | id in v.quarantined
      ensures GivenUp(v, cfg, fmt, id)
    {
      assert GivenUp(l, cfg, fmt, id);
      LogGrows(l.log, e, id);
    }
  }

  lemma NowWritten(log: seq<Executed>, e: Executed)
    requires e.ok
    ensures WasWritten(log + [e], e.id)
  {
    assert (log + [e])[|log|] == e;
  }

  lemma QuarantineKeeps(l: Ledger, cfg: SqlConfig, fmt: Formats, id: u64)
    requires LedgerOk(l, cfg, fmt) && id in l.pending && GivenUp(l, cfg, fmt, id)
    ensures LedgerOk(AfterQuarantine(l, id), cfg, fmt)
  {
    hide Statement, Writable, FailedFiveTimes, WasWritten;
    var v := AfterQuarantine(l, id);
    forall q | q in v.quarantined
      ensures GivenUp(v, cfg, fmt, q)
    {
      assert GivenUp(l, cfg, fmt, q);
    }
  }

  // ----- The gateway -----

  /** The event in flight is pending, and what is staged is its statement; fewer than five failures are counted. */
  ghost predicate FlightFits(l: Ledger, cfg: SqlConfig, fmt: Formats, inflight: u64, staged: Option<string>,
                             job: Option<Job>, failId: u64, failCount: nat) {
    && IdsFit(l)
    && (inflight != 0
        ==> inflight in l.pending && staged.Some? && OwnStatement(l, cfg, fmt, Executed(inflight, staged.value, true)))
    && (job == Some(MutationJob) ==> inflight != 0)
    && failCount < QUARANTINE_AFTER && (failCount > 0 ==> Trailing(l.log, failId, failCount))
  }

  /** One pending event that has no statement, or too long a one, was quarantined. */
  ghost predicate DroppedUnwritable(before: Ledger, after: Ledger, cfg: SqlConfig, fmt: Formats) {
    exists id :: id in before.pending && after == AfterQuarantine(before, id) && IdsFit(before) && id in before.appended
                 && !Writable(before.appended[id], cfg, fmt)
  }

  /** The ledger after the worker ran the write in flight. */
  ghost function AfterWrite(l: Ledger, e: Executed, failId: u64, failCount: nat): Ledger {
    var v := AfterExecution(l, e);
    if !e.ok && e.id == failId && failCount + 1 == QUARANTINE_AFTER then AfterQuarantine(v, e.id) else v
  }

  /** Nothing that was settled is ever unsettled, and nothing appended is forgotten. */
  ghost predicate Extends(before: Ledger, after: Ledger) {
    && (forall id :: id in before.appended ==> id in after.appended && after.appended[id] == before.appended[id])
    && before.committed <= after.committed && before.quarantined <= after.quarantined && before.log <= after.log
    && before.nextId <= after.nextId
  }

  /** Nothing was settled in between. */
  ghost predicate Frozen(before: Ledger, after: Ledger) {
    after.committed == before.committed && after.quarantined == before.quarantined && after.log == before.log
  }

  lemma CaptureExtends(l: Ledger, id: u64, ev: CapturedEvent)
    ensures var next := l.(nextId := l.nextId + 1);
      && Extends(l, next) && Frozen(l, next)
      && (id !in l.appended ==> Extends(l, AfterCapture(next, id, ev)) && Frozen(l, AfterCapture(next, id, ev)))
  {
  }

  lemma NothingExtends(l: Ledger)
    ensures Extends(l, l) && Frozen(l, l)
  {
  }

  lemma DroppedExtends(before: Ledger, after: Ledger, cfg: SqlConfig, fmt: Formats)
    requires DroppedUnwritable(before, after, cfg, fmt)
    ensures Extends(before, after)
  {
    hide Writable, IdsFit;
  }

  lemma WriteExtends(l: Ledger, e: Executed, failId: u64, failCount: nat)
    ensures Extends(l, AfterWrite(l, e, failId, failCount))
  {
  }

  // ----- What each step does, exactly -----

  datatype DrainStep = CaptureEvent(ev: CapturedEvent) | Web | DrainOnce(now: nat) | Work(outcome: WriteOutcome, now: nat)

  /** All that the gateway's own state amounts to. */
  datatype View = View(
    ledger: Ledger,
    inflight: u64,
    staged: Option<string>,
    job: Option<Job>,
    failId: u64,
    failCount: nat,
    backoffUntil: nat)

  /** The id is used up either way; the event is queued if there is a slot and it fits one. */
  ghost function AfterCaptureStep(v: View, ev: CapturedEvent): View
    requires ValidEvent(ev) && v.ledger.nextId < 0x1_0000_0000_0000_0000
  {
    var id: u64 := v.ledger.nextId;
    var stamped := ev.(eventId := id);
    var l := v.ledger.(nextId := id + 1);
    var ok := |l.pending| < RamQueue.RAM_SLOTS && |Serializer.Encode(stamped)| <= MAX_SERIALIZED_EVENT;
    v.(ledger := if ok then AfterCapture(l, id, Serializer.Persisted(stamped)) else l)
  }

  function AfterWeb(v: View): View {
    v.(job := if v.job == None then Some(WebJob) else v.job)
  }

  predicate MayDrain(v: View, now: nat) {
    v.job == None && v.inflight == 0 && Scheduler.Due(now, v.backoffUntil) && v.ledger.pending != map[]
  }

  /** Some pending event is staged with its own statement, or dropped for want of one. */
  ghost predicate DrainsOne(v: View, w: View, cfg: SqlConfig, fmt: Formats, id: u64) {
    && id in v.ledger.pending && IdsFit(v.ledger) && id in v.ledger.appended
    && if Writable(v.ledger.appended[id], cfg, fmt)
       then w.job in {Some(WebJob), Some(MutationJob)}
            && w == v.(inflight := id, staged := Statement(v.ledger.appended[id], cfg, fmt), job := w.job)
       else w == v.(ledger := AfterQuarantine(v.ledger, id))
  }

  ghost predicate Drains(v: View, now: nat, w: View, cfg: SqlConfig, fmt: Formats) {
    if MayDrain(v, now) then exists id :: DrainsOne(v, w, cfg, fmt, id) else w == v
  }

  /** A job other than a write, or one that found no connection, only leaves the gate open. */
  ghost function AfterWork(v: View, outcome: WriteOutcome, now: nat): View {
    if v.job != Some(MutationJob) || outcome == NoConnection || v.staged == None then v.(job := None)
    else
      var l := AfterWrite(v.ledger, Executed(v.inflight, v.staged.value, outcome == Succeeded), v.failId, v.failCount);
      var count := if v.inflight == v.failId then v.failCount + 1 else 1;
      if outcome == Succeeded then View(l, 0, None, None, 0, 0, 0)
      else if count == QUARANTINE_AFTER then View(l, 0, v.staged, None, 0, 0, now + BACKOFF_TICKS)
      else View(l, 0, v.staged, None, v.inflight, count, now + BACKOFF_TICKS)
  }

  // ----- The job at hand, outcome by outcome -----

  /** A web request takes an idle worker and no other. */
  lemma WebRequested(v: View)
    ensures AfterWeb(v) == if v.job == None then v.(job := Some(WebJob)) else v
  {
  }

  /** A capture: the id is used up; the event is queued as it is stored if fewer than 128 are pending and its image fits. */
  lemma CaptureStepped(v: View, ev: CapturedEvent)
    requires ValidEvent(ev) && v.ledger.nextId < 0x1_0000_0000_0000_0000
    ensures var w, l, id := AfterCaptureStep(v, ev), v.ledger, v.ledger.nextId;
      var kept := |l.pending| < 128 && |Serializer.Encode(ev.(eventId := id))| <= 1024;
      && w == v.(ledger := w.ledger) && w.ledger.nextId == id + 1
      && w.ledger.log == l.log && w.ledger.committed == l.committed && w.ledger.quarantined == l.quarantined
      && w.ledger.pending == (if kept then l.pending[id := Some(Serializer.Persisted(ev.(eventId := id)))] else l.pending)
      && w.ledger.appended == if kept then l.appended[id := Serializer.Persisted(ev.(eventId := id))] else l.appended
  {
    hide Serializer.Encode, ValidEvent, Serializer.PersistedFields, Serializer.PersistedValues;
  }

  /** A write that failed, logged; the event goes back to waiting, or after the fifth failure in a row it is set aside. */
  lemma FailedWrite(v: View, now: nat)
    requires v.job == Some(MutationJob) && v.staged.Some?
    ensures var w, l := AfterWork(v, Failed, now), v.ledger;
      var count := if v.inflight == v.failId then v.failCount + 1 else 1;
      && w.inflight == 0 && w.job == None && w.backoffUntil == now + 100 && w.staged == v.staged
      && w.ledger.log == l.log + [Executed(v.inflight, v.staged.value, false)]
      && w.ledger.committed == l.committed && w.ledger.appended == l.appended && w.ledger.nextId == l.nextId
      && (count != 5 ==> w.failId == v.inflight && w.failCount == count
                         && w.ledger.pending == l.pending && w.ledger.quarantined == l.quarantined)
      && (count == 5 ==> w.failId == 0 && w.failCount == 0
                         && w.ledger.pending == l.pending - {v.inflight} && w.ledger.quarantined == l.quarantined + {v.inflight})
  {
  }

  /** A write that succeeded, logged; the event is committed and the count of failures cleared. */
  lemma SucceededWrite(v: View, now: nat)
    requires v.job == Some(MutationJob) && v.staged.Some?
    ensures var w, l := AfterWork(v, Succeeded, now), v.ledger;
      && w.inflight == 0 && w.job == None && w.backoffUntil == 0 && w.staged == None && w.failId == 0 && w.failCount == 0
      && w.ledger == Ledger(l.pending - {v.inflight}, l.appended, l.committed + {v.inflight}, l.quarantined,
                            l.log + [Executed(v.inflight, v.staged.value, true)], l.nextId)
  {
  }

  /** Any other job, or one without a connection, leaves all but the gate as it was: an event in flight stays there. */
  lemma OtherWork(v: View, outcome: WriteOutcome, now: nat)
    requires v.job != Some(MutationJob) || outcome == NoConnection
    ensures AfterWork(v, outcome, now) == v.(job := None)
  {
  }

  /** The same event put in flight again and failing again, once for each of the ticks. */
  ghost function FailingAgain(v: View, id: u64, nows: seq<nat>): View {
    if nows == [] then v
    else AfterWork(FailingAgain(v, id, nows[..|nows| - 1]).(inflight := id, job := Some(MutationJob)), Failed, nows[|nows| - 1])
  }

  /** An event is set aside by its fifth failure in a row and no earlier. */
  lemma {:induction false} FifthFailure(v: View, id: u64, nows: seq<nat>)
    requires v.staged.Some? && (v.failId == id ==> v.failCount == 0) && |nows| <= 5
    requires id in v.ledger.pending && id !in v.ledger.quarantined
    ensures var w := FailingAgain(v, id, nows);
      && w.staged == v.staged && (id in w.ledger.quarantined <==> |nows| == 5) && (id in w.ledger.pending <==> |nows| < 5)
      && (0 < |nows| < 5 ==> w.failId == id && w.failCount == |nows|) && (nows == [] ==> w == v)
    decreases |nows|
  {
    hide AfterWork;
    if nows != [] {
      var n := |nows| - 1;
      FifthFailure(v, id, nows[..n]);
      FailedWrite(FailingAgain(v, id, nows[..n]).(inflight := id, job := Some(MutationJob)), nows[n]);
    }
  }

  ghost predicate Does(v: View, step: DrainStep, w: View, cfg: SqlConfig, fmt: Formats)
    requires step.CaptureEvent? ==> ValidEvent(step.ev) && v.ledger.nextId < 0x1_0000_0000_0000_0000
  {
    match step
    case CaptureEvent(ev) => w == AfterCaptureStep(v, ev)
    case Web => w == AfterWeb(v)
    case DrainOnce(now) => Drains(v, now, w, cfg, fmt)
    case Work(outcome, now) => w == AfterWork(v, outcome, now)
  }

  lemma StampedValid(ev: CapturedEvent, id: u64)
    requires ValidEvent(ev)
    ensures ValidEvent(ev.(eventId := id)) && |ev.fields| == |ev.values|
  {
  }

  lemma FreshId(l: Ledger, cfg: SqlConfig, fmt: Formats)
    requires LedgerOk(l, cfg, fmt)
    ensures l.nextId > 0 && forall id :: id in l.appended ==> id < l.nextId
  {
    hide Statement, WasWritten, GivenUp;
  }

  /** What is known of an event that the queue hands out. */
  lemma PendingKnown(l: Ledger, cfg: SqlConfig, fmt: Formats, id: u64)
    requires LedgerOk(l, cfg, fmt) && id in l.pending
    ensures IdsFit(l) && id in l.appended && id != 0 && l.pending[id] == Some(l.appended[id])
    ensures |l.appended[id].fields| == |l.appended[id].values|
  {
    hide Statement, Writable, FailedFiveTimes, WasWritten;
  }

  lemma BuildRefused(l: Ledger, cfg: SqlConfig, fmt: Formats, id: u64)
    requires IdsFit(l) && id in l.appended
    ensures SqlBuild.Builds(l.appended[id], cfg, fmt, SQL_CAP, false, "") ==> !Writable(l.appended[id], cfg, fmt)
    ensures !Writable(l.appended[id], cfg, fmt) ==> GivenUp(l, cfg, fmt, id)
  {
    hide Statement;
  }

  lemma QuarantineFlight(l: Ledger, cfg: SqlConfig, fmt: Formats, id: u64, staged: Option<string>, job: Option<Job>,
                         failId: u64, failCount: nat)
    requires FlightFits(l, cfg, fmt, 0, staged, job, failId, failCount)
    ensures FlightFits(AfterQuarantine(l, id), cfg, fmt, 0, staged, job, failId, failCount)
  {
    hide Statement;
  }

  /** A new event does not touch the one in flight. */
  lemma CaptureFlight(l: Ledger, cfg: SqlConfig, fmt: Formats, inflight: u64, staged: Option<string>, job: Option<Job>,
                      failId: u64, failCount: nat, id: u64, ev: CapturedEvent)
    requires FlightFits(l, cfg, fmt, inflight, staged, job, failId, failCount)
    requires id !in l.appended && 0 < id == l.nextId && |ev.fields| == |ev.values|
    ensures var next := l.(nextId := id + 1);
      && FlightFits(next, cfg, fmt, inflight, staged, job, failId, failCount)
      && FlightFits(AfterCapture(next, id, ev), cfg, fmt, inflight, staged, job, failId, failCount)
  {
    hide Statement, Trailing;
  }

  lemma FlightStarts(l: Ledger, cfg: SqlConfig, fmt: Formats, id: u64, sql: string, staged: Option<string>, job: Option<Job>,
                     failId: u64, failCount: nat)
    requires FlightFits(l, cfg, fmt, 0, staged, job, failId, failCount) && id in l.pending && id in l.appended && id != 0
    requires SqlBuild.Builds(l.appended[id], cfg, fmt, SQL_CAP, true, sql)
    ensures FlightFits(l, cfg, fmt, id, Some(sql), Some(WebJob), failId, failCount)
    ensures FlightFits(l, cfg, fmt, id, Some(sql), Some(MutationJob), failId, failCount)
    ensures Writable(l.appended[id], cfg, fmt)
  {
    hide Statement;
  }

  /** A write that reached the server keeps the ledger in order, and so does the count of failures after it. */
  lemma WriteKeeps(l: Ledger, cfg: SqlConfig, fmt: Formats, id: u64, sql: string, ok: bool, failId: u64, failCount: nat)
    requires LedgerOk(l, cfg, fmt)
    requires FlightFits(l, cfg, fmt, id, Some(sql), Some(MutationJob), failId, failCount)
    ensures var v := AfterWrite(l, Executed(id, sql, ok), failId, failCount);
      && LedgerOk(v, cfg, fmt)
      && (ok ==> FlightFits(v, cfg, fmt, 0, None, None, 0, 0))
      && (!ok ==> var count := if id == failId then failCount + 1 else 1;
          FlightFits(v, cfg, fmt, 0, Some(sql), None, id, if count == QUARANTINE_AFTER then 0 else count)
          && FlightFits(v, cfg, fmt, 0, Some(sql), None, 0, 0))
  {
    hide Statement, LedgerOk, Writable, Trailing, FailedFiveTimes;
    PendingKnown(l, cfg, fmt, id);
    var e := Executed(id, sql, ok);
    ExecutionKeeps(l, cfg, fmt, e);
    var v := AfterExecution(l, e);
    assert IdsFit(v);
    if !ok {
      NoFailures(l.log, id);
      var count := if id == failId then failCount else 0;
      FailureCounts(l.log, id, sql, count);
      if count + 1 == QUARANTINE_AFTER {
        assert GivenUp(v, cfg, fmt, id);
        QuarantineKeeps(v, cfg, fmt, id);
      }
    }
  }

  lemma NoFailures(log: seq<Executed>, id: u64)
    ensures Trailing(log, id, 0)
  {
  }

  lemma WorkExtends(v: View, outcome: WriteOutcome, now: nat)
    ensures Extends(v.ledger, AfterWork(v, outcome, now).ledger)
  {
    hide AfterWrite, Extends;
    NothingExtends(v.ledger);
    if v.staged.Some? {
      WriteExtends(v.ledger, Executed(v.inflight, v.staged.value, outcome == Succeeded), v.failId, v.failCount);
    }
  }

  lemma WebHarmless(l: Ledger, cfg: SqlConfig, fmt: Formats, inflight: u64, staged: Option<string>, job: Option<Job>,
                    failId: u64, failCount: nat)
    requires FlightFits(l, cfg, fmt, inflight, staged, job, failId, failCount)
    ensures FlightFits(l, cfg, fmt, inflight, staged, Some(WebJob), failId, failCount)
  {
    hide Statement, Trailing;
  }

  ghost predicate Sensible(steps: seq<DrainStep>) {
    forall i :: 0 <= i < |steps| && steps[i].CaptureEvent? ==> ValidEvent(steps[i].ev)
  }

  /** The states passed through, each the next step's doing. */
  ghost predicate Passes(views: seq<View>, steps: seq<DrainStep>, cfg: SqlConfig, fmt: Formats) {
    |views| == |steps| + 1 && forall i :: 0 <= i < |steps| ==> DoesAt(views, steps, cfg, fmt, i)
  }

  ghost predicate DoesAt(views: seq<View>, steps: seq<DrainStep>, cfg: SqlConfig, fmt: Formats, i: nat)
    requires i < |steps| < |views|
  {
    && (steps[i].CaptureEvent? ==> ValidEvent(steps[i].ev) && views[i].ledger.nextId < 0x1_0000_0000_0000_0000)
    && Does(views[i], steps[i], views[i + 1], cfg, fmt)
  }

  lemma PassesOn(views: seq<View>, steps: seq<DrainStep>, w: View, cfg: SqlConfig, fmt: Formats, n: nat)
    requires n < |steps| && Passes(views, steps[..n], cfg, fmt)
    requires steps[n].CaptureEvent? ==> ValidEvent(steps[n].ev) && views[n].ledger.nextId < 0x1_0000_0000_0000_0000
    requires Does(views[n], steps[n], w, cfg, fmt)
    ensures Passes(views + [w], steps[..n + 1], cfg, fmt)
  {
    hide Does, ValidEvent;
    var more, longer := views + [w], steps[..n + 1];
    forall i | 0 <= i < |longer|
      ensures DoesAt(more, longer, cfg, fmt, i)
    {
      if i < n {
        assert DoesAt(views, steps[..n], cfg, fmt, i);
      }
    }
  }

  lemma NoSteps(views: seq<View>, steps: seq<DrainStep>, cfg: SqlConfig, fmt: Formats)
    requires |views| == 1
    ensures Passes(views, steps[..0], cfg, fmt)
  {
  }
}
