/**
 * The drain: peek an event, build its SQL, stage it, have the worker execute
 * it, then commit it, back off or quarantine it.
 *
 * The gateway thread runs the drain and the worker in turn; web requests take
 * the worker at any moment. Writes staged from the web share the staging
 * buffer with the gateway and are not part of the model.
 */
module Drain {
  import opened Bytes
  import opened GatewayTypes
  import opened SqlText
  import opened DrainLedger
  import SqlBuild
  import Serializer
  import RamQueue
  import Scheduler

  class Gateway {
    const queue: RamQueue.Queue
    const cfg: SqlConfig
    const fmt: Formats
    var inflight: u64
    var failId: u64
    var failCount: nat
    var backoffUntil: nat
    var job: Option<Job>
    var staged: Option<string>
    ghost var ledger: Ledger

    ghost predicate Valid()
      reads this, queue, queue.slots
    {
      && queue.Valid()
      && ledger.pending == queue.Pending() && ledger.nextId == queue.nextId
      && LedgerOk(ledger, cfg, fmt)
      && FlightFits(ledger, cfg, fmt, inflight, staged, job, failId, failCount)
    }

    ghost function Now(): View
      reads this
    {
      View(ledger, inflight, staged, job, failId, failCount, backoffUntil)
    }

    /** An event is in flight but no write was accepted for it: nothing will ever report on it. */
    ghost predicate Stalled()
      reads this
    {
      inflight != 0 && job != Some(MutationJob)
    }

    constructor (cfg: SqlConfig, fmt: Formats)
      ensures Valid() && !Stalled() && ledger.appended == map[] && fresh(queue) && fresh(queue.slots)
    {
      this.cfg, this.fmt := cfg, fmt;
      queue := new RamQueue.Queue();
      inflight, failId, failCount, backoffUntil := 0, 0, 0, 0;
      job, staged := None, None;
      ledger := Ledger(map[], map[], {}, {}, [], 1);
    }

    /** CapturePayload and QueueAppend. */
    method Capture(ev: CapturedEvent) returns (ok: bool, id: u64)
      requires Valid() && ValidEvent(ev) && queue.nextId + 1 < 0x1_0000_0000_0000_0000
      modifies this`ledger, queue, queue.slots
      ensures Valid() && queue.slots == old(queue.slots)
      ensures id == old(ledger.nextId) && id !in old(ledger.appended) && (ok ==> id in ledger.pending)
      ensures Now() == AfterCaptureStep(old(Now()), ev)
      ensures var l := old(ledger).(nextId := old(ledger.nextId) + 1);
        ledger == if ok then AfterCapture(l, id, Serializer.Persisted(ev.(eventId := id))) else l
      ensures queue.nextId == old(queue.nextId) + 1
      ensures ok <==> |old(ledger.pending)| < 128 && |Serializer.Encode(ev.(eventId := id))| <= 1024
    {
      hide Statement, Serializer.Encode, Serializer.PersistedFields, Serializer.PersistedValues, ValidEvent;
      hide LedgerOk, FlightFits, RamQueue.Contents, RamQueue.SoundSlots;
      id := queue.AllocateEventId();
      AllocateKeeps(ledger, cfg, fmt);
      FreshId(ledger, cfg, fmt);
      var stamped := ev.(eventId := id);
      StampedValid(ev, id);
      CaptureFlight(ledger, cfg, fmt, inflight, staged, job, failId, failCount, id, Serializer.Persisted(stamped));
      ledger := ledger.(nextId := ledger.nextId + 1);
      ok := queue.Append(stamped);
      if ok {
        CaptureKeeps(ledger, cfg, fmt, id, Serializer.Persisted(stamped));
        ledger := AfterCapture(ledger, id, Serializer.Persisted(stamped));
      }
    }

    /** A web request other than a staged write; refused while the worker is busy. */
    method WebRequest()
      modifies this`job
      ensures job == if old(job) == None then Some(WebJob) else old(job)
    {
      if job == None {
        job := Some(WebJob);
      }
    }

    /**
     * SqlDrainOnePending as RuntimePoll calls it. A web request may take the
     * worker after the busy check; then the event is in flight for nothing.
     */
    method DrainOnePending(now: nat) returns (started: bool)
      requires Valid()
      modifies this`inflight, this`staged, this`job, this`ledger, queue, queue.slots
      ensures Valid() && queue.slots == old(queue.slots)
      ensures Drains(old(Now()), now, Now(), cfg, fmt)
      ensures started <==> inflight != old(inflight)
      ensures started ==> old(inflight) == 0 && ledger == old(ledger) && job.Some?
      ensures !started ==> job == old(job) && staged == old(staged)
      ensures ledger == old(ledger) || DroppedUnwritable(old(ledger), ledger, cfg, fmt)
      ensures Stalled() <==> old(Stalled()) || (started && job == Some(WebJob))
      ensures queue.nextId == old(queue.nextId)
    {
      hide Statement, LedgerOk, FlightFits, RamQueue.Contents, RamQueue.SoundSlots;
      started := false;
      if job.Some? || !Scheduler.Due(now, backoffUntil) || inflight != 0 {
        return;
      }
      var ev, slot := queue.PeekPending();
      if ev == None {
        return;
      }
      var id := ev.value.eventId;
      ghost var before := Now();
      PendingKnown(ledger, cfg, fmt, id);
      var ok, sql := SqlBuild.BuildSqlFromEvent(ev.value, cfg, fmt, SQL_CAP);
      if !ok {
        BuildRefused(ledger, cfg, fmt, id);
        QuarantineKeeps(ledger, cfg, fmt, id);
        QuarantineFlight(ledger, cfg, fmt, id, staged, job, failId, failCount);
        var _ := queue.Quarantine(id);
        ledger := AfterQuarantine(ledger, id);
        assert DrainsOne(before, Now(), cfg, fmt, id);
        return;
      }
      FlightStarts(ledger, cfg, fmt, id, sql, staged, job, failId, failCount);
      staged, inflight := Some(sql), id;
      var webFirst: bool := *;
      if webFirst {
        WebRequest();
      }
      if job == None {
        job := Some(MutationJob);
      }
      assert DrainsOne(before, Now(), cfg, fmt, id);
      started := true;
    }

    /** SqlRuntimePoll: runs the accepted job, then opens the gate again. */
    method SqlRuntimePoll(outcome: WriteOutcome, now: nat)
      requires Valid()
      modifies this`inflight, this`failId, this`failCount, this`backoffUntil, this`job, this`staged, this`ledger
      modifies queue, queue.slots
      ensures Valid() && queue.slots == old(queue.slots) && job == None
      ensures old(job) != Some(MutationJob) || outcome == NoConnection ==> ledger == old(ledger) && inflight == old(inflight)
      ensures old(job) == Some(MutationJob) ==> old(staged).Some?
      ensures Now() == AfterWork(old(Now()), outcome, now)
      ensures Stalled() <==> old(Stalled()) || (old(job) == Some(MutationJob) && outcome == NoConnection)
      ensures queue.nextId == old(queue.nextId)
    {
      hide Statement, LedgerOk, RamQueue.Contents, RamQueue.SoundSlots, Trailing;
      if job == None {
        return;
      }
      if job == Some(MutationJob) && outcome != NoConnection {
        WriteKeeps(ledger, cfg, fmt, inflight, staged.value, outcome == Succeeded, failId, failCount);
        if outcome == Succeeded {
          NotifyCommitted();
        } else {
          NotifyWriteFailed(now);
        }
      }
      job := None;
    }

    /** NotifySqlCommitted, and the staged write is cleared. */
    method NotifyCommitted()
      requires queue.Valid() && ledger.pending == queue.Pending() && ledger.nextId == queue.nextId && staged.Some?
      modifies this`inflight, this`failId, this`failCount, this`backoffUntil, this`staged, this`ledger, queue.slots
      ensures queue.Valid() && ledger.pending == queue.Pending() && ledger.nextId == queue.nextId
      ensures queue.slots == old(queue.slots)
      ensures inflight == 0 && failId == 0 && failCount == 0 && backoffUntil == 0 && staged == None
      ensures ledger == AfterExecution(old(ledger), Executed(old(inflight), old(staged).value, true))
    {
      hide RamQueue.Contents, RamQueue.SoundSlots;
      var _ := queue.MarkCommitted(inflight);
      ledger := AfterExecution(ledger, Executed(inflight, staged.value, true));
      inflight, failId, failCount, backoffUntil := 0, 0, 0, 0;
      staged := None;
    }

    /** NotifySqlWriteFailed: the fifth failure in a row of the same event gives it up. */
    method NotifyWriteFailed(now: nat)
      requires queue.Valid() && ledger.pending == queue.Pending() && ledger.nextId == queue.nextId && staged.Some?
      requires inflight != 0 && failCount < QUARANTINE_AFTER
      modifies this`inflight, this`failId, this`failCount, this`backoffUntil, this`ledger, queue, queue.slots
      ensures queue.Valid() && ledger.pending == queue.Pending() && ledger.nextId == queue.nextId
      ensures queue.slots == old(queue.slots)
      ensures inflight == 0 && backoffUntil == now + 100 && queue.nextId == old(queue.nextId)
      ensures var count := if old(inflight) == old(failId) then old(failCount) + 1 else 1;
        && failCount == (if count == 5 then 0 else count)
        && failId == (if count == 5 then 0 else old(inflight))
      ensures ledger == AfterWrite(old(ledger), Executed(old(inflight), old(staged).value, false), old(failId), old(failCount))
    {
      hide RamQueue.Contents, RamQueue.SoundSlots;
      var eid := inflight;
      inflight := 0;
      backoffUntil := now + BACKOFF_TICKS;
      ledger := AfterExecution(ledger, Executed(eid, staged.value, false));
      if eid == failId {
        failCount := failCount + 1;
      } else {
        failId, failCount := eid, 1;
      }
      if failCount >= QUARANTINE_AFTER {
        var _ := queue.Quarantine(eid);
        ledger := AfterQuarantine(ledger, eid);
        failId, failCount := 0, 0;
      }
    }
  }

  // ----- Whole runs -----

  method TakeStep(g: Gateway, step: DrainStep)
    requires g.Valid() && g.queue.nextId + 1 < 0x1_0000_0000_0000_0000 && (step.CaptureEvent? ==> ValidEvent(step.ev))
    modifies g, g.queue, g.queue.slots
    ensures g.Valid() && g.queue.slots == old(g.queue.slots) && Extends(old(g.ledger), g.ledger)
    ensures g.queue.nextId <= old(g.queue.nextId) + 1 && old(g.ledger.nextId) < 0x1_0000_0000_0000_0000
    ensures Does(old(g.Now()), step, g.Now(), g.cfg, g.fmt)
    ensures old(g.Stalled()) ==> g.Stalled() && Frozen(old(g.ledger), g.ledger)
  {
    hide Statement, LedgerOk, FlightFits, RamQueue.Contents, RamQueue.SoundSlots, ValidEvent, Writable, Extends, Frozen;
    hide AfterWrite, Serializer.Persisted, DroppedUnwritable, AfterCaptureStep, AfterWork, DrainsOne;
    ghost var before := g.ledger;
    NothingExtends(before);
    match step {
      case CaptureEvent(ev) =>
        var ok, id := g.Capture(ev);
        if ok {
          CaptureExtends(before, id, g.ledger.appended[id]);
        }
        CaptureExtends(before, id, ev);
      case Web =>
        WebHarmless(g.ledger, g.cfg, g.fmt, g.inflight, g.staged, g.job, g.failId, g.failCount);
        g.WebRequest();
      case DrainOnce(now) =>
        var _ := g.DrainOnePending(now);
        if g.ledger != before {
          DroppedExtends(before, g.ledger, g.cfg, g.fmt);
        }
      case Work(outcome, now) =>
        WorkExtends(g.Now(), outcome, now);
        g.SqlRuntimePoll(outcome, now);
    }
  }

  /**
   * After any run every event ever appended is pending, committed or
   * quarantined, for the reasons that Valid records. A gateway that stalled
   * settles nothing any more, whatever happens. `views` are the states that
   * the run passes through.
   */
  method RunGateway(g: Gateway, steps: seq<DrainStep>) returns (ghost views: seq<View>)
    requires g.Valid() && Sensible(steps) && g.queue.nextId + |steps| < 0x1_0000_0000_0000_0000
    modifies g, g.queue, g.queue.slots
    ensures g.Valid() && Extends(old(g.ledger), g.ledger)
    ensures Passes(views, steps, g.cfg, g.fmt) && views[0] == old(g.Now()) && views[|steps|] == g.Now()
    ensures old(g.Stalled()) ==> g.Stalled() && Frozen(old(g.ledger), g.ledger)
  {
    hide Statement, LedgerOk, FlightFits, RamQueue.Contents, RamQueue.SoundSlots, ValidEvent, Does, Passes;
    views := [g.Now()];
    NoSteps(views, steps, g.cfg, g.fmt);
    for i := 0 to |steps|
      invariant g.Valid() && g.queue.slots == old(g.queue.slots) && Extends(old(g.ledger), g.ledger)
      invariant g.queue.nextId <= old(g.queue.nextId) + i
      invariant old(g.Stalled()) ==> g.Stalled() && Frozen(old(g.ledger), g.ledger)
      invariant |views| == i + 1 && Passes(views, steps[..i], g.cfg, g.fmt)
      invariant views[0] == old(g.Now()) && views[i] == g.Now()
    {
      TakeStep(g, steps[i]);
      PassesOn(views, steps, g.Now(), g.cfg, g.fmt, i);
      views := views + [g.Now()];
    }
    assert steps[..|steps|] == steps;
  }
}
