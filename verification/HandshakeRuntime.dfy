/**
 * The runtime of one mapping: StepMapping and the tag accesses that it makes,
 * each preceded by whatever the PLC and other tasks do in the meantime.
 */
module HandshakeRuntime {
  import opened Handshake

  /** `last` is the run's last action that is neither the PLC's nor a handler's closing assignments. */
  ghost predicate LastAccess(run: seq<Action>, last: Action) {
    if run == [] then last == Enter
    else
      var n := |run| - 1;
      if IsPlcMove(run[n]) || run[n].Finish? then LastAccess(run[..n], last) else last == run[n]
  }

  lemma LastAccessAppend(run: seq<Action>, last: Action, a: Action)
    requires LastAccess(run, last)
    ensures LastAccess(run + [a], if IsPlcMove(a) || a.Finish? then last else a)
  {
    assert (run + [a])[..|run|] == run;
  }

  predicate FailedAccess(a: Action) {
    match a
    case ReadTrigger(ok) => !ok
    case ReadAck(ok) => !ok
    case Append(ok, _) => !ok
    case WriteAckHigh(ok, _) => !ok
    case WriteAckLow(ok, _) => !ok
    case _ => false
  }

  class PlcTags {
    var trigger: bool
    var ack: bool

    constructor (trigger: bool, ack: bool)
      ensures this.trigger == trigger && this.ack == ack
    {
      this.trigger, this.ack := trigger, ack;
    }
  }

  /**
   * One MappingRuntime with the PLC it talks to. `trace` records every step of
   * the two, so Valid says that what happened is a run of the model above.
   */
  class MappingRuntime {
    const plc: PlcTags
    var state: HandshakeState
    var captureRetryCount: nat
    ghost var start: World
    ghost var trace: seq<Action>
    ghost var world: World
    ghost var finished: seq<nat>
    ghost var reloads: nat
    ghost var last: Action

    /**
     * The trace is a run to `world`; `finished` lists the retry limits of the
     * steps completed in it, `reloads` counts the reloads, and `last` is the last
     * access that the gateway made.
     */
    ghost predicate Traced()
      reads this
    {
      && Legal(start, trace) && After(start, trace) == world && finished == Finishes(trace)
      && reloads == Reloads(trace) && LastAccess(trace, last)
    }

    ghost predicate Valid()
      reads this, plc
    {
      && Traced()
      && state == world.state && captureRetryCount == world.retries
      && plc.trigger == world.trigger && plc.ack == world.ack
    }

    /** The gateway starts with the PLC in any condition. */
    constructor (plc: PlcTags)
      ensures Valid() && this.plc == plc && start == world == Start(plc.trigger, plc.ack) && trace == [] && finished == []
    {
      this.plc := plc;
      state, captureRetryCount := Initializing, 0;
      start, world, trace := Start(plc.trigger, plc.ack), Start(plc.trigger, plc.ack), [];
      finished, reloads, last := [], 0, Enter;
    }

    ghost method Record(a: Action)
      requires Traced() && Enabled(world, a)
      modifies this`trace, this`world, this`finished, this`reloads, this`last
      ensures Traced() && world == Next(old(world), a) && trace == old(trace) + [a]
      ensures finished == old(finished) + if a.Finish? then [a.maxRetries] else []
      ensures reloads == old(reloads) + if a == Reload then 1 else 0
      ensures last == if IsPlcMove(a) || a.Finish? then old(last) else a
    {
      hide Enabled, Next, Reloads, LastAccess, Finishes;
      assert [a][1..] == [] && Legal(Next(world, a), []);
      LegalAppend(start, trace, [a]);
      FinishesAppend(trace, a);
      ReloadsAppend(trace, a);
      LastAccessAppend(trace, last, a);
      assert After(world, [a]) == Next(world, a);
      trace, world, finished := trace + [a], Next(world, a), Finishes(trace + [a]);
      reloads, last := Reloads(trace), if IsPlcMove(a) || a.Finish? then last else a;
    }

    /** A capture failed when the count was `count` and the state `s`. */
    ghost predicate Retried(count: nat, s: HandshakeState, maxRetries: nat)
      reads this
    {
      if count + 1 < maxRetries then captureRetryCount == count + 1 && state == s
      else captureRetryCount == 0 && state == Backoff
    }

    /** What may happen before any tag access: the PLC moves, or another task reloads the configuration. */
    method Interfere()
      requires Valid()
      modifies this, plc
      ensures Valid() && start == old(start) && old(trace) <= trace && finished == old(finished)
      ensures world.progress == old(world.progress)
      ensures reloads >= old(reloads) && last == old(last)
      ensures if reloads > old(reloads) then state == Initializing && captureRetryCount == 0
              else state == old(state) && captureRetryCount == old(captureRetryCount)
    {
      hide Legal, After, Finishes, Reloads, LastAccess;
      var rounds: int := *;
      while rounds > 0
        invariant Valid() && start == old(start) && old(trace) <= trace && finished == old(finished)
        invariant world.progress == old(world.progress)
        invariant reloads >= old(reloads) && last == old(last)
        invariant if reloads > old(reloads) then state == Initializing && captureRetryCount == 0
                  else state == old(state) && captureRetryCount == old(captureRetryCount)
      {
        rounds := rounds - 1;
        if * {
          if !plc.trigger && !plc.ack {
            Record(RaiseTrigger);
            plc.trigger := true;
          }
        } else if * {
          if plc.trigger && plc.ack {
            Record(LowerTrigger);
            plc.trigger := false;
          }
        } else {
          Record(Reload);
          state, captureRetryCount := Initializing, 0;
        }
      }
    }

    method ReadTriggerTag() returns (ok: bool, value: bool)
      requires Valid() && Enabled(world, ReadTrigger(true))
      modifies this, plc
      ensures Valid() && start == old(start) && old(trace) <= trace && finished == old(finished)
      ensures world.progress == match old(world.progress.s)
                                case Idle => IdleRead(ok, value)
                                case WaitForTriggerLow => WaitRead(ok, value)
                                case _ => GotTrigger(ok, value)
      ensures last == ReadTrigger(ok) && reloads >= old(reloads) && (ok ==> value == plc.trigger)
      ensures reloads == old(reloads) ==> state == old(state)
    {
      hide Legal, After, Finishes, Reloads, LastAccess;
      Interfere();
      ok := *;
      value := ok && plc.trigger;
      Record(ReadTrigger(ok));
    }

    method ReadAckTag() returns (ok: bool, value: bool)
      requires Valid() && world.progress.GotTrigger?
      modifies this, plc
      ensures Valid() && start == old(start) && old(trace) <= trace && finished == old(finished)
      ensures world.progress == GotBoth(old(world.progress.okT), old(world.progress.t), ok, value)
      ensures last == ReadAck(ok) && (ok ==> value == plc.ack)
    {
      hide Legal, After, Finishes, Reloads, LastAccess;
      Interfere();
      ok := *;
      value := ok && plc.ack;
      Record(ReadAck(ok));
    }

    /** A write reported as failed may have reached the PLC all the same. */
    method WriteAckTag(value: bool) returns (ok: bool)
      requires Valid() && Enabled(world, if value then WriteAckHigh(true, true) else WriteAckLow(true, true))
      modifies this, plc
      ensures Valid() && start == old(start) && old(trace) <= trace && finished == old(finished)
      ensures world.progress == if value then AckedHigh(ok) else AckedLow(ok)
      ensures if value then last.WriteAckHigh? && last.ok == ok else last.WriteAckLow? && last.ok == ok
      ensures reloads >= old(reloads)
      ensures ok ==> plc.ack == value
    {
      hide Legal, After, Finishes, Reloads, LastAccess;
      Interfere();
      ok := *;
      var took: bool := *;
      took := took || ok;
      Record(if value then WriteAckHigh(ok, took) else WriteAckLow(ok, took));
      if took {
        plc.ack := value;
      }
    }

    /** The handler for Initializing. */
    method StepInitializing(maxRetries: nat)
      requires Valid() && world.progress == Entered(Initializing)
      modifies this, plc
      ensures Valid() && start == old(start) && old(trace) <= trace && world.progress == Rest
      ensures finished == old(finished) + [maxRetries]
      ensures last.ReadAck? && (!last.ok ==> state == Backoff)
      ensures last.ok ==> state == Backoff || state in (if plc.ack then {WaitForTriggerLow, ClearAck} else {CapturePending, Idle})
    {
      hide Legal, After, Finishes, Reloads, LastAccess;
      var gotTrig, trig := ReadTriggerTag();
      var gotAck, ack := ReadAckTag();
      DecideInitial(gotTrig, trig, gotAck, ack, maxRetries);
    }

    method DecideInitial(gotTrig: bool, trig: bool, gotAck: bool, ack: bool, maxRetries: nat)
      requires Valid() && world.progress == GotBoth(gotTrig, trig, gotAck, ack)
      modifies this
      ensures Valid() && start == old(start) && old(trace) <= trace && world.progress == Rest
      ensures finished == old(finished) + [maxRetries] && last == old(last)
      ensures !gotTrig || !gotAck ==> state == Backoff
      ensures gotTrig && gotAck && !trig ==> state == if ack then ClearAck else Idle
      ensures gotTrig && gotAck && trig ==> state == if ack then WaitForTriggerLow else CapturePending
    {
      hide Legal, After, Finishes, Reloads, LastAccess;
      if !gotTrig || !gotAck {
        state := Backoff;
      } else if !trig && !ack {
        state := Idle;
      } else if trig && !ack {
        state := CapturePending;
      } else if trig && ack {
        state := WaitForTriggerLow;
      } else {
        state := ClearAck;
      }
      Record(Finish(maxRetries));
    }

    method StepIdle(maxRetries: nat)
      requires Valid() && world.progress == Entered(Idle)
      modifies this, plc
      ensures Valid() && start == old(start) && old(trace) <= trace && world.progress == Rest
      ensures finished == old(finished) + [maxRetries]
      ensures last.ReadTrigger?
      ensures last == ReadTrigger(false) ==> state == Backoff
      ensures last == ReadTrigger(true) && plc.trigger ==> state == Capturing
      ensures last == ReadTrigger(true) && !plc.trigger && reloads == old(reloads) ==> state == old(state)
    {
      hide Legal, After, Finishes, Reloads, LastAccess;
      var ok, trig := ReadTriggerTag();
      if !ok {
        state := Backoff;
      } else if trig {
        state := Capturing;
      }
      Record(Finish(maxRetries));
    }

    /** CapturePayload: its outcome is all that matters here. */
    method CaptureEvent() returns (ok: bool)
      requires Valid() && world.progress == Entered(Capturing)
      modifies this, plc
      ensures Valid() && start == old(start) && old(trace) <= trace && finished == old(finished) && world.progress == Captured(ok)
      ensures last == CaptureTags(ok) && reloads >= old(reloads)
      ensures var reloaded := reloads > old(reloads);
        && state == (if reloaded then Initializing else old(state))
        && captureRetryCount == if ok || reloaded then 0 else old(captureRetryCount)
    {
      hide Legal, After, Finishes, Reloads, LastAccess;
      Interfere();
      ok := *;
      Record(CaptureTags(ok));
      if ok {
        captureRetryCount := 0;
      }
    }

    method AppendEvent() returns (ok: bool)
      requires Valid() && world.progress == Captured(true)
      modifies this, plc
      ensures Valid() && start == old(start) && old(trace) <= trace && finished == old(finished) && world.progress == Appended(ok)
      ensures last.Append? && last.ok == ok && reloads >= old(reloads)
    {
      hide Legal, After, Finishes, Reloads, LastAccess;
      Interfere();
      var id: int := *;
      ok := *;
      Record(Append(ok, if id < 0 then 0 else id));
    }

    method StepCapturing(maxRetries: nat)
      requires Valid() && world.progress == Entered(Capturing)
      modifies this, plc
      ensures Valid() && start == old(start) && old(trace) <= trace && world.progress == Rest
      ensures finished == old(finished) + [maxRetries]
      ensures match last
        case CaptureTags(ok) =>
          !ok && if reloads > old(reloads) then Retried(0, Initializing, maxRetries)
                 else Retried(old(captureRetryCount), old(state), maxRetries)
        case Append(ok, _) => !ok && state == Backoff
        case WriteAckHigh(ok, _) => state == if ok then WaitForTriggerLow else Backoff
        case _ => false
    {
      hide Legal, After, Finishes, Reloads, LastAccess;
      var captured := CaptureEvent();
      if !captured {
        CaptureFailed(maxRetries);
        return;
      }
      KeepAndAcknowledge(maxRetries);
    }

    /** The captured event is queued; only then is the ACK written. */
    method KeepAndAcknowledge(maxRetries: nat)
      requires Valid() && world.progress == Captured(true)
      modifies this, plc
      ensures Valid() && start == old(start) && old(trace) <= trace && world.progress == Rest
      ensures finished == old(finished) + [maxRetries]
      ensures match last
        case Append(ok, _) => !ok && state == Backoff
        case WriteAckHigh(ok, _) => state == if ok then WaitForTriggerLow else Backoff
        case _ => false
    {
      hide Legal, After, Finishes, Reloads, LastAccess;
      var appended := AppendEvent();
      if !appended {
        state := Backoff;
        Record(Finish(maxRetries));
        return;
      }
      var ok := WriteAckTag(true);
      state := if ok then WaitForTriggerLow else Backoff;
      Record(Finish(maxRetries));
    }

    method CaptureFailed(maxRetries: nat)
      requires Valid() && world.progress == Captured(false)
      modifies this
      ensures Valid() && start == old(start) && old(trace) <= trace && world.progress == Rest
      ensures finished == old(finished) + [maxRetries] && last == old(last) && reloads == old(reloads)
      ensures if old(captureRetryCount) + 1 < maxRetries
              then captureRetryCount == old(captureRetryCount) + 1 && state == old(state)
              else captureRetryCount == 0 && state == Backoff
    {
      hide Legal, After, Finishes, Reloads, LastAccess;
      captureRetryCount := captureRetryCount + 1;
      if captureRetryCount >= maxRetries {
        captureRetryCount := 0;
        state := Backoff;
      }
      Record(Finish(maxRetries));
    }

    method StepAssertAck(maxRetries: nat)
      requires Valid() && world.progress == Entered(AssertAck)
      modifies this, plc
      ensures Valid() && start == old(start) && old(trace) <= trace && world.progress == Rest
      ensures finished == old(finished) + [maxRetries]
      ensures last.WriteAckHigh?
      ensures state == if last.ok then WaitForTriggerLow else Backoff
    {
      hide Legal, After, Finishes, Reloads, LastAccess;
      var ok := WriteAckTag(true);
      state := if ok then WaitForTriggerLow else Backoff;
      Record(Finish(maxRetries));
    }

    method StepWaitForTriggerLow(maxRetries: nat)
      requires Valid() && world.progress == Entered(WaitForTriggerLow)
      modifies this, plc
      ensures Valid() && start == old(start) && old(trace) <= trace && world.progress == Rest
      ensures finished == old(finished) + [maxRetries]
      ensures last.ReadTrigger?
      ensures last == ReadTrigger(false) ==> state == Backoff
      ensures last == ReadTrigger(true) && !plc.trigger ==> state == ClearAck
      ensures last == ReadTrigger(true) && plc.trigger && reloads == old(reloads) ==> state == old(state)
    {
      hide Legal, After, Finishes, Reloads, LastAccess;
      var ok, trig := ReadTriggerTag();
      if !ok {
        state := Backoff;
      } else if !trig {
        state := ClearAck;
      }
      Record(Finish(maxRetries));
    }

    method StepClearAck(maxRetries: nat)
      requires Valid() && world.progress == Entered(ClearAck)
      modifies this, plc
      ensures Valid() && start == old(start) && old(trace) <= trace && world.progress == Rest
      ensures finished == old(finished) + [maxRetries]
      ensures last.WriteAckLow?
      ensures state == if last.ok then Idle else Backoff
    {
      hide Legal, After, Finishes, Reloads, LastAccess;
      var ok := WriteAckTag(false);
      state := if ok then Idle else Backoff;
      Record(Finish(maxRetries));
    }

    /** The states that touch no tag. */
    method StepSilent(maxRetries: nat)
      requires Valid() && world.progress == Entered(state) && IsSilent(state)
      modifies this
      ensures Valid() && start == old(start) && old(trace) <= trace && world.progress == Rest
      ensures finished == old(finished) + [maxRetries]
      ensures last == old(last) && reloads == old(reloads)
      ensures old(state) == CapturePending ==> state == Capturing
      ensures old(state) == Backoff ==> state == Initializing
    {
      hide Legal, After, Finishes, Reloads, LastAccess;
      Record(Finish(maxRetries));
      match state {
        case CapturePending => state := Capturing;
        case Persisting => state := AssertAck;
        case VerifyAckLow => state := Idle;
        case Backoff => state := Initializing;
        case _ =>
      }
    }

    /**
     * However the PLC and the tag accesses behave, one call only ever continues
     * a run of the model, and so leaves no completed pulse unserved.
     */
    method StepMapping(maxRetries: nat)
      requires Valid() && world.progress == Rest
      modifies this, plc
      ensures Valid() && start == old(start) && old(trace) <= trace && world.progress == Rest
      ensures finished == old(finished) + [maxRetries]
      ensures FailedAccess(last) ==> state == Backoff
      ensures last == CaptureTags(false) && reloads == old(reloads) ==> Retried(old(captureRetryCount), old(state), maxRetries)
      ensures Inv(start) ==> AllServed(world)
      ensures Inv(start) && plc.trigger && plc.ack ==> |world.pulse.events| >= 1
    {
      Dispatch(maxRetries);
      if Inv(start) {
        InvRun(start, trace);
      }
    }

    method Dispatch(maxRetries: nat)
      requires Valid() && world.progress == Rest
      modifies this, plc
      ensures Valid() && start == old(start) && old(trace) <= trace && world.progress == Rest
      ensures finished == old(finished) + [maxRetries]
      ensures FailedAccess(last) ==> state == Backoff
      ensures last == CaptureTags(false) && reloads == old(reloads) ==> Retried(old(captureRetryCount), old(state), maxRetries)
    {
      hide Legal, After, Finishes, Reloads, LastAccess;
      Record(Enter);
      match state {
        case Initializing => StepInitializing(maxRetries);
        case Idle => StepIdle(maxRetries);
        case Capturing => StepCapturing(maxRetries);
        case AssertAck => StepAssertAck(maxRetries);
        case WaitForTriggerLow => StepWaitForTriggerLow(maxRetries);
        case ClearAck => StepClearAck(maxRetries);
        case _ => StepSilent(maxRetries);
      }
    }
  }
}
