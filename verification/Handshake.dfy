/** The level-held trigger/ACK handshake of one mapping. */
module Handshake {
  // The PLC and the gateway share two tags. The PLC raises its trigger only when
  // both tags are low and lowers it only when both are high; the gateway polls
  // the trigger, queues an event and answers with the ACK. Every tag access is a
  // step of its own, so the PLC may move between any two of them, any access may
  // fail, and a write reported as failed may still have taken effect.

  datatype HandshakeState =
    | Initializing | Idle | CapturePending | Capturing | Persisting | AssertAck
    | WaitForTriggerLow | ClearAck | VerifyAckLow | Backoff | Faulted

  /** How far StepMapping has got: what it has done, with which outcome. */
  datatype Progress =
    | Rest
    | Entered(s: HandshakeState)
    | GotTrigger(okT: bool, t: bool)
    | GotBoth(okT: bool, t: bool, okA: bool, a: bool)
    | IdleRead(ok: bool, t: bool)
    | Captured(ok: bool)
    | Appended(ok: bool)
    | AckedHigh(ok: bool)
    | WaitRead(ok: bool, t: bool)
    | AckedLow(ok: bool)

  /** A trigger pulse: the events queued during it and the ACK-high writes reported failed during it. */
  datatype Pulse = Pulse(events: seq<nat>, failedAcks: nat)

  /** `pulse` is the running pulse; `pulses` are the completed ones. */
  datatype World = World(
    trigger: bool,
    ack: bool,
    state: HandshakeState,
    retries: nat,
    progress: Progress,
    pulse: Pulse,
    pulses: seq<Pulse>)

  datatype Action =
    | RaiseTrigger
    | LowerTrigger
    | Reload
    | Enter
    | ReadTrigger(ok: bool)
    | ReadAck(ok: bool)
    | CaptureTags(ok: bool)
    | Append(ok: bool, id: nat)
    | WriteAckHigh(ok: bool, took: bool)
    | WriteAckLow(ok: bool, took: bool)
    | Finish(maxRetries: nat)

  const NO_EVENTS := Pulse([], 0)

  function Start(trigger: bool, ack: bool): World {
    World(trigger, ack, Initializing, 0, Rest, NO_EVENTS, [])
  }

  // ----- One step -----

  /** States whose handler touches no tag. */
  predicate IsSilent(s: HandshakeState) {
    s in {CapturePending, Persisting, VerifyAckLow, Backoff, Faulted}
  }

  predicate ReadyToFinish(p: Progress) {
    match p
    case Entered(s) => IsSilent(s)
    case GotBoth(_, _, _, _) => true
    case IdleRead(_, _) => true
    case Captured(ok) => !ok
    case Appended(ok) => !ok
    case AckedHigh(_) => true
    case WaitRead(_, _) => true
    case AckedLow(_) => true
    case _ => false
  }

  predicate Enabled(w: World, a: Action) {
    match a
    case RaiseTrigger => !w.trigger && !w.ack
    case LowerTrigger => w.trigger && w.ack
    case Reload => true
    case Enter => w.progress == Rest
    case ReadTrigger(_) => w.progress in {Entered(Initializing), Entered(Idle), Entered(WaitForTriggerLow)}
    case ReadAck(_) => w.progress.GotTrigger?
    case CaptureTags(_) => w.progress == Entered(Capturing)
    case Append(_, _) => w.progress == Captured(true)
    case WriteAckHigh(ok, took) => (ok ==> took) && w.progress in {Appended(true), Entered(AssertAck)}
    case WriteAckLow(ok, took) => (ok ==> took) && w.progress == Entered(ClearAck)
    case Finish(_) => ReadyToFinish(w.progress)
  }

  function AfterInit(okT: bool, t: bool, okA: bool, a: bool): HandshakeState {
    if !okT || !okA then Backoff
    else if !t && !a then Idle
    else if t && !a then CapturePending
    else if t && a then WaitForTriggerLow
    else ClearAck
  }

  /** The state that a silent handler leaves. */
  function AfterSilent(s: HandshakeState): HandshakeState {
    match s
    case CapturePending => Capturing
    case Persisting => AssertAck
    case VerifyAckLow => Idle
    case Backoff => Initializing
    case _ => s
  }

  /** The handler's last assignments; a handler that assigns no state leaves what is there. */
  function Finished(w: World, maxRetries: nat): World
    requires ReadyToFinish(w.progress)
  {
    var v := w.(progress := Rest);
    match w.progress
    case Entered(s) => if s == Faulted then v else v.(state := AfterSilent(s))
    case GotBoth(okT, t, okA, a) => v.(state := AfterInit(okT, t, okA, a))
    case IdleRead(ok, t) => if !ok then v.(state := Backoff) else if t then v.(state := Capturing) else v
    case Captured(_) =>
      if w.retries + 1 >= maxRetries then v.(state := Backoff, retries := 0) else v.(retries := w.retries + 1)
    case Appended(_) => v.(state := Backoff)
    case AckedHigh(ok) => v.(state := if ok then WaitForTriggerLow else Backoff)
    case WaitRead(ok, t) => if !ok then v.(state := Backoff) else if !t then v.(state := ClearAck) else v
    case AckedLow(ok) => v.(state := if ok then Idle else Backoff)
    case _ => v
  }

  function Next(w: World, a: Action): World
    requires Enabled(w, a)
  {
    match a
    case RaiseTrigger => w.(trigger := true, pulse := NO_EVENTS)
    case LowerTrigger => w.(trigger := false, pulse := NO_EVENTS, pulses := w.pulses + [w.pulse])
    case Reload => w.(state := Initializing, retries := 0)
    case Enter => w.(progress := Entered(w.state))
    case ReadTrigger(ok) =>
      var t := ok && w.trigger;
      w.(progress := match w.progress.s
                     case Idle => IdleRead(ok, t)
                     case WaitForTriggerLow => WaitRead(ok, t)
                     case _ => GotTrigger(ok, t))
    case ReadAck(ok) => w.(progress := GotBoth(w.progress.okT, w.progress.t, ok, ok && w.ack))
    case CaptureTags(ok) => w.(progress := Captured(ok), retries := if ok then 0 else w.retries)
    case Append(ok, id) =>
      var p := if ok then w.pulse.(events := w.pulse.events + [id]) else w.pulse;
      w.(progress := Appended(ok), pulse := p)
    case WriteAckHigh(ok, took) =>
      var p := if ok then w.pulse else w.pulse.(failedAcks := w.pulse.failedAcks + 1);
      w.(progress := AckedHigh(ok), ack := w.ack || took, pulse := p)
    case WriteAckLow(ok, took) => w.(progress := AckedLow(ok), ack := w.ack && !took)
    case Finish(maxRetries) => Finished(w, maxRetries)
  }

  // ----- Runs -----

  ghost predicate Legal(w: World, run: seq<Action>)
    decreases |run|
  {
    run == [] || (Enabled(w, run[0]) && Legal(Next(w, run[0]), run[1..]))
  }

  ghost function After(w: World, run: seq<Action>): World
    requires Legal(w, run)
    decreases |run|
  {
    if run == [] then w else After(Next(w, run[0]), run[1..])
  }

  lemma {:induction false} LegalAppend(w: World, run: seq<Action>, more: seq<Action>)
    requires Legal(w, run) && Legal(After(w, run), more)
    ensures Legal(w, run + more) && After(w, run + more) == After(After(w, run), more)
    decreases |run|
  {
    hide Enabled, Next;
    if run == [] {
      assert run + more == more;
    } else {
      assert (run + more)[1..] == run[1..] + more;
      LegalAppend(Next(w, run[0]), run[1..], more);
    }
  }

  /** The steps completed in a run, by the retry limit that each one used. */
  ghost function Finishes(run: seq<Action>): seq<nat> {
    if run == [] then []
    else
      var n := |run| - 1;
      Finishes(run[..n]) + if run[n].Finish? then [run[n].maxRetries] else []
  }

  lemma FinishesAppend(run: seq<Action>, a: Action)
    ensures Finishes(run + [a]) == Finishes(run) + if a.Finish? then [a.maxRetries] else []
  {
    assert (run + [a])[..|run|] == run;
  }

  /** How often the configuration was reloaded in a run. */
  ghost function Reloads(run: seq<Action>): nat {
    if run == [] then 0 else Reloads(run[..|run| - 1]) + if run[|run| - 1] == Reload then 1 else 0
  }

  lemma ReloadsAppend(run: seq<Action>, a: Action)
    ensures Reloads(run + [a]) == Reloads(run) + if a == Reload then 1 else 0
  {
    assert (run + [a])[..|run|] == run;
  }

  // ----- The invariant -----

  /** What the gateway may rely on in each state. The states that are never entered admit nothing. */
  predicate StateFits(w: World, s: HandshakeState) {
    match s
    case Initializing => true
    case Idle => !w.ack
    case CapturePending => w.trigger && !w.ack
    case Capturing => w.trigger && !w.ack
    case WaitForTriggerLow => w.ack
    case ClearAck => w.ack && !w.trigger
    case Backoff => true
    case _ => false
  }

  /** A trigger value read earlier still holds unless the ACK permits the PLC to move. */
  predicate StillTrue(w: World, ok: bool, t: bool) {
    ok ==> (t && !w.ack ==> w.trigger) && (!t && w.ack ==> !w.trigger)
  }

  predicate ProgressFits(w: World) {
    match w.progress
    case Rest => true
    case Entered(s) => StateFits(w, s)
    case GotTrigger(okT, t) => StillTrue(w, okT, t)
    case GotBoth(okT, t, okA, a) => StillTrue(w, okT, t) && (okA ==> a == w.ack)
    case IdleRead(ok, t) => !w.ack && StillTrue(w, ok, t)
    case Captured(_) => w.trigger && !w.ack
    case Appended(ok) => w.trigger && !w.ack && (ok ==> |w.pulse.events| >= 1)
    case AckedHigh(ok) => ok ==> w.ack
    case WaitRead(ok, t) => w.ack && StillTrue(w, ok, t)
    case AckedLow(ok) => ok ==> !w.ack
  }

  predicate PulseServed(p: Pulse) {
    1 <= |p.events| <= 1 + p.failedAcks
  }

  /** An append not yet followed by its ACK write is the only one that no failed write accounts for. */
  predicate Counted(w: World) {
    && (!w.trigger ==> w.pulse == NO_EVENTS)
    && (w.trigger && w.ack ==> |w.pulse.events| >= 1)
    && |w.pulse.events| <= w.pulse.failedAcks
       + if w.trigger && !w.ack && w.progress != Appended(true) then 0 else 1
  }

  predicate Inv(w: World) {
    && (w.progress.AckedHigh? || w.progress.AckedLow? || StateFits(w, w.state))
    && ProgressFits(w)
    && Counted(w)
    && (forall i :: 0 <= i < |w.pulses| ==> PulseServed(w.pulses[i]))
  }

  predicate IsPlcMove(a: Action) {
    a.RaiseTrigger? || a.LowerTrigger? || a.Reload?
  }

  predicate IsAccess(a: Action) {
    a.ReadTrigger? || a.ReadAck? || a.Append? || a.WriteAckHigh? || a.WriteAckLow?
  }

  lemma InvPlcMove(w: World, a: Action)
    requires Inv(w) && Enabled(w, a) && IsPlcMove(a)
    ensures Inv(Next(w, a))
  {
  }

  lemma InvAccess(w: World, a: Action)
    requires Inv(w) && Enabled(w, a) && IsAccess(a)
    ensures Inv(Next(w, a))
  {
  }

  lemma InvOwn(w: World, a: Action)
    requires Inv(w) && Enabled(w, a) && (a.Enter? || a.CaptureTags? || a.Finish?)
    ensures Inv(Next(w, a))
  {
    var v := Next(w, a);
    assert v.pulses == w.pulses && v.pulse == w.pulse;
    assert ProgressFits(v);
    assert Counted(v);
    assert StateFits(v, v.state);
  }

  lemma InvStep(w: World, a: Action)
    requires Inv(w) && Enabled(w, a)
    ensures Inv(Next(w, a))
  {
    hide Inv, Enabled, Next;
    if IsPlcMove(a) {
      InvPlcMove(w, a);
    } else if IsAccess(a) {
      InvAccess(w, a);
    } else {
      InvOwn(w, a);
    }
  }

  lemma {:induction false} InvRun(w: World, run: seq<Action>)
    requires Inv(w) && Legal(w, run)
    ensures Inv(After(w, run))
    decreases |run|
  {
    hide Inv, Enabled, Next;
    if run != [] {
      InvStep(w, run[0]);
      InvRun(Next(w, run[0]), run[1..]);
    }
  }

  // ----- Main results -----

  ghost predicate AllServed(w: World) {
    forall i :: 0 <= i < |w.pulses| ==> PulseServed(w.pulses[i])
  }

  /** With both tags high at the start, the PLC may complete a pulse that the gateway never saw. */
  lemma BothHigh(w: World)
    requires w == Start(true, true)
    ensures Legal(w, [LowerTrigger]) && !AllServed(After(w, [LowerTrigger]))
  {
    var v := Next(w, LowerTrigger);
    assert [LowerTrigger][1..] == [] && Legal(v, []) && After(v, []) == v;
    assert v.pulses == [NO_EVENTS] && !PulseServed(v.pulses[0]);
  }

  /**
   * No pulse completes unserved, and none is served more often than failed ACK
   * writes explain - in every run, exactly if the tags do not both start high.
   */
  lemma AckSafety(trigger: bool, ack: bool)
    ensures (forall run :: Legal(Start(trigger, ack), run) ==> AllServed(After(Start(trigger, ack), run)))
      <==> !(trigger && ack)
  {
    hide Legal, After, Enabled, Next, AllServed;
    var w := Start(trigger, ack);
    if trigger && ack {
      BothHigh(w);
    } else {
      forall run | Legal(w, run)
        ensures AllServed(After(w, run))
      {
        Served(trigger, ack, run);
      }
    }
  }

  lemma Served(trigger: bool, ack: bool, run: seq<Action>)
    requires !(trigger && ack) && Legal(Start(trigger, ack), run)
    ensures AllServed(After(Start(trigger, ack), run))
  {
    hide Legal, After;
    InvRun(Start(trigger, ack), run);
  }

  /** Exactly one event per completed pulse without a failed ACK-high write. */
  lemma ExactlyOnce(trigger: bool, ack: bool, run: seq<Action>, i: nat)
    requires !(trigger && ack) && Legal(Start(trigger, ack), run)
    requires i < |After(Start(trigger, ack), run).pulses|
    requires After(Start(trigger, ack), run).pulses[i].failedAcks == 0
    ensures |After(Start(trigger, ack), run).pulses[i].events| == 1
  {
    InvRun(Start(trigger, ack), run);
  }

  /** While the PLC sees its trigger acknowledged, the event is already queued. */
  lemma AckMeansQueued(trigger: bool, ack: bool, run: seq<Action>)
    requires !(trigger && ack) && Legal(Start(trigger, ack), run)
    ensures var w := After(Start(trigger, ack), run);
      w.trigger && w.ack ==> |w.pulse.events| >= 1
  {
    InvRun(Start(trigger, ack), run);
  }

  /** Four of the declared states are never entered. */
  lemma NeverEntered(trigger: bool, ack: bool, run: seq<Action>)
    requires !(trigger && ack) && Legal(Start(trigger, ack), run)
    ensures After(Start(trigger, ack), run).state !in {Persisting, AssertAck, VerifyAckLow, Faulted}
  {
    StatesRun(Start(trigger, ack), run);
  }

  predicate Ordinary(s: HandshakeState) {
    s !in {Persisting, AssertAck, VerifyAckLow, Faulted}
  }

  lemma {:induction false} StatesRun(w: World, run: seq<Action>)
    requires Ordinary(w.state) && (w.progress.Entered? ==> Ordinary(w.progress.s)) && Legal(w, run)
    ensures Ordinary(After(w, run).state)
    decreases |run|
  {
    if run != [] {
      StatesRun(Next(w, run[0]), run[1..]);
    }
  }

  // ----- What each step does, outcome by outcome -----

  lemma Run4(w: World, a: Action, b: Action, c: Action, d: Action)
    requires Enabled(w, a) && Enabled(Next(w, a), b) && Enabled(Next(Next(w, a), b), c)
    requires Enabled(Next(Next(Next(w, a), b), c), d)
    ensures Legal(w, [a, b, c, d]) && After(w, [a, b, c, d]) == Next(Next(Next(Next(w, a), b), c), d)
  {
    hide Enabled, Next;
    assert [a, b, c, d][1..] == [b, c, d];
    Run3(Next(w, a), b, c, d);
  }

  /** Both tags are read; a failed read of either backs off, and what they say decides where the handshake stands. */
  lemma InitOutcome(w: World, okT: bool, okA: bool, m: nat)
    requires w.progress == Rest && w.state == Initializing
    ensures var run := [Enter, ReadTrigger(okT), ReadAck(okA), Finish(m)];
      Legal(w, run)
      && After(w, run) == w.(state := if !okT || !okA then Backoff
                                      else if w.trigger then (if w.ack then WaitForTriggerLow else CapturePending)
                                      else (if w.ack then ClearAck else Idle))
  {
    hide Legal, After;
    Run4(w, Enter, ReadTrigger(okT), ReadAck(okA), Finish(m));
  }

  lemma IdleOutcome(w: World, ok: bool, m: nat)
    requires w.progress == Rest && w.state == Idle
    ensures var run := [Enter, ReadTrigger(ok), Finish(m)];
      Legal(w, run) && After(w, run) == w.(state := if !ok then Backoff else if w.trigger then Capturing else Idle)
  {
    hide Legal, After;
    Run3(w, Enter, ReadTrigger(ok), Finish(m));
  }

  /** A failed capture is counted and tried again; the one that reaches the limit backs off and clears the count. */
  lemma CaptureFailure(w: World, m: nat)
    requires w.progress == Rest && w.state == Capturing
    ensures var run := [Enter, CaptureTags(false), Finish(m)];
      Legal(w, run)
      && After(w, run) == if w.retries + 1 < m then w.(retries := w.retries + 1) else w.(state := Backoff, retries := 0)
  {
    hide Legal, After;
    Run3(w, Enter, CaptureTags(false), Finish(m));
  }

  /** An event that is not queued: no ACK is written. */
  lemma AppendRefused(w: World, id: nat, m: nat)
    requires w.progress == Rest && w.state == Capturing
    ensures var run := [Enter, CaptureTags(true), Append(false, id), Finish(m)];
      Legal(w, run) && After(w, run) == w.(state := Backoff, retries := 0)
  {
    hide Legal, After;
    Run4(w, Enter, CaptureTags(true), Append(false, id), Finish(m));
  }

  /** Queueing an event, up to the ACK. */
  lemma QueuedSoFar(w: World, id: nat)
    requires w.progress == Rest && w.state == Capturing
    ensures var run := [Enter, CaptureTags(true), Append(true, id)];
      Legal(w, run)
      && After(w, run) == w.(progress := Appended(true), retries := 0, pulse := w.pulse.(events := w.pulse.events + [id]))
  {
    hide Legal, After;
    Run3(w, Enter, CaptureTags(true), Append(true, id));
  }

  /** An event that is queued: the ACK is written at once, and a write reported as failed may have taken effect. */
  lemma AckOutcome(w: World, id: nat, ok: bool, took: bool, m: nat)
    requires w.progress == Rest && w.state == Capturing && (ok ==> took)
    ensures var run := [Enter, CaptureTags(true), Append(true, id)] + [WriteAckHigh(ok, took), Finish(m)];
      Legal(w, run)
      && After(w, run) == w.(state := if ok then WaitForTriggerLow else Backoff, retries := 0, ack := w.ack || took,
                             pulse := Pulse(w.pulse.events + [id], w.pulse.failedAcks + if ok then 0 else 1))
  {
    hide Legal, After;
    QueuedSoFar(w, id);
    var w1 := w.(progress := Appended(true), retries := 0, pulse := w.pulse.(events := w.pulse.events + [id]));
    Run2(w1, WriteAckHigh(ok, took), Finish(m));
    LegalAppend(w, [Enter, CaptureTags(true), Append(true, id)], [WriteAckHigh(ok, took), Finish(m)]);
  }

  lemma LegalStep(w: World, a: Action, run: seq<Action>)
    requires Enabled(w, a) && Legal(Next(w, a), run)
    ensures Legal(w, [a] + run) && After(w, [a] + run) == After(Next(w, a), run)
  {
    hide Enabled, Next;
    assert ([a] + run)[1..] == run;
  }

  lemma WaitOutcome(w: World, ok: bool, m: nat)
    requires w.progress == Rest && w.state == WaitForTriggerLow
    ensures var run := [Enter, ReadTrigger(ok), Finish(m)];
      Legal(w, run) && After(w, run) == w.(state := if !ok then Backoff else if w.trigger then WaitForTriggerLow else ClearAck)
  {
    hide Legal, After;
    Run3(w, Enter, ReadTrigger(ok), Finish(m));
  }

  lemma ClearOutcome(w: World, ok: bool, took: bool, m: nat)
    requires w.progress == Rest && w.state == ClearAck && (ok ==> took)
    ensures var run := [Enter, WriteAckLow(ok, took), Finish(m)];
      Legal(w, run) && After(w, run) == w.(state := if ok then Idle else Backoff, ack := w.ack && !took)
  {
    hide Legal, After;
    Run3(w, Enter, WriteAckLow(ok, took), Finish(m));
  }

  /** Without a tag access: a pending capture begins, and a back-off ends in a fresh look at both tags. */
  lemma SilentOutcome(w: World, m: nat)
    requires w.progress == Rest && w.state in {CapturePending, Backoff}
    ensures var run := [Enter, Finish(m)];
      Legal(w, run) && After(w, run) == w.(state := if w.state == CapturePending then Capturing else Initializing)
  {
    hide Legal, After;
    Run2(w, Enter, Finish(m));
  }

  /** `n` failed captures in a row. */
  function FailedCaptures(n: nat, m: nat): seq<Action> {
    if n == 0 then [] else [Enter, CaptureTags(false), Finish(m)] + FailedCaptures(n - 1, m)
  }

  /**
   * The retry limit: failed captures leave the handshake capturing, with each of
   * them counted, until they are `m`; the `m`-th backs off.
   */
  lemma {:induction false} RetryLimit(w: World, n: nat, m: nat)
    requires w.progress == Rest && w.state == Capturing && w.retries < m && w.retries + n <= m
    ensures Legal(w, FailedCaptures(n, m))
    ensures After(w, FailedCaptures(n, m))
      == if w.retries + n < m then w.(retries := w.retries + n) else w.(state := Backoff, retries := 0)
    decreases n
  {
    hide Legal, After;
    if n == 0 {
      NoActions(w);
    } else {
      var first := [Enter, CaptureTags(false), Finish(m)];
      CaptureFailure(w, m);
      if n > 1 {
        RetryLimit(After(w, first), n - 1, m);
      } else {
        NoActions(After(w, first));
      }
      LegalAppend(w, first, FailedCaptures(n - 1, m));
    }
  }

  lemma NoActions(w: World)
    ensures Legal(w, []) && After(w, []) == w
  {
  }

  /** One pulse from start to end when nothing fails: the PLC raises, the event is queued and acknowledged, the PLC lowers. */
  function Cycle(id: nat, m: nat): seq<Action> {
    [RaiseTrigger] + ([Enter, ReadTrigger(true), Finish(m)]
    + (([Enter, CaptureTags(true), Append(true, id)] + [WriteAckHigh(true, true), Finish(m)])
    + ([LowerTrigger] + ([Enter, ReadTrigger(true), Finish(m)] + [Enter, WriteAckLow(true, true), Finish(m)]))))
  }

  function Cycles(ids: seq<nat>, m: nat): seq<Action> {
    if ids == [] then [] else Cycle(ids[0], m) + Cycles(ids[1..], m)
  }

  function SinglePulses(ids: seq<nat>): seq<Pulse> {
    if ids == [] then [] else [Pulse([ids[0]], 0)] + SinglePulses(ids[1..])
  }

  predicate AtEase(w: World) {
    w.progress == Rest && w.state == Idle && !w.trigger && !w.ack && w.retries == 0 && w.pulse == NO_EVENTS
  }

  lemma CycleDone(w: World, id: nat, m: nat)
    requires AtEase(w)
    ensures Legal(w, Cycle(id, m)) && After(w, Cycle(id, m)) == w.(pulses := w.pulses + [Pulse([id], 0)])
  {
    hide Legal, After;
    var a, b, c := [Enter, ReadTrigger(true), Finish(m)],
                   [Enter, CaptureTags(true), Append(true, id)] + [WriteAckHigh(true, true), Finish(m)],
                   [Enter, WriteAckLow(true, true), Finish(m)];
    var w1 := Next(w, RaiseTrigger);
    IdleOutcome(w1, true, m);
    var w2 := After(w1, a);
    AckOutcome(w2, id, true, true, m);
    var w3 := After(w2, b);
    assert [] + [id] == [id] && w3.pulse == Pulse([id], 0);
    var w4 := Next(w3, LowerTrigger);
    assert w4 == w.(state := WaitForTriggerLow, ack := true, pulses := w.pulses + [Pulse([id], 0)]);
    WaitOutcome(w4, true, m);
    ClearOutcome(After(w4, a), true, true, m);
    LegalAppend(w4, a, c);
    LegalStep(w3, LowerTrigger, a + c);
    LegalAppend(w2, b, [LowerTrigger] + (a + c));
    LegalAppend(w1, a, b + ([LowerTrigger] + (a + c)));
    LegalStep(w, RaiseTrigger, a + (b + ([LowerTrigger] + (a + c))));
  }

  ghost predicate Reaches(w: World, run: seq<Action>, v: World) {
    Legal(w, run) && After(w, run) == v
  }

  lemma ReachesOn(w: World, a: seq<Action>, v: World, b: seq<Action>, u: World)
    requires Reaches(w, a, v) && Reaches(v, b, u)
    ensures Reaches(w, a + b, u)
  {
    hide Legal, After;
    LegalAppend(w, a, b);
  }

  /** Any number of pulses without failures: each gets exactly its own event, in order. */
  lemma {:induction false} CyclesDone(w: World, ids: seq<nat>, m: nat)
    requires AtEase(w)
    ensures Reaches(w, Cycles(ids, m), w.(pulses := w.pulses + SinglePulses(ids)))
    decreases |ids|
  {
    hide Cycle, Reaches;
    if ids == [] {
      assert Reaches(w, [], w) by { NothingReached(w); }
      assert w.pulses + SinglePulses(ids) == w.pulses;
    } else {
      var next := w.(pulses := w.pulses + [Pulse([ids[0]], 0)]);
      assert Reaches(w, Cycle(ids[0], m), next) by { CycleReached(w, ids[0], m); }
      CyclesDone(next, ids[1..], m);
      assert next.pulses + SinglePulses(ids[1..]) == w.pulses + SinglePulses(ids);
      ReachesOn(w, Cycle(ids[0], m), next, Cycles(ids[1..], m), next.(pulses := next.pulses + SinglePulses(ids[1..])));
    }
  }

  lemma NothingReached(w: World)
    ensures Reaches(w, [], w)
  {
    NoActions(w);
  }

  lemma CycleReached(w: World, id: nat, m: nat)
    requires AtEase(w)
    ensures Reaches(w, Cycle(id, m), w.(pulses := w.pulses + [Pulse([id], 0)]))
  {
    hide Legal, After, Cycle;
    CycleDone(w, id, m);
  }

  // ----- Recovery: without further failures the handshake always settles -----

  /** The accesses of one StepMapping in which everything succeeds. */
  function FailFree(w: World, id: nat): seq<Action> {
    match w.state
    case Initializing => [Enter, ReadTrigger(true), ReadAck(true), Finish(0)]
    case Idle => [Enter, ReadTrigger(true), Finish(0)]
    case Capturing => [Enter, CaptureTags(true), Append(true, id), WriteAckHigh(true, true), Finish(0)]
    case AssertAck => [Enter, WriteAckHigh(true, true), Finish(0)]
    case WaitForTriggerLow => [Enter, ReadTrigger(true), Finish(0)]
    case ClearAck => [Enter, WriteAckLow(true, true), Finish(0)]
    case _ => [Enter, Finish(0)]
  }

  predicate Settled(w: World) {
    if w.trigger then w.ack && w.state == WaitForTriggerLow else !w.ack && w.state == Idle
  }

  /** What one such step does. */
  function Stepped(w: World, id: nat): World {
    var v := w.(progress := Rest);
    match w.state
    case Initializing => v.(state := AfterInit(true, w.trigger, true, w.ack))
    case Idle => if w.trigger then v.(state := Capturing) else v
    case Capturing =>
      v.(state := WaitForTriggerLow, ack := true, retries := 0, pulse := w.pulse.(events := w.pulse.events + [id]))
    case AssertAck => v.(state := WaitForTriggerLow, ack := true)
    case WaitForTriggerLow => if w.trigger then v else v.(state := ClearAck)
    case ClearAck => v.(state := Idle, ack := false)
    case Faulted => v
    case s => v.(state := AfterSilent(s))
  }

  lemma Run2(w: World, a: Action, b: Action)
    requires Enabled(w, a) && Enabled(Next(w, a), b)
    ensures Legal(w, [a, b]) && After(w, [a, b]) == Next(Next(w, a), b)
  {
    hide Enabled, Next;
    assert [a, b][1..] == [b] && [b][1..] == [];
    assert Legal(Next(w, a), [b]) && After(Next(w, a), [b]) == Next(Next(w, a), b);
  }

  lemma Run3(w: World, a: Action, b: Action, c: Action)
    requires Enabled(w, a) && Enabled(Next(w, a), b) && Enabled(Next(Next(w, a), b), c)
    ensures Legal(w, [a, b, c]) && After(w, [a, b, c]) == Next(Next(Next(w, a), b), c)
  {
    hide Enabled, Next;
    assert [a, b, c][1..] == [b, c];
    Run2(Next(w, a), b, c);
  }

  lemma InitRun(w: World)
    requires w.progress == Rest && w.state == Initializing
    ensures Legal(w, FailFree(w, 0)) && After(w, FailFree(w, 0)) == Stepped(w, 0)
  {
    var w1 := Next(w, Enter);
    Run3(w1, ReadTrigger(true), ReadAck(true), Finish(0));
    assert FailFree(w, 0)[1..] == [ReadTrigger(true), ReadAck(true), Finish(0)];
  }

  lemma CaptureRun(w: World, id: nat)
    requires w.progress == Rest && w.state == Capturing
    ensures Legal(w, FailFree(w, id)) && After(w, FailFree(w, id)) == Stepped(w, id)
  {
    var w1 := Next(w, Enter);
    var w2 := Next(w1, CaptureTags(true));
    Run3(w2, Append(true, id), WriteAckHigh(true, true), Finish(0));
    var run := FailFree(w, id);
    assert run[1..][1..] == [Append(true, id), WriteAckHigh(true, true), Finish(0)];
    assert Legal(w1, run[1..]) && After(w1, run[1..]) == After(w2, run[1..][1..]);
  }

  lemma ReadRun(w: World)
    requires w.progress == Rest && w.state in {Idle, WaitForTriggerLow}
    ensures Legal(w, FailFree(w, 0)) && After(w, FailFree(w, 0)) == Stepped(w, 0)
  {
    hide Legal, After;
    Run3(w, Enter, ReadTrigger(true), Finish(0));
  }

  lemma WriteRun(w: World)
    requires w.progress == Rest && w.state in {AssertAck, ClearAck}
    ensures Legal(w, FailFree(w, 0)) && After(w, FailFree(w, 0)) == Stepped(w, 0)
  {
    hide Legal, After;
    Run3(w, Enter, if w.state == AssertAck then WriteAckHigh(true, true) else WriteAckLow(true, true), Finish(0));
  }

  lemma SilentRun(w: World)
    requires w.progress == Rest && IsSilent(w.state)
    ensures Legal(w, FailFree(w, 0)) && After(w, FailFree(w, 0)) == Stepped(w, 0)
  {
    hide Legal, After;
    Run2(w, Enter, Finish(0));
  }

  /** Stepped is what the model does in one StepMapping without failures. */
  lemma FailFreeStep(w: World, id: nat)
    requires w.progress == Rest
    ensures Legal(w, FailFree(w, id)) && After(w, FailFree(w, id)) == Stepped(w, id)
  {
    hide Legal, After, Enabled, Next;
    match w.state
    case Initializing => InitRun(w);
    case Capturing => CaptureRun(w, id);
    case Idle => ReadRun(w);
    case WaitForTriggerLow => ReadRun(w);
    case AssertAck => WriteRun(w);
    case ClearAck => WriteRun(w);
    case _ => SilentRun(w);
  }

  /** Four steps settle the handshake: the longest way is Backoff, Initializing, CapturePending, Capturing. */
  lemma FourSteps(w: World, i: nat, j: nat, k: nat, l: nat)
    requires Inv(w) && w.progress == Rest
    ensures Settled(Stepped(Stepped(Stepped(Stepped(w, i), j), k), l))
  {
  }

  /** From every reachable world at rest, four failure-free steps settle the handshake and further ones keep it so. */
  lemma Settles(trigger: bool, ack: bool, run: seq<Action>, ids: seq<nat>)
    requires !(trigger && ack) && Legal(Start(trigger, ack), run)
    requires After(Start(trigger, ack), run).progress == Rest && |ids| >= 4
    ensures Settled(StepMany(After(Start(trigger, ack), run), ids))
  {
    hide Inv, Legal, After, Stepped, Settled, StepMany;
    assert Inv(Start(trigger, ack)) by { StartInv(trigger, ack); }
    var w := After(Start(trigger, ack), run);
    InvRun(Start(trigger, ack), run);
    FourSteps(w, ids[0], ids[1], ids[2], ids[3]);
    StepManyFour(w, ids);
    StaysSettled(Stepped(Stepped(Stepped(Stepped(w, ids[0]), ids[1]), ids[2]), ids[3]), ids[4..]);
  }

  lemma StartInv(trigger: bool, ack: bool)
    requires !(trigger && ack)
    ensures Inv(Start(trigger, ack))
  {
  }

  function StepMany(w: World, ids: seq<nat>): World
    decreases |ids|
  {
    if ids == [] then w else StepMany(Stepped(w, ids[0]), ids[1..])
  }

  lemma StepManyFour(w: World, ids: seq<nat>)
    requires |ids| >= 4
    ensures StepMany(w, ids) == StepMany(Stepped(Stepped(Stepped(Stepped(w, ids[0]), ids[1]), ids[2]), ids[3]), ids[4..])
  {
    hide Stepped;
    assert ids[1..][1..] == ids[2..] && ids[2..][1..] == ids[3..] && ids[3..][1..] == ids[4..];
    var w1 := Stepped(w, ids[0]);
    assert StepMany(w, ids) == StepMany(w1, ids[1..]);
    var w2 := Stepped(w1, ids[1]);
    assert StepMany(w1, ids[1..]) == StepMany(w2, ids[2..]);
    var w3 := Stepped(w2, ids[2]);
    assert StepMany(w2, ids[2..]) == StepMany(w3, ids[3..]);
  }

  lemma {:induction false} StaysSettled(w: World, ids: seq<nat>)
    requires Settled(w)
    ensures Settled(StepMany(w, ids))
    decreases |ids|
  {
    if ids != [] {
      StaysSettled(Stepped(w, ids[0]), ids[1..]);
    }
  }
}
