/** The fault-detection and recovery machine of the flight software: one process lifetime, and
    the restart counter on disk that outlives it. */
module Fdir {
  import opened Wrappers

  datatype FswState = Boot | Nominal | Safe | Critical

  datatype Config = Config(
    tempWarn: real, hysteresisTemp: real, voltageMin: real, socMin: real, errorRateMax: real,
    nominalVoltage: real, stabilityTimer: real, telemetryRateSafe: real, maxWdRestarts: nat)

  /** The four readings the machine looks at; a missing one takes its default. */
  datatype Reading = Reading(
    cpuTemp: Option<real>, voltage: Option<real>, batterySoc: Option<real>, errorRate: Option<real>)

  datatype Fault = OverTemperature | UnderVoltage | LowBattery | CommsErrors

  /** What a tick meets: one clock reading, one sensor reading, and whether the self-test
      would pass. */
  datatype Input = Input(now: real, reading: Reading, selfTestOk: bool)

  datatype Code = T1 | T2 | T3 | T5 | T6 | Unlisted

  datatype Transition = Transition(from: FswState, to: FswState, code: Code, wdRestarts: nat)

  datatype Fsw = Fsw(
    state: FswState, running: bool, tickCount: nat, wdRestarts: nat,
    stabilityStart: Option<real>, lastTelemetry: real, telemetrySeqId: nat,
    activeFaults: seq<Fault>, transitions: seq<Transition>, halts: nat)

  /** `bootCounter` is the content of the counter file, if there is one. */
  datatype Machine = Machine(fsw: Fsw, bootCounter: Option<nat>)

  const FRESH := Fsw(Boot, false, 0, 0, None, 0.0, 0, [], [], 0)

  // ---- Sensor evaluation ----

  function EvaluateFaults(cfg: Config, r: Reading): (faults: seq<Fault>) {
    (if r.cpuTemp.GetOr(0.0) > cfg.tempWarn then [OverTemperature] else []) +
    (if r.voltage.GetOr(cfg.nominalVoltage) < cfg.voltageMin then [UnderVoltage] else []) +
    (if r.batterySoc.GetOr(1.0) < cfg.socMin then [LowBattery] else []) +
    (if r.errorRate.GetOr(0.0) > cfg.errorRateMax then [CommsErrors] else [])
  }

  /** The recovery test, with its margins. */
  predicate ConditionsClear(cfg: Config, r: Reading) {
    && r.cpuTemp.GetOr(0.0) < cfg.tempWarn - cfg.hysteresisTemp
    && r.voltage.GetOr(cfg.nominalVoltage) > cfg.voltageMin + 0.1
    && r.batterySoc.GetOr(1.0) > cfg.socMin + 0.05
    && r.errorRate.GetOr(0.0) < cfg.errorRateMax - 0.02
  }

  // ---- Actions ----

  function CodeOf(from: FswState, to: FswState): Code {
    match (from, to)
    case (Boot, Nominal) => T1
    case (Boot, Safe) => T2
    case (Nominal, Safe) => T3
    case (Safe, Nominal) => T5
    case (Safe, Critical) => T6
    case _ => Unlisted
  }

  function TransitionTo(f: Fsw, to: FswState): (f': Fsw) {
    f.(state := to, transitions := f.transitions + [Transition(f.state, to, CodeOf(f.state, to), f.wdRestarts)])
  }

  function EmitTelemetry(f: Fsw, now: real): (f': Fsw) {
    f.(telemetrySeqId := f.telemetrySeqId + 1, lastTelemetry := now)
  }

  /** The machine before its first start, with whatever counter file an earlier life left. */
  function Off(counter: Option<nat>): Machine {
    Machine(FRESH, counter)
  }

  /** `start` on an object in any state. */
  function StartOn(cfg: Config, m: Machine, recovery: bool): (m': Machine) {
    if recovery then
      var n := m.bootCounter.GetOr(0) + 1;
      var f := m.fsw.(wdRestarts := n);
      if n > cfg.maxWdRestarts
      then Machine(TransitionTo(f, Critical).(running := false), Some(n))
      else Machine(TransitionTo(f, Safe).(running := true), Some(n))
    else
      Machine(TransitionTo(m.fsw.(wdRestarts := 0), Boot).(running := true), Some(0))
  }

  /** A process start, normal or after the watchdog; the object is new, the file is not. */
  function Start(cfg: Config, m: Machine, recovery: bool): (m': Machine) {
    StartOn(cfg, Off(m.bootCounter), recovery)
  }

  function DoBoot(m: Machine, selfTestOk: bool): (m': Machine) {
    if selfTestOk
    then Machine(TransitionTo(m.fsw, Nominal).(wdRestarts := 0), Some(0))
    else m.(fsw := TransitionTo(m.fsw, Safe))
  }

  function DoNominal(cfg: Config, m: Machine, now: real, r: Reading): (m': Machine) {
    var faults := EvaluateFaults(cfg, r);
    if faults != []
    then m.(fsw := TransitionTo(m.fsw.(activeFaults := faults), Safe))
    else m.(fsw := EmitTelemetry(m.fsw, now))
  }

  /** The stability timer after an evaluation, and whether recovery may go ahead. */
  function EvaluateRecovery(cfg: Config, f: Fsw, now: real, r: Reading): (res: (Fsw, bool)) {
    if !ConditionsClear(cfg, r) then (f.(stabilityStart := None), false)
    else if f.stabilityStart.None? then (f.(stabilityStart := Some(now)), false)
    else (f, now - f.stabilityStart.value >= cfg.stabilityTimer)
  }

  predicate RateLimited(cfg: Config, f: Fsw, now: real) {
    now - f.lastTelemetry < cfg.telemetryRateSafe
  }

  function DoSafe(cfg: Config, m: Machine, now: real, r: Reading): (m': Machine) {
    if RateLimited(cfg, m.fsw, now) then m
    else if m.fsw.wdRestarts > cfg.maxWdRestarts then m.(fsw := TransitionTo(m.fsw, Critical))
    else
      var (f, ok) := EvaluateRecovery(cfg, m.fsw, now, r);
      if ok
      then Machine(TransitionTo(f.(activeFaults := [], stabilityStart := None), Nominal).(wdRestarts := 0), Some(0))
      else m.(fsw := EmitTelemetry(f, now))
  }

  function DoCritical(m: Machine): (m': Machine) {
    if m.fsw.running then m.(fsw := m.fsw.(halts := m.fsw.halts + 1, running := false)) else m
  }

  function Tick(cfg: Config, m: Machine, i: Input): (m': Machine) {
    var m1 := m.(fsw := m.fsw.(tickCount := m.fsw.tickCount + 1));
    match m.fsw.state
    case Boot => DoBoot(m1, i.selfTestOk)
    case Nominal => DoNominal(cfg, m1, i.now, i.reading)
    case Safe => DoSafe(cfg, m1, i.now, i.reading)
    case Critical => DoCritical(m1)
  }

  /** The machine after a sequence of ticks. */
  function Ticks(cfg: Config, m: Machine, inputs: seq<Input>): (m': Machine) {
    if inputs == [] then m else
      Tick(cfg, Ticks(cfg, m, inputs[..|inputs| - 1]), inputs[|inputs| - 1])
  }

  function At(cfg: Config, m: Machine, inputs: seq<Input>, k: nat): (m': Machine)
    requires k <= |inputs|
  {
    Ticks(cfg, m, inputs[..k])
  }

  lemma {:induction false} AtStep(cfg: Config, m: Machine, inputs: seq<Input>, k: nat)
    requires k < |inputs|
    ensures At(cfg, m, inputs, k + 1) == Tick(cfg, At(cfg, m, inputs, k), inputs[k])
  {
    assert inputs[..k + 1][..k] == inputs[..k];
  }

  ghost predicate ClockForward(inputs: seq<Input>) {
    forall i, j :: 0 <= i < j < |inputs| ==> inputs[i].now <= inputs[j].now
  }

  // ---- Hysteresis ----

  /** A reading that lets recovery go ahead raises no fault, exactly when the temperature
      margin is not negative; the other three margins are fixed and positive. */
  lemma {:induction false} ClearMeansNoFault(cfg: Config)
    ensures (forall r :: ConditionsClear(cfg, r) ==> EvaluateFaults(cfg, r) == []) <==> cfg.hysteresisTemp >= 0.0
  {
    if cfg.hysteresisTemp < 0.0 {
      var r := Reading(Some(cfg.tempWarn - cfg.hysteresisTemp / 2.0), Some(cfg.voltageMin + 1.0),
                       Some(cfg.socMin + 1.0), Some(cfg.errorRateMax - 1.0));
      assert ConditionsClear(cfg, r) && OverTemperature in EvaluateFaults(cfg, r);
    }
  }

  /** Between a reading that lets recovery go ahead and one that raises a fault, some sensor
      has moved by more than its margin. */
  lemma {:induction false} FaultAfterClearMoves(cfg: Config, clear: Reading, faulty: Reading)
    requires ConditionsClear(cfg, clear) && EvaluateFaults(cfg, faulty) != []
    ensures
      || faulty.cpuTemp.GetOr(0.0) - clear.cpuTemp.GetOr(0.0) > cfg.hysteresisTemp
      || clear.voltage.GetOr(cfg.nominalVoltage) - faulty.voltage.GetOr(cfg.nominalVoltage) > 0.1
      || clear.batterySoc.GetOr(1.0) - faulty.batterySoc.GetOr(1.0) > 0.05
      || faulty.errorRate.GetOr(0.0) - clear.errorRate.GetOr(0.0) > 0.02
  {
  }

  // ---- Anti-oscillation over whole runs ----

  /** Tick k looks at the sensors in SAFE. */
  predicate Evaluates(cfg: Config, m: Machine, inputs: seq<Input>, k: nat)
    requires k < |inputs|
  {
    At(cfg, m, inputs, k).fsw.state == Safe && !RateLimited(cfg, At(cfg, m, inputs, k).fsw, inputs[k].now)
  }

  /** Tick k recovers: SAFE before, NOMINAL after. */
  predicate Recovers(cfg: Config, m: Machine, inputs: seq<Input>, k: nat)
    requires k < |inputs|
  {
    At(cfg, m, inputs, k).fsw.state == Safe && At(cfg, m, inputs, k + 1).fsw.state == Nominal
  }

  /** Tick i saw clear conditions, and from there to just before tick k the machine stayed in
      SAFE and every evaluation saw clear conditions. */
  ghost predicate ClearSince(cfg: Config, m: Machine, inputs: seq<Input>, i: nat, k: nat)
    requires i < k <= |inputs|
  {
    && Evaluates(cfg, m, inputs, i)
    && (forall l :: i <= l <= k ==> At(cfg, m, inputs, l).fsw.state == Safe)
    && (forall l :: i <= l < k && Evaluates(cfg, m, inputs, l) ==> ConditionsClear(cfg, inputs[l].reading))
  }

  lemma {:induction false} TickTimer(cfg: Config, m: Machine, i: Input)
    requires m.fsw.stabilityStart.Some? ==> m.fsw.state == Safe
    requires m.fsw.state == Safe ==> m.fsw.wdRestarts <= cfg.maxWdRestarts
    ensures var m' := Tick(cfg, m, i);
      && (m'.fsw.stabilityStart.Some? ==> m'.fsw.state == Safe)
      && (m'.fsw.stabilityStart.Some? && m'.fsw.stabilityStart != m.fsw.stabilityStart ==>
           && m'.fsw.stabilityStart == Some(i.now) && m.fsw.stabilityStart.None?
           && m.fsw.state == Safe && !RateLimited(cfg, m.fsw, i.now) && ConditionsClear(cfg, i.reading))
      && (m'.fsw.stabilityStart.Some? && m'.fsw.stabilityStart == m.fsw.stabilityStart ==>
           RateLimited(cfg, m.fsw, i.now) || ConditionsClear(cfg, i.reading))
      && (m.fsw.state == Safe && m'.fsw.state == Nominal ==>
           && m.fsw.stabilityStart.Some? && i.now - m.fsw.stabilityStart.value >= cfg.stabilityTimer
           && !RateLimited(cfg, m.fsw, i.now) && ConditionsClear(cfg, i.reading))
  {
  }

  /** The states from which a lifetime's claims are made: right after any start. */
  ghost predicate Started(cfg: Config, m: Machine) {
    && m.fsw.stabilityStart == None
    && m.fsw.wdRestarts <= cfg.maxWdRestarts
  }

  lemma {:induction false} WdBounded(cfg: Config, m: Machine, inputs: seq<Input>)
    requires Started(cfg, m)
    ensures Ticks(cfg, m, inputs).fsw.wdRestarts <= cfg.maxWdRestarts
  {
    if inputs != [] {
      WdBounded(cfg, m, inputs[..|inputs| - 1]);
    }
  }

  lemma {:induction false} ClearSinceExtend(cfg: Config, m: Machine, inputs: seq<Input>, i: nat, k: nat)
    requires k < |inputs|
    requires i < k && ClearSince(cfg, m, inputs, i, k)
    requires At(cfg, m, inputs, k + 1).fsw.state == Safe
    requires Evaluates(cfg, m, inputs, k) ==> ConditionsClear(cfg, inputs[k].reading)
    ensures ClearSince(cfg, m, inputs, i, k + 1)
  {
    hide At, Evaluates, ConditionsClear;
  }

  lemma {:induction false} ClearSinceNew(cfg: Config, m: Machine, inputs: seq<Input>, k: nat)
    requires k < |inputs|
    requires Evaluates(cfg, m, inputs, k) && ConditionsClear(cfg, inputs[k].reading)
    requires At(cfg, m, inputs, k + 1).fsw.state == Safe
    ensures ClearSince(cfg, m, inputs, k, k + 1)
  {
    hide At, ConditionsClear;
  }

  /** A running timer says when the present spell of clear evaluations began. */
  lemma {:induction false} TimerMeaning(cfg: Config, m: Machine, inputs: seq<Input>, k: nat)
    requires Started(cfg, m) && k <= |inputs|
    ensures var f := At(cfg, m, inputs, k).fsw;
      f.stabilityStart.Some? ==>
        && f.state == Safe
        && exists i: nat :: i < k && inputs[i].now == f.stabilityStart.value && ClearSince(cfg, m, inputs, i, k)
  {
    if k > 0 {
      TimerMeaning(cfg, m, inputs, k - 1);
      AtStep(cfg, m, inputs, k - 1);
      WdBounded(cfg, m, inputs[..k - 1]);
      var before, after := At(cfg, m, inputs, k - 1), At(cfg, m, inputs, k);
      TickTimer(cfg, before, inputs[k - 1]);
      assert Evaluates(cfg, m, inputs, k - 1) <==> before.fsw.state == Safe && !RateLimited(cfg, before.fsw, inputs[k - 1].now);
      hide At, Evaluates, ConditionsClear, RateLimited, Tick, ClearSince, Ticks;
      if after.fsw.stabilityStart.Some? {
        if after.fsw.stabilityStart == before.fsw.stabilityStart {
          var i: nat :| i < k - 1 && inputs[i].now == before.fsw.stabilityStart.value && ClearSince(cfg, m, inputs, i, k - 1);
          ClearSinceExtend(cfg, m, inputs, i, k - 1);
        } else {
          ClearSinceNew(cfg, m, inputs, k - 1);
        }
      }
    }
  }

  /** Anti-oscillation: recovery at tick j means an evaluation at some earlier tick i of the
      same SAFE stay, at least the stability time before, with every evaluation from i to j
      clear. */
  lemma {:induction false} RecoveryNeedsStability(cfg: Config, m: Machine, inputs: seq<Input>, j: nat)
    requires Started(cfg, m) && j < |inputs| && Recovers(cfg, m, inputs, j)
    ensures Evaluates(cfg, m, inputs, j) && ConditionsClear(cfg, inputs[j].reading)
    ensures exists i: nat :: i < j && inputs[j].now - inputs[i].now >= cfg.stabilityTimer
              && ClearSince(cfg, m, inputs, i, j)
  {
    TimerMeaning(cfg, m, inputs, j);
    AtStep(cfg, m, inputs, j);
    WdBounded(cfg, m, inputs[..j]);
    TickTimer(cfg, At(cfg, m, inputs, j), inputs[j]);
  }

  /** Two recoveries in one lifetime are at least the stability time apart. */
  lemma {:induction false} RecoveriesApart(cfg: Config, m: Machine, inputs: seq<Input>, j1: nat, j2: nat)
    requires Started(cfg, m) && ClockForward(inputs)
    requires j1 < j2 < |inputs| && Recovers(cfg, m, inputs, j1) && Recovers(cfg, m, inputs, j2)
    ensures inputs[j2].now - inputs[j1].now >= cfg.stabilityTimer
  {
    RecoveryNeedsStability(cfg, m, inputs, j2);
    var i: nat :| i < j2 && inputs[j2].now - inputs[i].now >= cfg.stabilityTimer && ClearSince(cfg, m, inputs, i, j2);
    assert At(cfg, m, inputs, j1 + 1).fsw.state == Nominal;
    assert i > j1 + 1;
  }

  // ---- Bounded recovery ----

  ghost function LastTime(p: real, inputs: seq<Input>): real {
    if inputs == [] then p else inputs[|inputs| - 1].now
  }

  /** Ticks at most d apart, the first at most d after p, all with clear readings. */
  ghost predicate SteadyClear(cfg: Config, p: real, d: real, inputs: seq<Input>)
    decreases |inputs|
  {
    inputs != [] ==>
      && p <= inputs[0].now <= p + d
      && ConditionsClear(cfg, inputs[0].reading)
      && SteadyClear(cfg, inputs[0].now, d, inputs[1..])
  }

  ghost predicate NominalBy(cfg: Config, m: Machine, inputs: seq<Input>, deadline: real) {
    exists k :: 0 < k <= |inputs| && inputs[k - 1].now <= deadline && At(cfg, m, inputs, k).fsw.state == Nominal
  }

  lemma {:induction false} TicksHead(cfg: Config, m: Machine, inputs: seq<Input>)
    requires inputs != []
    ensures Ticks(cfg, m, inputs) == Ticks(cfg, Tick(cfg, m, inputs[0]), inputs[1..])
  {
    if |inputs| > 1 {
      TicksHead(cfg, m, inputs[..|inputs| - 1]);
      assert inputs[1..][..|inputs| - 2] == inputs[..|inputs| - 1][1..];
    } else {
      assert inputs[..0] == [] && inputs[1..] == [];
    }
  }

  /** Reaching NOMINAL after the first tick, or later from the state it leaves. */
  lemma {:induction false} NominalByHead(cfg: Config, m: Machine, inputs: seq<Input>, deadline: real)
    requires inputs != []
    requires var m' := Tick(cfg, m, inputs[0]);
      (inputs[0].now <= deadline && m'.fsw.state == Nominal) || NominalBy(cfg, m', inputs[1..], deadline)
    ensures NominalBy(cfg, m, inputs, deadline)
  {
    var m' := Tick(cfg, m, inputs[0]);
    if inputs[0].now <= deadline && m'.fsw.state == Nominal {
      assert inputs[..1][..0] == [];
      assert At(cfg, m, inputs, 1) == Tick(cfg, Ticks(cfg, m, []), inputs[0]);
    } else {
      var k :| 0 < k <= |inputs| - 1 && inputs[1..][k - 1].now <= deadline && At(cfg, m', inputs[1..], k).fsw.state == Nominal;
      TicksHead(cfg, m, inputs[..k + 1]);
      assert inputs[..k + 1][1..] == inputs[1..][..k];
      assert inputs[k].now == inputs[1..][k - 1].now;
      assert At(cfg, m, inputs, k + 1).fsw.state == Nominal;
    }
  }

  /** With the timer running since s and the last telemetry at a time no later than
      s + STABILITY, recovery comes by s + STABILITY + RATE + d. */
  lemma {:induction false} RecoveryWithTimer(cfg: Config, m: Machine, s: real, p: real, d: real, inputs: seq<Input>)
    requires m.fsw.state == Safe && m.fsw.wdRestarts <= cfg.maxWdRestarts && m.fsw.stabilityStart == Some(s)
    requires d >= 0.0 && cfg.telemetryRateSafe >= 0.0
    requires m.fsw.lastTelemetry <= s + cfg.stabilityTimer && p <= m.fsw.lastTelemetry + cfg.telemetryRateSafe
    requires SteadyClear(cfg, p, d, inputs)
    requires LastTime(p, inputs) > s + cfg.stabilityTimer + cfg.telemetryRateSafe + d
    ensures NominalBy(cfg, m, inputs, s + cfg.stabilityTimer + cfg.telemetryRateSafe + d)
    decreases |inputs|
  {
    var now, m' := inputs[0].now, Tick(cfg, m, inputs[0]);
    if m'.fsw.state != Nominal {
      RecoveryWithTimer(cfg, m', s, now, d, inputs[1..]);
    }
    NominalByHead(cfg, m, inputs, s + cfg.stabilityTimer + cfg.telemetryRateSafe + d);
  }

  /** Bounded recovery. In SAFE at time t0, with ticks at most d apart and every reading clear
      from then on, NOMINAL is reached by t0 + STABILITY + 2 * (RATE + d). The rate limiter
      delays the first evaluation and, once more, the one that finds the timer expired. */
  lemma {:induction false} BoundedRecovery(cfg: Config, m: Machine, t0: real, d: real, inputs: seq<Input>)
    requires m.fsw.state == Safe && m.fsw.wdRestarts <= cfg.maxWdRestarts
    requires m.fsw.lastTelemetry <= t0
    requires m.fsw.stabilityStart.Some? ==> m.fsw.stabilityStart.value <= t0
    requires d >= 0.0 && cfg.telemetryRateSafe >= 0.0 && cfg.stabilityTimer >= 0.0
    requires SteadyClear(cfg, t0, d, inputs)
    requires LastTime(t0, inputs) > t0 + cfg.stabilityTimer + 2.0 * (cfg.telemetryRateSafe + d)
    ensures NominalBy(cfg, m, inputs, t0 + cfg.stabilityTimer + 2.0 * (cfg.telemetryRateSafe + d))
  {
    UntilFirstEvaluation(cfg, m, t0, t0, d, inputs);
  }

  lemma {:induction false} UntilFirstEvaluation(cfg: Config, m: Machine, t0: real, p: real, d: real, inputs: seq<Input>)
    requires m.fsw.state == Safe && m.fsw.wdRestarts <= cfg.maxWdRestarts
    requires m.fsw.lastTelemetry <= t0 <= p <= t0 + cfg.telemetryRateSafe
    requires m.fsw.stabilityStart.Some? ==> m.fsw.stabilityStart.value <= t0
    requires d >= 0.0 && cfg.telemetryRateSafe >= 0.0 && cfg.stabilityTimer >= 0.0
    requires SteadyClear(cfg, p, d, inputs)
    requires LastTime(p, inputs) > t0 + cfg.stabilityTimer + 2.0 * (cfg.telemetryRateSafe + d)
    ensures NominalBy(cfg, m, inputs, t0 + cfg.stabilityTimer + 2.0 * (cfg.telemetryRateSafe + d))
    decreases |inputs|
  {
    var deadline := t0 + cfg.stabilityTimer + 2.0 * (cfg.telemetryRateSafe + d);
    var now, m' := inputs[0].now, Tick(cfg, m, inputs[0]);
    if RateLimited(cfg, m.fsw, now) {
      UntilFirstEvaluation(cfg, m', t0, now, d, inputs[1..]);
    } else if m'.fsw.state != Nominal {
      var s := m'.fsw.stabilityStart.value;
      RecoveryWithTimer(cfg, m', s, now, d, inputs[1..]);
      NominalSooner(cfg, m', inputs[1..], s + cfg.stabilityTimer + cfg.telemetryRateSafe + d, deadline);
    }
    NominalByHead(cfg, m, inputs, deadline);
  }

  lemma {:induction false} NominalSooner(cfg: Config, m: Machine, inputs: seq<Input>, early: real, late: real)
    requires NominalBy(cfg, m, inputs, early) && early <= late
    ensures NominalBy(cfg, m, inputs, late)
  {
  }

  predicate TimesBy(f: Fsw, t: real) {
    f.lastTelemetry <= t && (f.stabilityStart.Some? ==> f.stabilityStart.value <= t)
  }

  lemma {:induction false} TickTimesBy(cfg: Config, m: Machine, input: Input, t: real)
    requires TimesBy(m.fsw, t) && input.now <= t
    ensures TimesBy(Tick(cfg, m, input).fsw, t)
  {
    hide EvaluateFaults, ConditionsClear, CodeOf;
  }

  /** No time the machine has written down lies ahead of the clock. */
  lemma {:induction false} TimesInPast(cfg: Config, m: Machine, inputs: seq<Input>, t: real)
    requires m.fsw.stabilityStart == None && m.fsw.lastTelemetry <= t
    requires forall i :: 0 <= i < |inputs| ==> inputs[i].now <= t
    ensures TimesBy(Ticks(cfg, m, inputs).fsw, t)
  {
    if inputs != [] {
      hide Tick, TimesBy;
      TimesInPast(cfg, m, inputs[..|inputs| - 1], t);
      TickTimesBy(cfg, Ticks(cfg, m, inputs[..|inputs| - 1]), inputs[|inputs| - 1], t);
    }
  }

  /** Bounded recovery in any lifetime: whatever ticks came before, if the machine is in SAFE
      at time t0 and the readings are clear from then on, it recovers by the deadline. */
  lemma {:induction false} RecoveryInLifetime(cfg: Config, counter: Option<nat>, recovery: bool, past: seq<Input>, t0: real, d: real, future: seq<Input>)
    requires var m := Start(cfg, Off(counter), recovery);
      m.fsw.state != Critical && Ticks(cfg, m, past).fsw.state == Safe
    requires 0.0 <= t0 && forall i :: 0 <= i < |past| ==> past[i].now <= t0
    requires d >= 0.0 && cfg.telemetryRateSafe >= 0.0 && cfg.stabilityTimer >= 0.0
    requires SteadyClear(cfg, t0, d, future)
    requires LastTime(t0, future) > t0 + cfg.stabilityTimer + 2.0 * (cfg.telemetryRateSafe + d)
    ensures NominalBy(cfg, Ticks(cfg, Start(cfg, Off(counter), recovery), past), future,
                      t0 + cfg.stabilityTimer + 2.0 * (cfg.telemetryRateSafe + d))
  {
    var m := Start(cfg, Off(counter), recovery);
    StartIsStarted(cfg, Off(counter), recovery);
    TimesInPast(cfg, m, past, t0);
    WdBounded(cfg, m, past);
    hide Start, Ticks, NominalBy;
    BoundedRecovery(cfg, Ticks(cfg, m, past), t0, d, future);
  }

  // ---- Watchdog escalation across process lifetimes ----

  datatype Event = StartUp(recovery: bool) | OneTick(input: Input)

  function Next(cfg: Config, m: Machine, e: Event): (m': Machine) {
    match e
    case StartUp(recovery) => Start(cfg, m, recovery)
    case OneTick(input) => Tick(cfg, m, input)
  }

  function Life(cfg: Config, m: Machine, events: seq<Event>): (m': Machine) {
    if events == [] then m else
      Next(cfg, Life(cfg, m, events[..|events| - 1]), events[|events| - 1])
  }

  /** The event resets the count: a normal start, T1 or T5. */
  predicate Resets(cfg: Config, m: Machine, e: Event) {
    match e
    case StartUp(recovery) => !recovery
    case OneTick(input) =>
      m.fsw.state in {Boot, Safe} && Tick(cfg, m, input).fsw.state == Nominal
  }

  /** The number of recovery starts since the last reset, read off the events. */
  function ConsecutiveRecoveries(cfg: Config, counter: Option<nat>, events: seq<Event>): nat {
    if events == [] then counter.GetOr(0) else
      var front, last := events[..|events| - 1], events[|events| - 1];
      if Resets(cfg, Life(cfg, Off(counter), front), last) then 0
      else ConsecutiveRecoveries(cfg, counter, front) + if last.StartUp? then 1 else 0
  }

  /** Within a lifetime the machine's count is the file's, SAFE means it has not passed the
      limit, and CRITICAL means it has. */
  ghost predicate WatchdogInv(cfg: Config, m: Machine) {
    && m.bootCounter == Some(m.fsw.wdRestarts)
    && (m.fsw.state == Critical <==> m.fsw.wdRestarts > cfg.maxWdRestarts)
  }

  lemma {:induction false} WatchdogStep(cfg: Config, m: Machine, e: Event)
    requires e.OneTick? ==> WatchdogInv(cfg, m)
    ensures WatchdogInv(cfg, Next(cfg, m, e))
    ensures Next(cfg, m, e).fsw.wdRestarts
            == if Resets(cfg, m, e) then 0 else m.bootCounter.GetOr(0) + if e.StartUp? then 1 else 0
  {
  }

  lemma {:induction false} WatchdogRun(cfg: Config, counter: Option<nat>, events: seq<Event>)
    requires events != [] && events[0].StartUp?
    ensures var m := Life(cfg, Off(counter), events);
      WatchdogInv(cfg, m) && m.fsw.wdRestarts == ConsecutiveRecoveries(cfg, counter, events)
  {
    var front, last := events[..|events| - 1], events[|events| - 1];
    if front != [] {
      WatchdogRun(cfg, counter, front);
    }
    WatchdogStep(cfg, Life(cfg, Off(counter), front), last);
    hide Next, Resets;
  }

  /** Escalation: a start enters CRITICAL exactly when it is a recovery start and the recovery
      starts since the last reset exceed MAX_WD_RESTARTS, however many lifetimes that spans. */
  lemma {:induction false} EscalationIsCounted(cfg: Config, counter: Option<nat>, events: seq<Event>)
    requires events != [] && events[0].StartUp? && events[|events| - 1].StartUp?
    ensures Life(cfg, Off(counter), events).fsw.state
            == if !events[|events| - 1].recovery then Boot
               else if ConsecutiveRecoveries(cfg, counter, events) > cfg.maxWdRestarts then Critical
               else Safe
  {
    WatchdogRun(cfg, counter, events);
    StartState(cfg, Life(cfg, Off(counter), events[..|events| - 1]), events[|events| - 1].recovery);
    hide Start, ConsecutiveRecoveries, Resets;
  }

  lemma {:induction false} StartState(cfg: Config, m: Machine, recovery: bool)
    ensures var state := Start(cfg, m, recovery).fsw.state;
      if recovery then state == Safe || state == Critical else state == Boot
  {
  }

  /** Once escalated, every further event short of a normal start leaves the machine CRITICAL. */
  lemma {:induction false} EscalationSticks(cfg: Config, m: Machine, events: seq<Event>)
    requires WatchdogInv(cfg, m) && m.fsw.state == Critical
    requires StartUp(false) !in events
    ensures var m' := Life(cfg, m, events); WatchdogInv(cfg, m') && m'.fsw.state == Critical
  {
    if events != [] {
      var front, last := events[..|events| - 1], events[|events| - 1];
      assert last in events && forall e :: e in front ==> e in events;
      EscalationSticks(cfg, m, front);
    }
  }

  /** A tick that changes the state logs one transition, T1, T2, T3 or T5; any other tick
      logs none. */
  lemma {:induction false} TickCodes(cfg: Config, m: Machine, input: Input)
    requires WatchdogInv(cfg, m)
    ensures var m' := Tick(cfg, m, input);
      && WatchdogInv(cfg, m')
      && (m'.fsw.transitions == m.fsw.transitions <==> m'.fsw.state == m.fsw.state)
      && (m'.fsw.state != m.fsw.state ==>
           exists t :: m'.fsw.transitions == m.fsw.transitions + [t] && t.code in {T1, T2, T3, T5} && t.to != Critical)
  {
    var m' := Tick(cfg, m, input);
    if m'.fsw.state != m.fsw.state {
      var t := Transition(m.fsw.state, m'.fsw.state, CodeOf(m.fsw.state, m'.fsw.state), m.fsw.wdRestarts);
      assert m'.fsw.transitions == m.fsw.transitions + [t];
    }
  }

  predicate Listed(t: Transition) {
    t.code != T6 && (t.to == Critical <==> t.code == Unlisted && t.to != Boot)
  }

  /** In any sequence of lifetimes T6 is never logged, because the escalation branch inside
      SAFE is never taken, and every entry into CRITICAL is logged under no listed code. */
  lemma {:induction false} TransitionCodes(cfg: Config, counter: Option<nat>, events: seq<Event>)
    requires events != [] ==> events[0].StartUp?
    ensures forall t :: t in Life(cfg, Off(counter), events).fsw.transitions ==> Listed(t)
  {
    if events != [] {
      var front, last := events[..|events| - 1], events[|events| - 1];
      TransitionCodes(cfg, counter, front);
      var m := Life(cfg, Off(counter), front);
      match last
      case StartUp(recovery) =>
      case OneTick(input) =>
        WatchdogRun(cfg, counter, front);
        TickCodes(cfg, m, input);
    }
  }

  /** In any sequence of lifetimes the CRITICAL_HALT entry is never logged: only a start enters
      CRITICAL, and it leaves the process not running. */
  lemma {:induction false} HaltNeverLogged(cfg: Config, counter: Option<nat>, events: seq<Event>)
    requires events != [] ==> events[0].StartUp?
    ensures var f := Life(cfg, Off(counter), events).fsw;
      f.halts == 0 && (f.state == Critical ==> !f.running)
  {
    if events != [] {
      var front, last := events[..|events| - 1], events[|events| - 1];
      HaltNeverLogged(cfg, counter, front);
      match last
      case StartUp(recovery) =>
      case OneTick(input) => WatchdogRun(cfg, counter, front);
    }
  }

  /** Every state a start can lead to, short of CRITICAL, meets the premise of the claims
      about one lifetime. */
  lemma {:induction false} StartIsStarted(cfg: Config, m: Machine, recovery: bool)
    ensures Start(cfg, m, recovery).fsw.state != Critical ==> Started(cfg, Start(cfg, m, recovery))
  {
  }
}
