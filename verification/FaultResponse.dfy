/** What the fault-detection machine does in terms of its limits, its margins and its clocks. */
module FaultResponse {
  import opened Wrappers
  import opened Fdir

  // ---- Limits ----

  /** The reading is beyond the limit that the fault stands for; a missing reading counts as
      0 degrees, the nominal voltage, a full battery or no errors. */
  predicate Beyond(cfg: Config, r: Reading, fault: Fault) {
    match fault
    case OverTemperature => (match r.cpuTemp case Some(t) => t > cfg.tempWarn case None => 0.0 > cfg.tempWarn)
    case UnderVoltage => (match r.voltage case Some(v) => v < cfg.voltageMin case None => cfg.nominalVoltage < cfg.voltageMin)
    case LowBattery => (match r.batterySoc case Some(c) => c < cfg.socMin case None => 1.0 < cfg.socMin)
    case CommsErrors => (match r.errorRate case Some(e) => e > cfg.errorRateMax case None => 0.0 > cfg.errorRateMax)
  }

  predicate AnyBeyond(cfg: Config, r: Reading) {
    || Beyond(cfg, r, OverTemperature)
    || Beyond(cfg, r, UnderVoltage)
    || Beyond(cfg, r, LowBattery)
    || Beyond(cfg, r, CommsErrors)
  }

  /** Every reading is inside its limit by its margin. */
  predicate WellInside(cfg: Config, r: Reading) {
    && (match r.cpuTemp case Some(t) => t + cfg.hysteresisTemp < cfg.tempWarn case None => cfg.hysteresisTemp < cfg.tempWarn)
    && (match r.voltage case Some(v) => v - 0.1 > cfg.voltageMin case None => cfg.nominalVoltage - 0.1 > cfg.voltageMin)
    && (match r.batterySoc case Some(c) => c - 0.05 > cfg.socMin case None => 0.95 > cfg.socMin)
    && (match r.errorRate case Some(e) => e + 0.02 < cfg.errorRateMax case None => 0.02 < cfg.errorRateMax)
  }

  function Place(fault: Fault): nat {
    match fault
    case OverTemperature => 0
    case UnderVoltage => 1
    case LowBattery => 2
    case CommsErrors => 3
  }

  /** The list holds the limits the reading is beyond, each once and in their order. */
  ghost predicate NamesExactly(faults: seq<Fault>, cfg: Config, r: Reading) {
    && (forall fault :: fault in faults <==> Beyond(cfg, r, fault))
    && (forall i, j :: 0 <= i < j < |faults| ==> Place(faults[i]) < Place(faults[j]))
  }

  /** The same for the first n limits. */
  ghost predicate NamesUpTo(faults: seq<Fault>, cfg: Config, r: Reading, n: nat) {
    && (forall fault :: fault in faults <==> Place(fault) < n && Beyond(cfg, r, fault))
    && (forall i, j :: 0 <= i < j < |faults| ==> Place(faults[i]) < Place(faults[j]))
  }

  function Named(cfg: Config, r: Reading, fault: Fault): seq<Fault> {
    if Beyond(cfg, r, fault) then [fault] else []
  }

  lemma NameNext(faults: seq<Fault>, cfg: Config, r: Reading, fault: Fault)
    requires NamesUpTo(faults, cfg, r, Place(fault))
    ensures NamesUpTo(faults + Named(cfg, r, fault), cfg, r, Place(fault) + 1)
  {
    hide Beyond;
    assert forall other :: Place(other) == Place(fault) ==> other == fault;
    forall i | 0 <= i < |faults| ensures Place(faults[i]) < Place(fault) {
      assert faults[i] in faults;
    }
  }

  lemma EvaluatedInOrder(cfg: Config, r: Reading)
    ensures EvaluateFaults(cfg, r)
         == Named(cfg, r, OverTemperature) + Named(cfg, r, UnderVoltage) + Named(cfg, r, LowBattery) + Named(cfg, r, CommsErrors)
  {
  }

  lemma FaultsAre(cfg: Config, r: Reading)
    ensures NamesExactly(EvaluateFaults(cfg, r), cfg, r)
    ensures EvaluateFaults(cfg, r) == [] <==> !AnyBeyond(cfg, r)
  {
    EvaluatedInOrder(cfg, r);
    hide Beyond, EvaluateFaults, Named;
    NameNext([], cfg, r, OverTemperature);
    var a := [] + Named(cfg, r, OverTemperature);
    NameNext(a, cfg, r, UnderVoltage);
    var b := a + Named(cfg, r, UnderVoltage);
    NameNext(b, cfg, r, LowBattery);
    var c := b + Named(cfg, r, LowBattery);
    NameNext(c, cfg, r, CommsErrors);
    var d := c + Named(cfg, r, CommsErrors);
    AllPlaces(d, cfg, r);
    assert a == Named(cfg, r, OverTemperature);
  }

  lemma AllPlaces(faults: seq<Fault>, cfg: Config, r: Reading)
    requires NamesUpTo(faults, cfg, r, 4)
    ensures NamesExactly(faults, cfg, r) && (faults == [] <==> !AnyBeyond(cfg, r))
  {
    hide Beyond;
    assert faults != [] ==> faults[0] in faults;
  }

  // ---- One tick in each state ----

  /** In NOMINAL a tick enters SAFE exactly if a limit is exceeded, logged as T3 with all the
      limits named; otherwise it emits telemetry and changes nothing else. */
  lemma {:induction false} NominalTick(cfg: Config, m: Machine, i: Input)
    requires m.fsw.state == Nominal
    ensures var m', f := Tick(cfg, m, i), m.fsw.(tickCount := m.fsw.tickCount + 1);
      && m'.bootCounter == m.bootCounter
      && if AnyBeyond(cfg, i.reading) then
           && NamesExactly(m'.fsw.activeFaults, cfg, i.reading)
           && m'.fsw == f.(state := Safe, activeFaults := m'.fsw.activeFaults,
                           transitions := f.transitions + [Transition(Nominal, Safe, T3, f.wdRestarts)])
         else m'.fsw == f.(telemetrySeqId := f.telemetrySeqId + 1, lastTelemetry := i.now)
  {
    FaultsAre(cfg, i.reading);
    hide EvaluateFaults, NamesExactly, AnyBeyond;
  }

  /** In SAFE a tick within the reduced telemetry interval does nothing. Otherwise it enters
      CRITICAL, logged as T6, beyond the restart limit; else it recovers, logged as T5, exactly
      if the readings are well inside the limits and the timer has run for the stability time;
      else it starts, keeps or stops the timer and emits telemetry. */
  lemma {:induction false} SafeTick(cfg: Config, m: Machine, i: Input)
    requires m.fsw.state == Safe
    ensures var m', f := Tick(cfg, m, i), m.fsw.(tickCount := m.fsw.tickCount + 1);
      var sent := f.(telemetrySeqId := f.telemetrySeqId + 1, lastTelemetry := i.now);
      if i.now < f.lastTelemetry + cfg.telemetryRateSafe then m' == m.(fsw := f)
      else if f.wdRestarts > cfg.maxWdRestarts then
        m' == m.(fsw := f.(state := Critical, transitions := f.transitions + [Transition(Safe, Critical, T6, f.wdRestarts)]))
      else if !WellInside(cfg, i.reading) then m' == m.(fsw := sent.(stabilityStart := None))
      else if f.stabilityStart == None then m' == m.(fsw := sent.(stabilityStart := Some(i.now)))
      else if i.now < f.stabilityStart.value + cfg.stabilityTimer then m' == m.(fsw := sent)
      else
        && m'.bootCounter == Some(0)
        && m'.fsw == f.(state := Nominal, wdRestarts := 0, activeFaults := [], stabilityStart := None,
                        transitions := f.transitions + [Transition(Safe, Nominal, T5, f.wdRestarts)])
  {
  }

  /** In BOOT a tick passes the self-test into NOMINAL, with the restart count cleared in memory
      and in the file, or fails it into SAFE. */
  lemma {:induction false} BootTick(cfg: Config, m: Machine, i: Input)
    requires m.fsw.state == Boot
    ensures var m', f := Tick(cfg, m, i), m.fsw.(tickCount := m.fsw.tickCount + 1);
      if i.selfTestOk then
        && m'.bootCounter == Some(0)
        && m'.fsw == f.(state := Nominal, wdRestarts := 0,
                        transitions := f.transitions + [Transition(Boot, Nominal, T1, f.wdRestarts)])
      else
        && m'.bootCounter == m.bootCounter
        && m'.fsw == f.(state := Safe, transitions := f.transitions + [Transition(Boot, Safe, T2, f.wdRestarts)])
  {
  }

  /** In CRITICAL a tick halts a process that still runs, once, and changes nothing else. */
  lemma {:induction false} CriticalTick(cfg: Config, m: Machine, i: Input)
    requires m.fsw.state == Critical
    ensures var m', f := Tick(cfg, m, i), m.fsw.(tickCount := m.fsw.tickCount + 1);
      m' == m.(fsw := if m.fsw.running then f.(running := false, halts := f.halts + 1) else f)
  {
  }

  /** A start after the watchdog adds one to the count in the file and enters SAFE, or CRITICAL
      and halt beyond the limit; a normal start clears the count and enters BOOT. */
  lemma {:induction false} StartIs(cfg: Config, counter: Option<nat>, recovery: bool)
    ensures var m, n := Start(cfg, Off(counter), recovery), if recovery then counter.GetOr(0) + 1 else 0;
      var state := if !recovery then Boot else if n > cfg.maxWdRestarts then Critical else Safe;
      && m.bootCounter == Some(n)
      && m.fsw == Fsw(state, state != Critical, 0, n, None, 0.0, 0, [],
                      [Transition(Boot, state, if state == Safe then T2 else Unlisted, n)], 0)
  {
  }

  /** `start` again on a used object does the same to the count, the file and the state, and
      leaves the timer, the faults and the telemetry as they are. */
  lemma {:induction false} StartAgainIs(cfg: Config, m: Machine, recovery: bool)
    ensures var m', n, from := StartOn(cfg, m, recovery), if recovery then m.bootCounter.GetOr(0) + 1 else 0, m.fsw.state;
      var state := if !recovery then Boot else if n > cfg.maxWdRestarts then Critical else Safe;
      var code := if from == Boot && state == Safe then T2 else if from == Nominal && state == Safe then T3
                  else if from == Safe && state == Critical then T6 else Unlisted;
      && m'.bootCounter == Some(n)
      && m'.fsw == m.fsw.(state := state, running := state != Critical, wdRestarts := n,
                          transitions := m.fsw.transitions + [Transition(from, state, code, n)])
  {
  }

  // ---- Over a lifetime ----

  /** The limits that are named through a stay in SAFE are those exceeded at the tick that
      entered it from NOMINAL. */
  lemma {:induction false} FaultsNamedInSafe(cfg: Config, m: Machine, inputs: seq<Input>, k: nat, j: nat)
    requires k < j <= |inputs| && At(cfg, m, inputs, k).fsw.state == Nominal
    requires At(cfg, m, inputs, k).fsw.wdRestarts <= cfg.maxWdRestarts
    requires forall l :: k < l <= j ==> At(cfg, m, inputs, l).fsw.state == Safe
    ensures AnyBeyond(cfg, inputs[k].reading)
    ensures NamesExactly(At(cfg, m, inputs, j).fsw.activeFaults, cfg, inputs[k].reading)
    ensures At(cfg, m, inputs, j).fsw.wdRestarts <= cfg.maxWdRestarts
    decreases j
  {
    AtStep(cfg, m, inputs, j - 1);
    var before := At(cfg, m, inputs, j - 1);
    hide At, Tick, Beyond, AnyBeyond, NamesExactly, WellInside;
    if j - 1 == k {
      NominalTick(cfg, before, inputs[k]);
    } else {
      FaultsNamedInSafe(cfg, m, inputs, k, j - 1);
      SafeTick(cfg, before, inputs[j - 1]);
    }
  }

  /** From tick k to tick j the machine is in NOMINAL throughout. */
  ghost predicate StaysNominal(cfg: Config, m: Machine, inputs: seq<Input>, k: nat, j: nat)
    requires k <= j <= |inputs|
  {
    forall l :: k <= l <= j ==> At(cfg, m, inputs, l).fsw.state == Nominal
  }

  ghost predicate NoneBeyond(cfg: Config, inputs: seq<Input>, k: nat, j: nat)
    requires k <= j <= |inputs|
  {
    forall l :: k <= l < j ==> !AnyBeyond(cfg, inputs[l].reading)
  }

  /** NOMINAL is left exactly at the first tick with a limit exceeded. */
  lemma {:induction false} NominalUntilFault(cfg: Config, m: Machine, inputs: seq<Input>, k: nat, j: nat)
    requires k <= j <= |inputs| && At(cfg, m, inputs, k).fsw.state == Nominal
    ensures StaysNominal(cfg, m, inputs, k, j) <==> NoneBeyond(cfg, inputs, k, j)
  {
    hide At, Tick, AnyBeyond, NamesExactly;
    if k < j {
      NominalUntilFault(cfg, m, inputs, k, j - 1);
      assert StaysNominal(cfg, m, inputs, k, j) <==> StaysNominal(cfg, m, inputs, k, j - 1) && At(cfg, m, inputs, j).fsw.state == Nominal;
      assert NoneBeyond(cfg, inputs, k, j) <==> NoneBeyond(cfg, inputs, k, j - 1) && !AnyBeyond(cfg, inputs[j - 1].reading);
      AtStep(cfg, m, inputs, j - 1);
      if At(cfg, m, inputs, j - 1).fsw.state == Nominal {
        NominalTick(cfg, At(cfg, m, inputs, j - 1), inputs[j - 1]);
      }
      assert StaysNominal(cfg, m, inputs, k, j - 1) ==> At(cfg, m, inputs, j - 1).fsw.state == Nominal;
      hide StaysNominal, NoneBeyond;
    }
  }

  /** Tick k is in SAFE and not within the reduced telemetry interval. */
  predicate Looks(cfg: Config, m: Machine, inputs: seq<Input>, k: nat)
    requires k < |inputs|
  {
    var f := At(cfg, m, inputs, k).fsw;
    f.state == Safe && inputs[k].now >= f.lastTelemetry + cfg.telemetryRateSafe
  }

  /** Tick i looked and saw the readings well inside, the machine has stayed in SAFE from there
      to before tick k, and so did every tick between that looked. */
  ghost predicate InsideSince(cfg: Config, m: Machine, inputs: seq<Input>, i: nat, k: nat)
    requires i < k <= |inputs|
  {
    && Looks(cfg, m, inputs, i)
    && (forall l :: i <= l <= k ==> At(cfg, m, inputs, l).fsw.state == Safe)
    && (forall l :: i <= l < k && Looks(cfg, m, inputs, l) ==> WellInside(cfg, inputs[l].reading))
  }

  lemma {:induction false} SameTests(cfg: Config, m: Machine, inputs: seq<Input>, k: nat)
    requires k < |inputs|
    ensures Looks(cfg, m, inputs, k) <==> Evaluates(cfg, m, inputs, k)
    ensures WellInside(cfg, inputs[k].reading) <==> ConditionsClear(cfg, inputs[k].reading)
  {
    hide At;
  }

  lemma {:induction false} SameSpell(cfg: Config, m: Machine, inputs: seq<Input>, i: nat, k: nat)
    requires i < k <= |inputs|
    ensures InsideSince(cfg, m, inputs, i, k) <==> ClearSince(cfg, m, inputs, i, k)
  {
    hide Looks, Evaluates, WellInside, ConditionsClear, At;
    forall l: nat | i <= l < k
      ensures Looks(cfg, m, inputs, l) <==> Evaluates(cfg, m, inputs, l)
      ensures WellInside(cfg, inputs[l].reading) <==> ConditionsClear(cfg, inputs[l].reading)
    {
      SameTests(cfg, m, inputs, l);
    }
  }

  /** A spell of readings well inside keeps the timer running from its first tick or before. */
  lemma {:induction false} TimerRuns(cfg: Config, m: Machine, inputs: seq<Input>, i: nat, k: nat)
    requires Started(cfg, m) && ClockForward(inputs)
    requires i < k <= |inputs| && InsideSince(cfg, m, inputs, i, k)
    ensures var start := At(cfg, m, inputs, k).fsw.stabilityStart;
      start.Some? && start.value <= inputs[i].now
    decreases k
  {
    var before := At(cfg, m, inputs, k - 1);
    AtStep(cfg, m, inputs, k - 1);
    WdBounded(cfg, m, inputs[..k - 1]);
    assert Looks(cfg, m, inputs, k - 1) ==> WellInside(cfg, inputs[k - 1].reading);
    if k - 1 == i {
      TimerMeaning(cfg, m, inputs, i);
    } else {
      TimerRuns(cfg, m, inputs, i, k - 1);
    }
    assert before.fsw.state == Safe;
    assert At(cfg, m, inputs, k).fsw.state == Safe;
    SafeTick(cfg, before, inputs[k - 1]);
    hide At, Tick, WellInside, ClearSince, InsideSince;
  }

  /** Recovery, exactly: a tick in SAFE recovers if and only if it looks, sees the readings well
      inside the limits, and so did every tick that looked since one at least the stability
      time before, in the same stay. */
  lemma {:induction false} RecoversIff(cfg: Config, m: Machine, inputs: seq<Input>, j: nat)
    requires Started(cfg, m) && ClockForward(inputs)
    requires j < |inputs| && At(cfg, m, inputs, j).fsw.state == Safe
    ensures At(cfg, m, inputs, j + 1).fsw.state == Nominal
            <==> && Looks(cfg, m, inputs, j) && WellInside(cfg, inputs[j].reading)
                 && exists i: nat :: i < j && inputs[j].now >= inputs[i].now + cfg.stabilityTimer
                      && InsideSince(cfg, m, inputs, i, j)
  {
    SameTests(cfg, m, inputs, j);
    if At(cfg, m, inputs, j + 1).fsw.state == Nominal {
      RecoveryNeedsStability(cfg, m, inputs, j);
      var i: nat :| i < j && inputs[j].now - inputs[i].now >= cfg.stabilityTimer && ClearSince(cfg, m, inputs, i, j);
      SameSpell(cfg, m, inputs, i, j);
    } else if Looks(cfg, m, inputs, j) && WellInside(cfg, inputs[j].reading) {
      forall i: nat | i < j && inputs[j].now >= inputs[i].now + cfg.stabilityTimer
        ensures !InsideSince(cfg, m, inputs, i, j)
      {
        if InsideSince(cfg, m, inputs, i, j) {
          TimerRuns(cfg, m, inputs, i, j);
          WdBounded(cfg, m, inputs[..j]);
          AtStep(cfg, m, inputs, j);
          SafeTick(cfg, At(cfg, m, inputs, j), inputs[j]);
          assert false;
        }
      }
    }
  }

  // ---- The transition log ----

  /** The entries follow one another from BOOT to the given state, none but the first, a normal
      start's, between one state and itself. */
  ghost predicate WalkTo(ts: seq<Transition>, state: FswState) {
    && ts != [] && ts[0].from == Boot && ts[|ts| - 1].to == state
    && forall i :: 0 < i < |ts| ==> ts[i].from == ts[i - 1].to && ts[i].from != ts[i].to
  }

  lemma {:induction false} WalkOn(ts: seq<Transition>, t: Transition)
    requires ts != [] && WalkTo(ts, t.from) && t.from != t.to
    ensures WalkTo(ts + [t], t.to)
  {
  }

  /** In every lifetime the logged transitions are the walk the machine has made. */
  lemma {:induction false} LogIsWalk(cfg: Config, counter: Option<nat>, recovery: bool, inputs: seq<Input>)
    ensures var f := Ticks(cfg, Start(cfg, Off(counter), recovery), inputs).fsw;
      WalkTo(f.transitions, f.state) && (f.state != Critical ==> f.wdRestarts <= cfg.maxWdRestarts)
  {
    StartIs(cfg, counter, recovery);
    if inputs != [] {
      var front, i := inputs[..|inputs| - 1], inputs[|inputs| - 1];
      LogIsWalk(cfg, counter, recovery, front);
      var m := Ticks(cfg, Start(cfg, Off(counter), recovery), front);
      hide Ticks, Start, WalkTo, AnyBeyond, WellInside, NamesExactly;
      match m.fsw.state
      case Boot =>
        BootTick(cfg, m, i);
        WalkOn(m.fsw.transitions, Transition(Boot, if i.selfTestOk then Nominal else Safe, if i.selfTestOk then T1 else T2, m.fsw.wdRestarts));
      case Nominal =>
        NominalTick(cfg, m, i);
        WalkOn(m.fsw.transitions, Transition(Nominal, Safe, T3, m.fsw.wdRestarts));
      case Safe =>
        SafeTick(cfg, m, i);
        WalkOn(m.fsw.transitions, Transition(Safe, Nominal, T5, m.fsw.wdRestarts));
      case Critical =>
    }
  }

  // ---- Telemetry ----

  /** Tick k emits a telemetry frame. */
  predicate Emits(cfg: Config, m: Machine, inputs: seq<Input>, k: nat)
    requires k < |inputs|
  {
    At(cfg, m, inputs, k + 1).fsw.telemetrySeqId != At(cfg, m, inputs, k).fsw.telemetrySeqId
  }

  lemma {:induction false} EmitStep(cfg: Config, m: Machine, i: Input)
    ensures var m' := Tick(cfg, m, i);
      if m'.fsw.telemetrySeqId != m.fsw.telemetrySeqId
      then m'.fsw.telemetrySeqId == m.fsw.telemetrySeqId + 1 && m'.fsw.lastTelemetry == i.now && m'.fsw.state == m.fsw.state
      else m'.fsw.lastTelemetry == m.fsw.lastTelemetry
  {
  }

  lemma {:induction false} LastFrame(cfg: Config, m: Machine, inputs: seq<Input>, i: nat, k: nat)
    requires i < k <= |inputs| && Emits(cfg, m, inputs, i) && ClockForward(inputs)
    ensures At(cfg, m, inputs, k).fsw.lastTelemetry >= inputs[i].now
    decreases k
  {
    AtStep(cfg, m, inputs, k - 1);
    EmitStep(cfg, At(cfg, m, inputs, k - 1), inputs[k - 1]);
    assert k - 1 == i ==> Emits(cfg, m, inputs, k - 1);
    assert inputs[i].now <= inputs[k - 1].now;
    hide At, Tick, Emits, ClockForward;
    if k - 1 > i {
      LastFrame(cfg, m, inputs, i, k - 1);
    }
  }

  /** A frame that is emitted in SAFE comes at least the reduced telemetry interval after every
      frame before it, in whatever state that one was emitted. */
  lemma {:induction false} SafeFramesApart(cfg: Config, m: Machine, inputs: seq<Input>, i: nat, k: nat)
    requires i < k < |inputs| && ClockForward(inputs)
    requires Emits(cfg, m, inputs, i) && Emits(cfg, m, inputs, k) && At(cfg, m, inputs, k).fsw.state == Safe
    ensures inputs[k].now >= inputs[i].now + cfg.telemetryRateSafe
  {
    LastFrame(cfg, m, inputs, i, k);
    AtStep(cfg, m, inputs, k);
  }
}
