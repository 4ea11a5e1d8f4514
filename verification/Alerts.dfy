/** The alert raised on a forecast, and what its severity says about the trajectory. */
module Alerts {
  import opened Wrappers
  import opened RealPower
  import opened Thermal
  import opened Energy
  import opened Forecasts

  datatype Severity = WARNING | CRITICAL

  datatype Alert = Alert(kind: Kind, severity: Severity, leadMin: real, atBreach: Option<real>, meetsRequirement: bool)

  function Max(xs: seq<real>): (m: real)
    requires xs != []
    ensures m in xs && forall i :: 0 <= i < |xs| ==> xs[i] <= m
  {
    if |xs| == 1 then xs[0] else
      var rest := Max(xs[1..]);
      if xs[0] >= rest then xs[0] else rest
  }

  function Min(xs: seq<real>): (m: real)
    requires xs != []
    ensures m in xs && forall i :: 0 <= i < |xs| ==> m <= xs[i]
  {
    if |xs| == 1 then xs[0] else
      var rest := Min(xs[1..]);
      if xs[0] <= rest then xs[0] else rest
  }

  /** The severity by the peak (or trough) of the whole forecast; an empty one peaks at 0, or
      1 for energy. */
  function DetermineSeverity(c: TwinConfig, f: Forecast): Severity {
    match f.kind
    case THERMAL =>
      var peak := if f.values == [] then 0.0 else Max(f.values);
      if peak >= c.criticalTemp then CRITICAL else WARNING
    case ENERGY =>
      var trough := if f.values == [] then 1.0 else Min(f.values);
      if trough <= c.criticalSoc then CRITICAL else WARNING
  }

  function Evaluate(c: TwinConfig, f: Forecast): Option<Alert> {
    if f.breach.None? then None
    else if f.leadMin.None? || f.leadMin.value <= 0.0 then None
    else
      var i := f.breach.value;
      Some(Alert(
        f.kind, DetermineSeverity(c, f), f.leadMin.value,
        if i < |f.values| then Some(f.values[i]) else None,
        f.leadMin.value >= c.minLead))
  }

  /** The value is at the threshold or beyond: above it for a temperature, below it for a
      charge. */
  predicate AtOrBeyond(kind: Kind, limit: real, x: real) {
    if kind == THERMAL then limit <= x else limit >= x
  }

  /** An alert is raised exactly when the forecast starts off the threshold and reaches it
      later; it then tells the first breach, is critical exactly if some value reaches the
      critical limit, and meets the requirement exactly with the useful lead time or more. */
  lemma AlertIff(c: TwinConfig, f: Forecast)
    requires c.Valid() && IsForecast(c, f)
    ensures Evaluate(c, f).Some? <==>
      && f.values != [] && !AtOrBeyond(f.kind, f.threshold, f.values[0])
      && exists i :: 0 <= i < |f.values| && AtOrBeyond(f.kind, f.threshold, f.values[i])
    ensures Evaluate(c, f).Some? ==>
      var a := Evaluate(c, f).value;
      var critical := if f.kind == THERMAL then c.criticalTemp else c.criticalSoc;
      && f.breach.Some? && a.kind == f.kind
      && a.atBreach == Some(f.values[f.breach.value])
      && AtOrBeyond(f.kind, f.threshold, f.values[f.breach.value])
      && (forall i :: 0 <= i < f.breach.value ==> !AtOrBeyond(f.kind, f.threshold, f.values[i]))
      && a.leadMin == (f.breach.value * c.dtSec) as real / 60.0
      && (a.meetsRequirement <==> (f.breach.value * c.dtSec) as real >= c.minLead * 60.0)
      && (a.severity == CRITICAL <==> exists i :: 0 <= i < |f.values| && AtOrBeyond(f.kind, critical, f.values[i]))
  {
    forall x ensures AtOrBeyond(f.kind, f.threshold, x) <==> Hits(f.kind, f.threshold, x) {
    }
    if f.breach.Some? {
      var i := f.breach.value;
      assert i > 0 <==> i * c.dtSec > 0;
    }
    if f.values != [] {
      SeverityIs(c, f);
    }
    hide DetermineSeverity;
  }

  lemma AlertsLate(c: TwinConfig, f: Forecast)
    requires c.Valid() && IsForecast(c, f) && f.values != [] && Evaluate(c, f).Some?
    ensures f.breach.Some? && f.breach.value < |f.values| && Hits(f.kind, f.threshold, f.values[f.breach.value])
    ensures !Hits(f.kind, f.threshold, f.values[0])
  {
    var i := f.breach.value;
    assert i > 0 <==> i * c.dtSec > 0;
  }

  lemma {:induction false} SeverityIs(c: TwinConfig, f: Forecast)
    requires f.values != []
    ensures var critical := if f.kind == THERMAL then c.criticalTemp else c.criticalSoc;
      DetermineSeverity(c, f) == CRITICAL <==> exists i :: 0 <= i < |f.values| && AtOrBeyond(f.kind, critical, f.values[i])
  {
    hide Max, Min;
    if f.kind == THERMAL {
      var peak := Max(f.values);
      var i :| 0 <= i < |f.values| && f.values[i] == peak;
    } else {
      var trough := Min(f.values);
      var i :| 0 <= i < |f.values| && f.values[i] == trough;
    }
  }

  // ---- Severity under constant power or load ----

  /** Under a gentle step, a forecast that starts below the threshold and reaches it rises
      throughout, so the peak is the last value. */
  lemma {:induction false} PeakIsLast(
    c: TwinConfig, m: Params, telemetry: seq<Sample>, horizonMin: int, f: Forecast, i: nat)
    requires c.Valid() && Gentle(m, c.dtSec as real) && telemetry != []
    requires IsThermal(c, m, telemetry, horizonMin, f) && Evaluate(c, f).Some? && i < |f.values|
    ensures f.values[i] <= f.values[|f.values| - 1]
  {
    hide Temp, ThermalPower;
    var dt, power := c.dtSec as real, ThermalPower(telemetry);
    var k := f.breach.value;
    AlertsLate(c, f);
    MonotoneTowards(m, dt, f.current, power, k);
    assert f.values[0] == Temp(m, dt, f.current, [power], 0) == f.current by {
      TempStart(m, dt, f.current, power);
    }
    assert f.values[k] == Temp(m, dt, f.current, [power], k);
    RisesFrom(m, dt, f.current, power, i, |f.values| - 1);
  }

  lemma {:induction false} TempStart(m: Params, dt: real, t0: real, power: real)
    requires m.Defined()
    ensures Temp(m, dt, t0, [power], 0) == t0
  {
  }

  lemma {:induction false} RisesFrom(m: Params, dt: real, t0: real, power: real, i: nat, j: nat)
    requires Gentle(m, dt) && i <= j && t0 <= Equilibrium(m, power)
    ensures Temp(m, dt, t0, [power], i) <= Temp(m, dt, t0, [power], j)
    decreases j
  {
    hide Temp;
    if i < j {
      RisesFrom(m, dt, t0, power, i, j - 1);
      MonotoneTowards(m, dt, t0, power, j - 1);
    }
  }

  // ---- Exactly when the last value grades a thermal alert ----

  /** The peak of an alerting forecast of this many steps is its last value: the step is
      gentle, or there are no more than two steps, or the step is 2 R C and the forecast swings
      between two values and ends on the upper one. */
  predicate PeaksLast(m: Params, dt: real, steps: int)
    requires m.Valid()
  {
    Gentle(m, dt) || steps <= 2 || (dt == 2.0 * (m.R * m.C) && steps % 2 == 0)
  }

  lemma {:induction false} TwiceTau(m: Params, dt: real)
    requires m.Valid()
    ensures Remaining(m, dt) == -1.0 <==> dt == 2.0 * (m.R * m.C)
  {
    hide Remaining;
    RemainingIs(m, dt);
    var k, tau := 1.0 - Remaining(m, dt), m.R * m.C;
    if k == 2.0 {
      assert k * tau == 2.0 * tau;
    }
    if dt == 2.0 * tau {
      Cancel(k, 2.0, tau);
    }
  }

  lemma {:induction false} SwingIs(m: Params, dt: real, t0: real, power: real, n: nat)
    requires m.Valid() && dt == 2.0 * (m.R * m.C)
    ensures var e := Equilibrium(m, power);
      Temp(m, dt, t0, [power], n) == if n % 2 == 0 then t0 else e + (e - t0)
  {
    hide Temp, Remaining, Equilibrium;
    TwiceTau(m, dt);
    ClosedForm(m, dt, t0, power, n);
    PowMinusOne(n);
  }

  /** Where the condition holds, no value of an alerting forecast exceeds the last one. */
  lemma {:induction false} LastIsPeak(
    c: TwinConfig, m: Params, telemetry: seq<Sample>, horizonMin: int, f: Forecast, i: nat)
    requires c.Valid() && m.Valid() && telemetry != [] && PeaksLast(m, c.dtSec as real, Steps(c, horizonMin))
    requires IsThermal(c, m, telemetry, horizonMin, f) && Evaluate(c, f).Some? && i < |f.values|
    ensures f.values[i] <= f.values[|f.values| - 1]
  {
    hide Temp, ThermalPower, Remaining, Steps;
    var dt, power, last := c.dtSec as real, ThermalPower(telemetry), |f.values| - 1;
    var k := f.breach.value;
    AlertsLate(c, f);
    assert f.values[0] < f.values[k];
    if Gentle(m, dt) {
      PeakIsLast(c, m, telemetry, horizonMin, f, i);
    } else if |f.values| > 2 {
      SwingIs(m, dt, f.current, power, 0);
      SwingIs(m, dt, f.current, power, k);
      SwingIs(m, dt, f.current, power, i);
      SwingIs(m, dt, f.current, power, last);
      LastIsOdd(|f.values|);
    }
  }

  lemma LastIsOdd(n: nat)
    requires n > 0 && n % 2 == 0
    ensures (n - 1) % 2 == 1
  {
  }

  /** Where it does not, some start makes a forecast whose step k lies above both its start and
      its last value. */
  lemma {:induction false} Overshoots(m: Params, dt: real, last: nat) returns (t0: real, k: nat)
    requires m.Valid() && dt > 0.0 && last >= 2 && !PeaksLast(m, dt, last + 1)
    ensures 0 < k <= last
    ensures t0 < Temp(m, dt, t0, [0.0], k) && Temp(m, dt, t0, [0.0], last) < Temp(m, dt, t0, [0.0], k)
  {
    hide Temp, Remaining, Equilibrium;
    var e, a := Equilibrium(m, 0.0), Remaining(m, dt);
    GentleRemaining(m, dt);
    TwiceTau(m, dt);
    PowOneTwo(a);
    PowSign(a, last);
    if last % 2 == 0 || a > -1.0 {
      t0, k := e - 1.0, 1;
      if last % 2 == 1 {
        PowInside(a, last);
      }
    } else {
      t0, k := e + 1.0, 2;
      LastIsEven(last);
      ScaleByPositive(-a, -a);
    }
    hide Pow;
    ClosedForm(m, dt, t0, 0.0, k);
    ClosedForm(m, dt, t0, 0.0, last);
    UnitDistance(t0 - e, Pow(a, k));
    UnitDistance(t0 - e, Pow(a, last));
  }

  lemma {:induction false} UnitDistance(d: real, p: real)
    ensures d == 1.0 ==> p * d == p
    ensures d == -1.0 ==> p * d == -p
  {
  }

  lemma LastIsEven(last: nat)
    requires last % 2 == 1
    ensures (last + 1) % 2 == 0
  {
  }

  lemma {:induction false} PowOneTwo(a: real)
    ensures Pow(a, 1) == a && Pow(a, 2) == a * a
  {
    assert Pow(a, 1) == a * Pow(a, 0);
    assert Pow(a, 2) == a * Pow(a, 1);
  }

  lemma {:induction false} FirstHitExists(kind: Kind, threshold: real, values: seq<real>) returns (breach: Option<nat>)
    ensures IsFirst(kind, threshold, values, breach)
  {
    if values == [] {
      breach := None;
    } else {
      var front := values[..|values| - 1];
      breach := FirstHitExists(kind, threshold, front);
      if breach.None? && Hits(kind, threshold, values[|values| - 1]) {
        breach := Some(|values| - 1);
      }
      assert forall j :: 0 <= j < |front| ==> values[j] == front[j];
    }
  }

  /** Where the condition fails, telemetry of one record and suitable thresholds make a
      forecast that is alerted as CRITICAL although its last value is below critical. */
  lemma {:induction false} OvershootPeaksEarly(c: TwinConfig, m: Params, horizonMin: int)
    returns (c': TwinConfig, telemetry: seq<Sample>, f: Forecast)
    requires c.Valid() && m.Valid() && !PeaksLast(m, c.dtSec as real, Steps(c, horizonMin))
    ensures c'.Valid() && c'.dtSec == c.dtSec && telemetry != []
    ensures IsThermal(c', m, telemetry, horizonMin, f) && Evaluate(c', f).Some?
    ensures Evaluate(c', f).value.severity == CRITICAL && f.values[|f.values| - 1] < c'.criticalTemp
  {
    var dt, steps := c.dtSec as real, Steps(c, horizonMin);
    var t0, k := Overshoots(m, dt, steps - 1);
    telemetry := [Sample(Some(t0), None, Some(0.0), None)];
    OneRecordPower(t0, 0.0);
    TempStart(m, dt, t0, 0.0);
    hide Temp, ThermalPower, PeaksLast;
    var values := seq(steps, n requires 0 <= n < steps => Temp(m, dt, t0, [0.0], n));
    c' := c.(thresholdTemp := values[k], criticalTemp := values[k]);
    var breach := FirstHitExists(THERMAL, values[k], values);
    f := Forecast(THERMAL, values, breach, Lead(c', breach), t0, values[k]);
    assert Hits(THERMAL, values[k], values[k]);
    AlertIff(c', f);
  }

  lemma {:induction false} OneRecordPower(t0: real, power: real)
    ensures ThermalPower([Sample(Some(t0), None, Some(power), None)]) == power
  {
    var telemetry := [Sample(Some(t0), None, Some(power), None)];
    assert LastFive(telemetry) == telemetry;
    var xs := seq(1, i requires 0 <= i < 1 => telemetry[i].powerW.GetOr(power));
    assert xs == [power] && Sum(xs[1..]) == 0.0;
    assert MeanPower(telemetry, power) == Sum(xs) / 1 as real;
  }

  /** Every thermal alert of this step length and horizon is CRITICAL exactly if its last
      predicted value reaches the critical temperature. */
  ghost predicate GradedByLast(c: TwinConfig, m: Params, horizonMin: int)
    requires c.Valid() && m.Valid()
  {
    forall c': TwinConfig, telemetry: seq<Sample>, f: Forecast ::
      c'.dtSec == c.dtSec && telemetry != [] && IsThermal(c', m, telemetry, horizonMin, f) && Evaluate(c', f).Some?
      ==> (Evaluate(c', f).value.severity == CRITICAL <==> f.values[|f.values| - 1] >= c'.criticalTemp)
  }

  /** They are, exactly if such forecasts peak last. */
  lemma {:induction false} GradedByLastIff(c: TwinConfig, m: Params, horizonMin: int)
    requires c.Valid() && m.Valid()
    ensures GradedByLast(c, m, horizonMin) <==> PeaksLast(m, c.dtSec as real, Steps(c, horizonMin))
  {
    hide PeaksLast, Filled;
    if PeaksLast(m, c.dtSec as real, Steps(c, horizonMin)) {
      forall c': TwinConfig, telemetry: seq<Sample>, f: Forecast |
        c'.dtSec == c.dtSec && telemetry != [] && IsThermal(c', m, telemetry, horizonMin, f) && Evaluate(c', f).Some?
        ensures Evaluate(c', f).value.severity == CRITICAL <==> f.values[|f.values| - 1] >= c'.criticalTemp
      {
        GradedWhenPeaksLast(c', m, telemetry, horizonMin, f);
      }
    } else {
      var c', telemetry, f := OvershootPeaksEarly(c, m, horizonMin);
    }
  }

  lemma {:induction false} GradedWhenPeaksLast(
    c: TwinConfig, m: Params, telemetry: seq<Sample>, horizonMin: int, f: Forecast)
    requires c.Valid() && m.Valid() && telemetry != [] && PeaksLast(m, c.dtSec as real, Steps(c, horizonMin))
    requires IsThermal(c, m, telemetry, horizonMin, f) && Evaluate(c, f).Some?
    ensures Evaluate(c, f).value.severity == CRITICAL <==> f.values[|f.values| - 1] >= c.criticalTemp
  {
    hide Temp, ThermalPower, PeaksLast;
    forall i | 0 <= i < |f.values| ensures f.values[i] <= f.values[|f.values| - 1] {
      LastIsPeak(c, m, telemetry, horizonMin, f, i);
    }
    assert Max(f.values) == f.values[|f.values| - 1];
  }

  /** With a gentle step, an alert on a thermal forecast is critical exactly when the last
      predicted value reaches the critical temperature. */
  lemma {:induction false} ThermalCriticalIff(
    c: TwinConfig, m: Params, telemetry: seq<Sample>, horizonMin: int, f: Forecast)
    requires c.Valid() && Gentle(m, c.dtSec as real) && telemetry != []
    requires IsThermal(c, m, telemetry, horizonMin, f) && Evaluate(c, f).Some?
    ensures Evaluate(c, f).value.severity == CRITICAL <==> f.values[|f.values| - 1] >= c.criticalTemp
  {
    GradedWhenPeaksLast(c, m, telemetry, horizonMin, f);
  }

  lemma {:induction false} FallsFrom(b: Battery, dt: real, s0: real, load: real, i: nat, j: nat)
    requires b.Valid() && i <= j && 0.0 <= s0 <= 1.0 && Rate(b, dt, load) <= 0.0
    ensures Soc(b, dt, s0, [load], i) >= Soc(b, dt, s0, [load], j)
    decreases j
  {
    if i < j {
      FallsFrom(b, dt, s0, load, i, j - 1);
      SocInRange(b, dt, s0, [load], j - 1);
      assert At([load], j - 1) == load;
    }
  }

  /** An alert on an energy forecast that starts at a fraction is critical exactly when the
      last predicted charge is at the critical level or below. */
  lemma {:induction false} EnergyCriticalIff(
    c: TwinConfig, b: Battery, telemetry: seq<Sample>, horizonMin: int, f: Forecast)
    requires c.Valid() && b.Valid() && telemetry != [] && 0.0 <= f.current <= 1.0
    requires IsEnergy(c, b, telemetry, horizonMin, f) && Evaluate(c, f).Some?
    ensures Evaluate(c, f).value.severity == CRITICAL <==> f.values[|f.values| - 1] <= c.criticalSoc
  {
    hide LoadPower;
    var dt, load := c.dtSec as real, LoadPower(telemetry);
    var k := f.breach.value;
    AlertsLate(c, f);
    assert f.values[0] == f.current > f.values[k] == Soc(b, dt, f.current, [load], k);
    hide Soc;
    SocClosedForm(b, dt, f.current, load, k);
    LineStep(f.current, Rate(b, dt, load), k);
    forall i | 0 <= i < |f.values| ensures f.values[i] >= f.values[|f.values| - 1] {
      FallsFrom(b, dt, f.current, load, i, |f.values| - 1);
    }
    assert Min(f.values) == f.values[|f.values| - 1];
  }
}
