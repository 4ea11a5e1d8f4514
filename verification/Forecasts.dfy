/** Forecasts from telemetry, the search for the first breach, and the alerts raised on them. */
module Forecasts {
  import opened Wrappers
  import opened RealPower
  import opened Thermal
  import opened Energy

  datatype TwinConfig = TwinConfig(
    dtSec: nat, thresholdTemp: real, criticalTemp: real, thresholdSoc: real, criticalSoc: real, minLead: real)
  {
    predicate Valid() {
      dtSec > 0
    }
  }

  /** One telemetry record; a missing field is None. */
  datatype Sample = Sample(cpuTempC: Option<real>, cpuUsagePct: Option<real>, powerW: Option<real>, batterySoc: Option<real>)

  datatype Kind = THERMAL | ENERGY

  datatype Forecast = Forecast(
    kind: Kind, values: seq<real>, breach: Option<nat>, leadMin: Option<real>, current: real, threshold: real)

  // ---- Profiles ----

  function Sum(xs: seq<real>): real {
    if xs == [] then 0.0 else xs[0] + Sum(xs[1..])
  }

  function LastFive(telemetry: seq<Sample>): seq<Sample> {
    if |telemetry| <= 5 then telemetry else telemetry[|telemetry| - 5..]
  }

  /** The mean power of the last five records, a missing reading standing at `power`. */
  function MeanPower(telemetry: seq<Sample>, power: real): real
    requires telemetry != []
  {
    var recent := LastFive(telemetry);
    Sum(seq(|recent|, i requires 0 <= i < |recent| => recent[i].powerW.GetOr(power))) / |recent| as real
  }

  const POWER_BASE_W: real := 2.0
  const POWER_PER_CPU_PCT_W: real := 0.03

  function EstimatePower(cpuPct: real): real {
    POWER_BASE_W + cpuPct * POWER_PER_CPU_PCT_W
  }

  function ThermalPower(telemetry: seq<Sample>): real
    requires telemetry != []
  {
    var latest := telemetry[|telemetry| - 1];
    match latest.powerW
    case Some(p) => MeanPower(telemetry, p)
    case None => EstimatePower(latest.cpuUsagePct.GetOr(50.0))
  }

  function LoadPower(telemetry: seq<Sample>): real
    requires telemetry != []
  {
    MeanPower(telemetry, telemetry[|telemetry| - 1].powerW.GetOr(4.0))
  }

  /** The reading k records before the latest, a missing one standing at `power`. */
  function Back(telemetry: seq<Sample>, k: nat, power: real): real
    requires k < |telemetry|
  {
    match telemetry[|telemetry| - 1 - k].powerW
    case Some(p) => p
    case None => power
  }

  /** The mean is over the latest five records, or over all of them if there are fewer. */
  lemma {:induction false} MeanPowerIs(telemetry: seq<Sample>, power: real)
    requires telemetry != []
    ensures var mean := MeanPower(telemetry, power);
      var total1 := Back(telemetry, 0, power);
      if |telemetry| == 1 then mean == total1 else
        var total2 := total1 + Back(telemetry, 1, power);
        if |telemetry| == 2 then mean * 2.0 == total2 else
          var total3 := total2 + Back(telemetry, 2, power);
          if |telemetry| == 3 then mean * 3.0 == total3 else
            var total4 := total3 + Back(telemetry, 3, power);
            if |telemetry| == 4 then mean * 4.0 == total4
            else mean * 5.0 == total4 + Back(telemetry, 4, power)
  {
    var recent := LastFive(telemetry);
    var xs := seq(|recent|, i requires 0 <= i < |recent| => recent[i].powerW.GetOr(power));
    assert MeanPower(telemetry, power) * |xs| as real == Sum(xs);
    SumOfFew(xs);
    forall k: nat | k < |recent| ensures xs[|recent| - 1 - k] == Back(telemetry, k, power) {
    }
    hide Sum, MeanPower, Back;
  }

  lemma {:induction false} SumOfFew(xs: seq<real>)
    ensures |xs| == 1 ==> Sum(xs) == xs[0]
    ensures |xs| == 2 ==> Sum(xs) == xs[0] + xs[1]
    ensures |xs| == 3 ==> Sum(xs) == xs[0] + xs[1] + xs[2]
    ensures |xs| == 4 ==> Sum(xs) == xs[0] + xs[1] + xs[2] + xs[3]
    ensures |xs| == 5 ==> Sum(xs) == xs[0] + xs[1] + xs[2] + xs[3] + xs[4]
    decreases |xs|
  {
    if xs != [] {
      assert Sum(xs) == xs[0] + Sum(xs[1..]);
      SumOfFew(xs[1..]);
    }
  }

  /** The thermal forecast assumes the mean power while the latest record has one, and else 2 W
      and 0.03 W for each percent of CPU use, taken as 50 if that is missing too; the energy
      forecast assumes the mean power, with the latest reading, or 4 W, in place of missing ones. */
  lemma {:induction false} AssumedPower(telemetry: seq<Sample>)
    requires telemetry != []
    ensures var latest := telemetry[|telemetry| - 1];
      && match latest.powerW
         case Some(p) => ThermalPower(telemetry) == LoadPower(telemetry) == MeanPower(telemetry, p)
         case None =>
           && LoadPower(telemetry) == MeanPower(telemetry, 4.0)
           && match latest.cpuUsagePct
              case Some(cpu) => ThermalPower(telemetry) * 100.0 == 200.0 + 3.0 * cpu
              case None => ThermalPower(telemetry) == 3.5
  {
    hide MeanPower;
  }

  lemma {:induction false} SumBounds(xs: seq<real>, lo: real, hi: real)
    requires forall i :: 0 <= i < |xs| ==> lo <= xs[i] <= hi
    ensures |xs| as real * lo <= Sum(xs) <= |xs| as real * hi
  {
    if xs != [] {
      SumBounds(xs[1..], lo, hi);
      var k := |xs[1..]| as real;
      assert |xs| as real == k + 1.0;
      assert (k + 1.0) * lo == k * lo + lo && (k + 1.0) * hi == k * hi + hi;
    }
  }

  /** The assumed power lies between the least and the greatest recent reading. */
  lemma {:induction false} MeanPowerBounds(telemetry: seq<Sample>, power: real, lo: real, hi: real)
    requires telemetry != []
    requires forall s :: s in LastFive(telemetry) ==> lo <= s.powerW.GetOr(power) <= hi
    ensures lo <= MeanPower(telemetry, power) <= hi
  {
    var recent := LastFive(telemetry);
    var xs := seq(|recent|, i requires 0 <= i < |recent| => recent[i].powerW.GetOr(power));
    assert forall i :: 0 <= i < |recent| ==> recent[i] in recent;
    SumBounds(xs, lo, hi);
    assert MeanPower(telemetry, power) == Sum(xs) / |recent| as real;
    hide Sum, MeanPower, LastFive;
    QuotientBounds(Sum(xs), |recent| as real, lo, hi);
  }

  lemma {:induction false} QuotientBounds(sum: real, n: real, lo: real, hi: real)
    requires n > 0.0 && n * lo <= sum <= n * hi
    ensures lo <= sum / n <= hi
  {
    var mean := sum / n;
    assert mean * n == sum;
    CancelAtMost(lo, mean, n);
    CancelAtMost(mean, hi, n);
  }

  function Full(steps: nat, p: real): (r: seq<real>)
    ensures |r| == steps && forall i :: 0 <= i < steps ==> r[i] == p
  {
    seq(steps, _ => p)
  }

  lemma {:induction false} FullIsConstant(steps: nat, p: real, k: nat)
    requires steps > 0
    ensures At(Full(steps, p), k) == p && At([p], k) == p
  {
  }

  lemma {:induction false} FullTemp(m: Params, dt: real, t0: real, steps: nat, p: real, n: nat)
    requires m.Defined() && steps > 0
    ensures Temp(m, dt, t0, Full(steps, p), n) == Temp(m, dt, t0, [p], n)
  {
    hide EulerStep, At, Full;
    if n > 0 {
      FullTemp(m, dt, t0, steps, p, n - 1);
      FullIsConstant(steps, p, n - 1);
    }
  }

  lemma {:induction false} FullSoc(b: Battery, dt: real, s0: real, steps: nat, p: real, n: nat)
    requires b.Defined() && steps > 0
    ensures Soc(b, dt, s0, Full(steps, p), n) == Soc(b, dt, s0, [p], n)
  {
    hide Rate, Clip, At, Full;
    if n > 0 {
      FullSoc(b, dt, s0, steps, p, n - 1);
      FullIsConstant(steps, p, n - 1);
    }
  }

  // ---- The first breach ----

  predicate Hits(kind: Kind, threshold: real, x: real) {
    match kind
    case THERMAL => x >= threshold
    case ENERGY => x <= threshold
  }

  ghost predicate IsFirst(kind: Kind, threshold: real, values: seq<real>, breach: Option<nat>) {
    match breach
    case None => forall j :: 0 <= j < |values| ==> !Hits(kind, threshold, values[j])
    case Some(i) =>
      && i < |values| && Hits(kind, threshold, values[i])
      && forall j :: 0 <= j < i ==> !Hits(kind, threshold, values[j])
  }

  lemma {:induction false} FirstUnique(kind: Kind, threshold: real, values: seq<real>, a: Option<nat>, b: Option<nat>)
    requires IsFirst(kind, threshold, values, a) && IsFirst(kind, threshold, values, b)
    ensures a == b
  {
  }

  method FindBreach(kind: Kind, threshold: real, values: seq<real>) returns (breach: Option<nat>)
    ensures IsFirst(kind, threshold, values, breach)
    ensures breach.Some? ==>
      breach.value < |values| && if kind == THERMAL then values[breach.value] >= threshold else values[breach.value] <= threshold
    ensures forall j :: 0 <= j < |values| && (breach.Some? ==> j < breach.value) ==>
      if kind == THERMAL then values[j] < threshold else values[j] > threshold
  {
    breach := None;
    for i := 0 to |values|
      invariant breach == None
      invariant forall j :: 0 <= j < i ==> !Hits(kind, threshold, values[j])
    {
      if Hits(kind, threshold, values[i]) {
        breach := Some(i);
        break;
      }
    }
  }

  /** Values that lean further towards the threshold breach no later. */
  lemma {:induction false} WorseValuesBreachNoLater(
    kind: Kind, threshold: real, mild: seq<real>, harsh: seq<real>, i: nat, breach: Option<nat>)
    requires |mild| == |harsh| && IsFirst(kind, threshold, mild, Some(i)) && IsFirst(kind, threshold, harsh, breach)
    requires forall j :: 0 <= j < |mild| ==> if kind.THERMAL? then harsh[j] >= mild[j] else harsh[j] <= mild[j]
    ensures breach.Some? && breach.value <= i
  {
    assert Hits(kind, threshold, harsh[i]);
  }

  // ---- Forecasts ----

  function Steps(c: TwinConfig, horizonMin: int): int
    requires c.Valid()
  {
    horizonMin * 60 / c.dtSec
  }

  /** The forecast has as many whole steps as fit into the horizon. */
  lemma {:induction false} StepsFit(c: TwinConfig, horizonMin: int)
    requires c.Valid()
    ensures var steps := Steps(c, horizonMin);
      steps * c.dtSec <= 60 * horizonMin < (steps + 1) * c.dtSec
  {
    var minutes, d := horizonMin * 60, c.dtSec;
    assert minutes == minutes / d * d + minutes % d;
    assert (minutes / d + 1) * d == minutes / d * d + d;
  }

  function Zeros(steps: int): (r: seq<real>)
    ensures |r| == (if steps < 0 then 0 else steps) && forall i :: 0 <= i < |r| ==> r[i] == 0.0
  {
    seq(if steps < 0 then 0 else steps, _ => 0.0)
  }

  function Lead(c: TwinConfig, breach: Option<nat>): Option<real> {
    match breach
    case None => None
    case Some(i) => Some((i * c.dtSec) as real / 60.0)
  }

  /** The forecast of a run from `current` over `values`. */
  ghost predicate IsForecast(c: TwinConfig, f: Forecast) {
    IsFirst(f.kind, f.threshold, f.values, f.breach) && f.leadMin == Lead(c, f.breach)
  }

  ghost predicate IsThermal(c: TwinConfig, m: Params, telemetry: seq<Sample>, horizonMin: int, f: Forecast)
    requires c.Valid() && m.Defined() && telemetry != []
  {
    && f.kind == THERMAL && f.threshold == c.thresholdTemp && IsForecast(c, f)
    && f.current == telemetry[|telemetry| - 1].cpuTempC.GetOr(60.0)
    && |f.values| == Steps(c, horizonMin)
    && Filled(m, c.dtSec as real, f.current, [ThermalPower(telemetry)], f.values)
  }

  ghost predicate IsEnergy(c: TwinConfig, b: Battery, telemetry: seq<Sample>, horizonMin: int, f: Forecast)
    requires c.Valid() && b.Defined() && telemetry != []
  {
    && f.kind == ENERGY && f.threshold == c.thresholdSoc && IsForecast(c, f)
    && f.current == telemetry[|telemetry| - 1].batterySoc.GetOr(0.8)
    && |f.values| == Steps(c, horizonMin)
    && Charged(b, c.dtSec as real, f.current, [LoadPower(telemetry)], f.values)
  }

  class PredictionEngine {
    const config: TwinConfig
    const thermal: ThermalModel
    const energy: EnergyModel

    constructor (config: TwinConfig, thermal: ThermalModel, energy: EnergyModel)
      ensures this.config == config && this.thermal == thermal && this.energy == energy
    {
      this.config, this.thermal, this.energy := config, thermal, energy;
    }

    /** Without telemetry the forecast is flat and shows no breach; otherwise a horizon of at
        least one step is needed. */
    method PredictThermal(telemetry: seq<Sample>, horizonMin: int) returns (r: Result<Forecast, PredictError>)
      requires config.Valid() && thermal.params.Defined()
      ensures r.Success? <==> telemetry == [] || Steps(config, horizonMin) >= 1
      ensures r.Success? && telemetry == [] ==>
        && r.value == Forecast(THERMAL, Zeros(Steps(config, horizonMin)), None, None, 0.0, 0.0)
        && (forall x :: x in r.value.values ==> x == 0.0)
      ensures r.Success? && telemetry != [] ==> IsThermal(config, thermal.params, telemetry, horizonMin, r.value)
      ensures r.Success? && telemetry != [] ==>
        && r.value.kind == THERMAL && r.value.threshold == config.thresholdTemp
        && r.value.values[0] == r.value.current
        && match telemetry[|telemetry| - 1].cpuTempC
           case Some(x) => r.value.current == x
           case None => r.value.current == 60.0
    {
      hide Temp, ThermalPower, Lead;
      var steps := Steps(config, horizonMin);
      if telemetry == [] {
        return Success(Forecast(THERMAL, Zeros(steps), None, None, 0.0, 0.0));
      }
      if steps < 0 {
        return Failure(ValueError);
      }
      var current := telemetry[|telemetry| - 1].cpuTempC.GetOr(60.0);
      var dt := config.dtSec as real;
      var power := ThermalPower(telemetry);
      var run := thermal.Predict(current, Full(steps, power), steps, dt);
      if run.Failure? {
        return Failure(run.error);
      }
      var values := run.value;
      forall n | 0 <= n < steps ensures values[n] == Temp(thermal.params, dt, current, [power], n) {
        FullTemp(thermal.params, dt, current, steps, power, n);
      }
      var breach := FindBreach(THERMAL, config.thresholdTemp, values);
      r := Success(Forecast(THERMAL, values, breach, Lead(config, breach), current, config.thresholdTemp));
    }

    method PredictEnergy(telemetry: seq<Sample>, horizonMin: int) returns (r: Result<Forecast, PredictError>)
      requires config.Valid() && energy.battery.Defined()
      ensures r.Success? <==> telemetry == [] || Steps(config, horizonMin) >= 1
      ensures r.Success? && telemetry == [] ==>
        && r.value == Forecast(ENERGY, Zeros(Steps(config, horizonMin)), None, None, 0.0, 0.0)
        && (forall x :: x in r.value.values ==> x == 0.0)
      ensures r.Success? && telemetry != [] ==> IsEnergy(config, energy.battery, telemetry, horizonMin, r.value)
      ensures r.Success? && telemetry != [] ==>
        && r.value.kind == ENERGY && r.value.threshold == config.thresholdSoc
        && r.value.values[0] == r.value.current
        && match telemetry[|telemetry| - 1].batterySoc
           case Some(x) => r.value.current == x
           case None => r.value.current == 0.8
    {
      hide Soc, LoadPower, Lead;
      var steps := Steps(config, horizonMin);
      if telemetry == [] {
        return Success(Forecast(ENERGY, Zeros(steps), None, None, 0.0, 0.0));
      }
      if steps < 0 {
        return Failure(ValueError);
      }
      var current := telemetry[|telemetry| - 1].batterySoc.GetOr(0.8);
      var dt := config.dtSec as real;
      var power := LoadPower(telemetry);
      var run := energy.Predict(current, Full(steps, power), steps, dt);
      if run.Failure? {
        return Failure(run.error);
      }
      var values := run.value;
      forall n | 0 <= n < steps ensures values[n] == Soc(energy.battery, dt, current, [power], n) {
        FullSoc(energy.battery, dt, current, steps, power, n);
      }
      var breach := FindBreach(ENERGY, config.thresholdSoc, values);
      r := Success(Forecast(ENERGY, values, breach, Lead(config, breach), current, config.thresholdSoc));
    }
  }

  lemma {:induction false} LongerHorizonMoreSteps(c: TwinConfig, short: int, long: int)
    requires c.Valid() && short <= long
    ensures Steps(c, short) <= Steps(c, long)
  {
    var a, b, d := short * 60, long * 60, c.dtSec;
    QuotientOrder(a / d, b / d, d, a % d, b % d);
  }

  lemma ProductNotNegative(k: int, d: nat)
    ensures k >= 0 ==> k * d >= 0
  {
  }

  lemma QuotientOrder(q: int, r: int, d: nat, x: nat, y: nat)
    requires x < d && y < d && q * d + x <= r * d + y
    ensures q <= r
  {
    var k := q - r - 1;
    ProductNotNegative(k, d);
    assert k * d == q * d - r * d - d;
  }

  /** A longer horizon extends the forecast and keeps a breach that was already found. */
  lemma {:induction false} LongerHorizonKeepsBreach(
    c: TwinConfig, b: Battery, telemetry: seq<Sample>, short: int, long: int, f: Forecast, g: Forecast)
    requires c.Valid() && b.Defined() && telemetry != [] && short <= long
    requires IsEnergy(c, b, telemetry, short, f) && IsEnergy(c, b, telemetry, long, g)
    ensures f.values <= g.values
    ensures f.breach.Some? ==> g.breach == f.breach && g.leadMin == f.leadMin
    ensures f.breach.None? ==> g.breach.None? || g.breach.value >= |f.values|
  {
    hide Soc, LoadPower, Lead;
    LongerHorizonMoreSteps(c, short, long);
    if f.breach.Some? {
      assert IsFirst(ENERGY, c.thresholdSoc, g.values, f.breach);
      FirstUnique(ENERGY, c.thresholdSoc, g.values, f.breach, g.breach);
    }
  }

  /** So does the thermal forecast. */
  lemma {:induction false} LongerHorizonKeepsThermalBreach(
    c: TwinConfig, m: Params, telemetry: seq<Sample>, short: int, long: int, f: Forecast, g: Forecast)
    requires c.Valid() && m.Defined() && telemetry != [] && short <= long
    requires IsThermal(c, m, telemetry, short, f) && IsThermal(c, m, telemetry, long, g)
    ensures f.values <= g.values
    ensures f.breach.Some? ==> g.breach == f.breach && g.leadMin == f.leadMin
    ensures f.breach.None? ==> g.breach.None? || g.breach.value >= |f.values|
  {
    hide Temp, ThermalPower, Lead;
    LongerHorizonMoreSteps(c, short, long);
    if f.breach.Some? {
      assert IsFirst(THERMAL, c.thresholdTemp, g.values, f.breach);
      FirstUnique(THERMAL, c.thresholdTemp, g.values, f.breach, g.breach);
    }
  }

  /** Under a gentle step, more power at every step breaches no later. */
  lemma {:induction false} MorePowerBreachesNoLater(
    m: Params, dt: real, t0: real, threshold: real, p: seq<real>, q: seq<real>,
    mild: seq<real>, harsh: seq<real>, i: nat, breach: Option<nat>)
    requires Gentle(m, dt) && PointwiseAtMost(p, q) && |mild| == |harsh|
    requires Filled(m, dt, t0, p, mild) && Filled(m, dt, t0, q, harsh)
    requires IsFirst(THERMAL, threshold, mild, Some(i)) && IsFirst(THERMAL, threshold, harsh, breach)
    ensures breach.Some? && breach.value <= i
  {
    hide Temp, At;
    forall j | 0 <= j < |mild| ensures harsh[j] >= mild[j] {
      PowerMonotone(m, dt, t0, t0, p, q, j);
    }
    WorseValuesBreachNoLater(THERMAL, threshold, mild, harsh, i, breach);
  }

  /** More load at every step depletes no later. */
  lemma {:induction false} MoreLoadDepletesNoLater(
    b: Battery, dt: real, s0: real, threshold: real, p: seq<real>, q: seq<real>,
    mild: seq<real>, harsh: seq<real>, i: nat, breach: Option<nat>)
    requires b.Valid() && dt >= 0.0 && PointwiseAtMost(p, q) && |mild| == |harsh|
    requires Charged(b, dt, s0, p, mild) && Charged(b, dt, s0, q, harsh)
    requires IsFirst(ENERGY, threshold, mild, Some(i)) && IsFirst(ENERGY, threshold, harsh, breach)
    ensures breach.Some? && breach.value <= i
  {
    hide Soc, At;
    forall j | 0 <= j < |mild| ensures harsh[j] <= mild[j] {
      SocAntitone(b, dt, s0, s0, p, q, j);
    }
    WorseValuesBreachNoLater(ENERGY, threshold, mild, harsh, i, breach);
  }
}
