/** The linear state-of-charge model, clipped to [0, 1] at every step, over exact reals. */
module Energy {
  import opened Wrappers
  import opened RealPower
  import opened Thermal

  const BATTERY_CAPACITY_WH: real := 50.0
  const CHARGE_POWER_W: real := 7.0

  datatype Battery = Battery(capacityWh: real, chargeW: real) {
    predicate Defined() {
      capacityWh != 0.0
    }

    predicate Valid() {
      capacityWh > 0.0
    }
  }

  /** Python's `x or default`: zero counts as missing. */
  function OrDefault(x: Option<real>, default: real): real {
    if x.Some? && x.value != 0.0 then x.value else default
  }

  function Clip(x: real): real {
    if x < 0.0 then 0.0 else if x > 1.0 then 1.0 else x
  }

  /** The change of charge that one step brings before clipping. */
  function Rate(b: Battery, dt: real, load: real): real
    requires b.Defined()
  {
    dt * (b.chargeW - load) / (b.capacityWh * 3600.0)
  }

  /** The state of charge after n steps. The start itself is not clipped. */
  function Soc(b: Battery, dt: real, s0: real, profile: seq<real>, n: nat): real
    requires b.Defined() && profile != []
  {
    if n == 0 then s0 else Clip(Soc(b, dt, s0, profile, n - 1) + Rate(b, dt, At(profile, n - 1)))
  }

  ghost predicate Charged(b: Battery, dt: real, s0: real, profile: seq<real>, values: seq<real>)
    requires b.Defined() && profile != []
  {
    forall n :: 0 <= n < |values| ==> values[n] == Soc(b, dt, s0, profile, n)
  }

  lemma {:induction false} ChargedStart(b: Battery, dt: real, s0: real, profile: seq<real>)
    requires b.Defined() && profile != []
    ensures Charged(b, dt, s0, profile, [s0])
  {
  }

  lemma {:induction false} ChargedStep(b: Battery, dt: real, s0: real, profile: seq<real>, values: seq<real>, next: real)
    requires b.Defined() && profile != [] && values != [] && Charged(b, dt, s0, profile, values)
    requires next == Clip(values[|values| - 1] + Rate(b, dt, At(profile, |values| - 1)))
    ensures Charged(b, dt, s0, profile, values + [next])
  {
    hide Clip, Rate, At;
    assert next == Soc(b, dt, s0, profile, |values|);
  }

  class EnergyModel {
    const battery: Battery

    /** A missing or zero parameter is replaced by its default: no model charges at zero power. */
    constructor (capacity: Option<real>, charge: Option<real>)
      ensures battery.capacityWh == if capacity in {None, Some(0.0)} then BATTERY_CAPACITY_WH else capacity.value
      ensures battery.chargeW == if charge in {None, Some(0.0)} then CHARGE_POWER_W else charge.value
      ensures battery.capacityWh != 0.0 && battery.chargeW != 0.0
    {
      battery := Battery(OrDefault(capacity, BATTERY_CAPACITY_WH), OrDefault(charge, CHARGE_POWER_W));
    }

    method Predict(current: real, profile: seq<real>, steps: int, dt: real) returns (r: Result<seq<real>, PredictError>)
      requires battery.Defined()
      ensures r.Success? <==> steps >= 1 && (steps >= 2 ==> profile != [])
      ensures r.Failure? ==> r.error == if steps < 0 then ValueError else IndexError
      ensures r.Success? ==> |r.value| == steps && r.value[0] == current
      ensures r.Success? && profile != [] ==> Charged(battery, dt, current, profile, r.value)
    {
      hide Soc, At, Charged;
      if steps < 0 {
        return Failure(ValueError);
      }
      var SOC := new real[steps](_ => 0.0);
      if steps == 0 {
        return Failure(IndexError);
      }
      SOC[0] := current;
      if profile != [] {
        ChargedStart(battery, dt, current, profile);
        assert SOC[..1] == [current];
      }
      for n := 0 to steps - 1
        invariant SOC[0] == current && (n > 0 ==> profile != [])
        invariant profile != [] ==> Charged(battery, dt, current, profile, SOC[..n + 1])
      {
        if profile == [] {
          return Failure(IndexError);
        }
        ghost var before := SOC[..n + 1];
        var pNet := battery.chargeW - At(profile, n);
        assert dt * pNet / (battery.capacityWh * 3600.0) == Rate(battery, dt, At(profile, n));
        SOC[n + 1] := SOC[n] + dt * pNet / (battery.capacityWh * 3600.0);
        SOC[n + 1] := Clip(SOC[n + 1]);
        ChargedStep(battery, dt, current, profile, before, SOC[n + 1]);
        assert SOC[..n + 2] == before + [SOC[n + 1]];
      }
      assert SOC[..] == SOC[..steps - 1 + 1];
      r := Success(SOC[..]);
    }
  }

  // ---- Range and closed form ----

  /** After one step the state of charge is a fraction, whatever the start and the loads. */
  lemma {:induction false} SocInRange(b: Battery, dt: real, s0: real, profile: seq<real>, n: nat)
    requires b.Defined() && profile != []
    ensures n > 0 || 0.0 <= s0 <= 1.0 ==> 0.0 <= Soc(b, dt, s0, profile, n) <= 1.0
  {
  }

  /** The straight line that the charge would follow without clipping. */
  function Line(s0: real, d: real, n: nat): real {
    s0 + n as real * d
  }

  lemma {:induction false} LineStep(s0: real, d: real, n: nat)
    ensures Line(s0, d, 0) == s0
    ensures n > 0 ==> Line(s0, d, n) == Line(s0, d, n - 1) + d
    ensures d >= 0.0 ==> Line(s0, d, n) >= s0
    ensures d <= 0.0 ==> Line(s0, d, n) <= s0
  {
    var k := n as real;
    ProductSign(k, d);
    if n > 0 {
      assert (n - 1) as real == k - 1.0;
      assert (k - 1.0) * d == k * d - d;
    }
  }

  lemma {:induction false} ClipStep(s0: real, d: real, x: real)
    requires 0.0 <= s0 <= 1.0 && (d >= 0.0 ==> x >= s0) && (d <= 0.0 ==> x <= s0)
    ensures Clip(s0) == s0 && Clip(Clip(x) + d) == Clip(x + d)
  {
  }

  /** Clipping at every step is clipping once at the end, for a constant load and a start that
      is a fraction. */
  lemma {:induction false} SocClosedForm(b: Battery, dt: real, s0: real, load: real, n: nat)
    requires b.Valid() && 0.0 <= s0 <= 1.0
    ensures Soc(b, dt, s0, [load], n) == Clip(Line(s0, Rate(b, dt, load), n))
  {
    hide Rate, Clip, Line;
    var d := Rate(b, dt, load);
    LineStep(s0, d, n);
    if n > 0 {
      SocClosedForm(b, dt, s0, load, n - 1);
      assert At([load], n - 1) == load;
      LineStep(s0, d, n - 1);
      ClipStep(s0, d, Line(s0, d, n - 1));
    } else {
      ClipStep(s0, d, s0);
    }
  }

  lemma {:induction false} SocFirstStep(b: Battery, dt: real, s0: real, load: real, n: nat)
    requires b.Valid() && n > 0
    ensures Soc(b, dt, s0, [load], n) == Soc(b, dt, Clip(s0 + Rate(b, dt, load)), [load], n - 1)
  {
    hide Rate, Clip;
    assert At([load], n - 1) == load;
    if n > 1 {
      SocFirstStep(b, dt, s0, load, n - 1);
      assert At([load], n - 2) == load;
    }
  }

  lemma {:induction false} ClipRange(x: real)
    ensures 0.0 <= Clip(x) <= 1.0
    ensures Clip(x) == x <==> 0.0 <= x <= 1.0
  {
  }

  /** For any start, after the first step: the line from the clipped first value, clipped. */
  lemma {:induction false} SocFromAnyStart(b: Battery, dt: real, s0: real, load: real, n: nat)
    requires b.Valid() && n > 0
    ensures var d := Rate(b, dt, load); Soc(b, dt, s0, [load], n) == Clip(Line(Clip(s0 + d), d, n - 1))
  {
    hide Rate, Clip, Line, Soc;
    SocFirstStep(b, dt, s0, load, n);
    ClipRange(s0 + Rate(b, dt, load));
    SocClosedForm(b, dt, Clip(s0 + Rate(b, dt, load)), load, n - 1);
  }

  /** The forecast is the line from the start, clipped once, at every step. */
  ghost predicate FollowsLine(b: Battery, dt: real, s0: real, load: real)
    requires b.Valid()
  {
    forall n: nat :: Soc(b, dt, s0, [load], n) == Clip(Line(s0, Rate(b, dt, load), n))
  }

  /** It is, exactly for a start in [0, 1]. */
  lemma {:induction false} FollowsLineIff(b: Battery, dt: real, s0: real, load: real)
    requires b.Valid()
    ensures FollowsLine(b, dt, s0, load) <==> 0.0 <= s0 <= 1.0
  {
    var d := Rate(b, dt, load);
    assert Soc(b, dt, s0, [load], 0) == s0;
    hide Rate, Clip, Line, Soc;
    LineStep(s0, d, 0);
    ClipRange(s0);
    if 0.0 <= s0 <= 1.0 {
      forall n: nat ensures Soc(b, dt, s0, [load], n) == Clip(Line(s0, d, n)) {
        SocClosedForm(b, dt, s0, load, n);
      }
    } else {
      assert Soc(b, dt, s0, [load], 0) != Clip(Line(s0, d, 0));
    }
  }

  // ---- Conservation ----

  /** The energy in joules that n steps bring in over what the loads take. */
  function NetEnergy(b: Battery, dt: real, profile: seq<real>, n: nat): real
    requires profile != []
  {
    if n == 0 then 0.0 else NetEnergy(b, dt, profile, n - 1) + dt * (b.chargeW - At(profile, n - 1))
  }

  lemma {:induction false} RateIsPower(b: Battery, dt: real, load: real)
    requires b.Valid()
    ensures Rate(b, dt, load) * (b.capacityWh * 3600.0) == dt * (b.chargeW - load)
  {
  }

  /** While the charge stays off both ends, the stored energy changes by exactly the net energy,
      for every load profile. */
  lemma {:induction false} EnergyConserved(b: Battery, dt: real, s0: real, profile: seq<real>, n: nat)
    requires b.Valid() && profile != []
    requires forall k :: 0 < k <= n ==> 0.0 < Soc(b, dt, s0, profile, k) < 1.0
    ensures (Soc(b, dt, s0, profile, n) - s0) * (b.capacityWh * 3600.0) == NetEnergy(b, dt, profile, n)
  {
    if n > 0 {
      EnergyConserved(b, dt, s0, profile, n - 1);
      var before, after, load := Soc(b, dt, s0, profile, n - 1), Soc(b, dt, s0, profile, n), At(profile, n - 1);
      assert after == Clip(before + Rate(b, dt, load)) == before + Rate(b, dt, load);
      RateIsPower(b, dt, load);
      hide Rate, Soc;
      var j, d := b.capacityWh * 3600.0, Rate(b, dt, load);
      assert (before + d - s0) * j == (before - s0) * j + d * j;
    }
  }

  // ---- Comparison ----

  lemma {:induction false} RateAntitone(b: Battery, dt: real, p: real, q: real)
    requires b.Valid() && dt >= 0.0 && p <= q
    ensures Rate(b, dt, q) <= Rate(b, dt, p)
    ensures p < q && dt > 0.0 ==> Rate(b, dt, q) < Rate(b, dt, p)
  {
    var c, x, y := b.capacityWh * 3600.0, Rate(b, dt, p), Rate(b, dt, q);
    assert x * c == dt * (b.chargeW - p) && y * c == dt * (b.chargeW - q);
    ProductSign(dt, q - p);
    assert dt * (q - p) == x * c - y * c == (x - y) * c;
    ProductSign(c, x - y);
  }

  /** A larger load at every step, and no higher a start, never leaves more charge. */
  lemma {:induction false} SocAntitone(
    b: Battery, dt: real, s0: real, r0: real, p: seq<real>, q: seq<real>, n: nat)
    requires b.Valid() && dt >= 0.0 && s0 >= r0 && PointwiseAtMost(p, q)
    ensures Soc(b, dt, s0, p, n) >= Soc(b, dt, r0, q, n)
  {
    hide Rate, At;
    if n > 0 {
      SocAntitone(b, dt, s0, r0, p, q, n - 1);
      RateAntitone(b, dt, At(p, n - 1), At(q, n - 1));
    }
  }

  // ---- Depletion ----

  /** At a threshold in [0, 1), step n is at or below it exactly when the unclipped line is. */
  lemma {:induction false} DepletedExactly(b: Battery, dt: real, s0: real, load: real, threshold: real, n: nat)
    requires b.Valid() && 0.0 <= s0 <= 1.0 && 0.0 <= threshold < 1.0
    ensures Soc(b, dt, s0, [load], n) <= threshold <==> Line(s0, Rate(b, dt, load), n) <= threshold
  {
    SocClosedForm(b, dt, s0, load, n);
  }

  /** No horizon, however long, shows a charge at the threshold or below. */
  ghost predicate NeverDepletes(b: Battery, dt: real, s0: real, load: real, threshold: real)
    requires b.Defined()
  {
    forall n: nat :: Soc(b, dt, s0, [load], n) > threshold
  }

  lemma {:induction false} ChargeHolds(b: Battery, dt: real, s0: real, load: real, threshold: real, n: nat)
    requires b.Valid() && dt > 0.0 && 0.0 <= threshold < s0 <= 1.0 && load <= b.chargeW
    ensures Soc(b, dt, s0, [load], n) > threshold
  {
    assert Rate(b, dt, b.chargeW) == 0.0;
    hide Soc, Rate;
    RateAntitone(b, dt, load, b.chargeW);
    DepletedExactly(b, dt, s0, load, threshold, n);
    LineStep(s0, Rate(b, dt, load), n);
  }

  lemma {:induction false} EventuallyDepletes(b: Battery, dt: real, s0: real, load: real, threshold: real)
    returns (n: nat)
    requires b.Valid() && dt > 0.0 && 0.0 <= threshold < s0 <= 1.0 && load > b.chargeW
    ensures Soc(b, dt, s0, [load], n) <= threshold
  {
    assert Rate(b, dt, b.chargeW) == 0.0;
    hide Soc, Rate;
    RateAntitone(b, dt, b.chargeW, load);
    var d := -Rate(b, dt, load);
    var x := (s0 - threshold) / d;
    assert x * d == s0 - threshold;
    n := Archimedes(x);
    TimesMonotone(x, n as real, d);
    assert n as real * Rate(b, dt, load) == -(n as real * d);
    assert Line(s0, Rate(b, dt, load), n) <= threshold;
    DepletedExactly(b, dt, s0, load, threshold, n);
  }

  /** No horizon ever shows depletion exactly when the start is above the threshold and the
      load does not exceed the charging power. */
  lemma {:induction false} NeverDepletesIff(b: Battery, dt: real, s0: real, load: real, threshold: real)
    requires b.Valid() && dt > 0.0 && 0.0 <= s0 <= 1.0 && 0.0 <= threshold < 1.0
    ensures NeverDepletes(b, dt, s0, load, threshold) <==> s0 > threshold && load <= b.chargeW
  {
    assert Soc(b, dt, s0, [load], 0) == s0;
    hide Soc;
    if s0 > threshold {
      if load <= b.chargeW {
        forall n: nat ensures Soc(b, dt, s0, [load], n) > threshold {
          ChargeHolds(b, dt, s0, load, threshold, n);
        }
      } else {
        var n := EventuallyDepletes(b, dt, s0, load, threshold);
      }
    }
  }
}
