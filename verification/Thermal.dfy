/** The first-order thermal model, integrated by Euler steps over exact reals. */
module Thermal {
  import opened Wrappers
  import opened RealPower

  datatype Params = Params(R: real, C: real, Tamb: real) {
    predicate Defined() {
      R != 0.0 && C != 0.0
    }

    predicate Valid() {
      R > 0.0 && C > 0.0
    }
  }

  datatype PredictError = IndexError | ValueError

  /** A profile shorter than the horizon is extended by its last value. */
  function At<T>(profile: seq<T>, n: nat): T
    requires profile != []
  {
    if n < |profile| then profile[n] else profile[|profile| - 1]
  }

  function EulerStep(m: Params, dt: real, t: real, power: real): real
    requires m.Defined()
  {
    t + dt * (power - (t - m.Tamb) / m.R) / m.C
  }

  /** The temperature after n steps. */
  function Temp(m: Params, dt: real, t0: real, profile: seq<real>, n: nat): real
    requires m.Defined() && profile != []
  {
    if n == 0 then t0 else EulerStep(m, dt, Temp(m, dt, t0, profile, n - 1), At(profile, n - 1))
  }

  ghost predicate Filled(m: Params, dt: real, t0: real, profile: seq<real>, values: seq<real>)
    requires m.Defined() && profile != []
  {
    forall n :: 0 <= n < |values| ==> values[n] == Temp(m, dt, t0, profile, n)
  }

  lemma {:induction false} FilledStart(m: Params, dt: real, t0: real, profile: seq<real>)
    requires m.Defined() && profile != []
    ensures Filled(m, dt, t0, profile, [t0])
  {
  }

  lemma {:induction false} FilledStep(m: Params, dt: real, t0: real, profile: seq<real>, values: seq<real>, next: real)
    requires m.Defined() && profile != [] && values != [] && Filled(m, dt, t0, profile, values)
    requires next == EulerStep(m, dt, values[|values| - 1], At(profile, |values| - 1))
    ensures Filled(m, dt, t0, profile, values + [next])
  {
    hide EulerStep, At;
    assert next == Temp(m, dt, t0, profile, |values|);
  }

  class ThermalModel {
    const params: Params

    constructor (params: Params)
      ensures this.params == params
    {
      this.params := params;
    }

    method Predict(current: real, profile: seq<real>, steps: int, dt: real) returns (r: Result<seq<real>, PredictError>)
      requires params.Defined()
      ensures r.Success? <==> steps >= 1 && (steps >= 2 ==> profile != [])
      ensures r.Failure? ==> r.error == if steps < 0 then ValueError else IndexError
      ensures r.Success? ==> |r.value| == steps && r.value[0] == current
      ensures r.Success? && profile != [] ==> Filled(params, dt, current, profile, r.value)
    {
      hide EulerStep, Temp, At;
      if steps < 0 {
        return Failure(ValueError);
      }
      var T := new real[steps](_ => 0.0);
      if steps == 0 {
        return Failure(IndexError);
      }
      T[0] := current;
      if profile != [] {
        FilledStart(params, dt, current, profile);
        assert T[..1] == [current];
      }
      for n := 0 to steps - 1
        invariant T[0] == current && (n > 0 ==> profile != [])
        invariant profile != [] ==> Filled(params, dt, current, profile, T[..n + 1])
      {
        if profile == [] {
          return Failure(IndexError);
        }
        var next := EulerStep(params, dt, T[n], At(profile, n));
        FilledStep(params, dt, current, profile, T[..n + 1], next);
        T[n + 1] := next;
        assert T[..n + 2] == T[..n + 1] + [next];
      }
      assert T[..] == T[..steps - 1 + 1];
      r := Success(T[..]);
    }
  }

  /** The heat balance of every step: what the node stores is what the power of that step, or
      the profile's last one, brings in less what flows off through the resistance. */
  lemma {:induction false} HeatBalance(m: Params, dt: real, t0: real, profile: seq<real>, n: nat)
    requires m.Defined() && profile != []
    ensures Temp(m, dt, t0, profile, 0) == t0
    ensures var before, after := Temp(m, dt, t0, profile, n), Temp(m, dt, t0, profile, n + 1);
      var power := if n < |profile| then profile[n] else profile[|profile| - 1];
      (after - before) * m.C * m.R == dt * (power * m.R - (before - m.Tamb))
  {
    var t, power := Temp(m, dt, t0, profile, n), At(profile, n);
    assert Temp(m, dt, t0, profile, n + 1) == EulerStep(m, dt, t, power);
    hide Temp, At;
    BalanceOfStep(m, dt, t, power);
  }

  lemma {:induction false} BalanceOfStep(m: Params, dt: real, t: real, power: real)
    requires m.Defined()
    ensures (EulerStep(m, dt, t, power) - t) * m.C * m.R == dt * (power * m.R - (t - m.Tamb))
  {
    var off := (t - m.Tamb) / m.R;
    assert off * m.R == t - m.Tamb;
    var change := dt * (power - off) / m.C;
    assert change * m.C == dt * (power - off);
    assert dt * (power - off) * m.R == dt * (power * m.R - off * m.R);
  }

  // ---- The step as a contraction towards the equilibrium ----

  /** The temperature that a constant power settles at. */
  function Equilibrium(m: Params, power: real): real {
    m.Tamb + power * m.R
  }

  /** The share of the distance to the equilibrium that one step leaves. */
  function Remaining(m: Params, dt: real): real
    requires m.Valid()
  {
    ProductSign(m.R, m.C);
    1.0 - dt / (m.R * m.C)
  }

  lemma {:induction false} StepContracts(m: Params, dt: real, t: real, power: real)
    requires m.Valid()
    ensures var e := Equilibrium(m, power);
      EulerStep(m, dt, t, power) - e == Remaining(m, dt) * (t - e)
  {
    ProductSign(m.R, m.C);
    var R, C, e := m.R, m.C, Equilibrium(m, power);
    var y := (t - m.Tamb) / R;
    assert y * R == t - m.Tamb;
    var k := dt / (R * C);
    assert k * (R * C) == dt;
    var c := dt * (power - y) / C;
    assert c * C == dt * (power - y);
    assert e - t == (power - y) * R;
    ScaledStep(R, C, dt, power - y, k, c);
    assert EulerStep(m, dt, t, power) == t + c;
    assert t + k * (e - t) - e == (1.0 - k) * (t - e);
  }

  lemma {:induction false} ScaledStep(R: real, C: real, dt: real, x: real, k: real, c: real)
    requires C != 0.0 && k * (R * C) == dt && c * C == dt * x
    ensures c == k * (x * R)
  {
    assert dt * x == (k * (R * C)) * x == (k * (x * R)) * C;
    Cancel(c, k * (x * R), C);
  }

  /** Under constant power the distance to the equilibrium shrinks geometrically. */
  lemma {:induction false} ClosedForm(m: Params, dt: real, t0: real, power: real, n: nat)
    requires m.Valid()
    ensures var e := Equilibrium(m, power);
      Temp(m, dt, t0, [power], n) - e == Pow(Remaining(m, dt), n) * (t0 - e)
  {
    hide EulerStep, Remaining;
    var e, a := Equilibrium(m, power), Remaining(m, dt);
    var d := t0 - e;
    if n > 0 {
      ClosedForm(m, dt, t0, power, n - 1);
      StepContracts(m, dt, Temp(m, dt, t0, [power], n - 1), power);
      assert At([power], n - 1) == power;
      var p := Pow(a, n - 1);
      assert Pow(a, n) == a * p;
      assert a * (p * d) == (a * p) * d;
    }
  }

  /** A step length the integration is stable for without overshoot: 0 < dt <= R C. */
  predicate Gentle(m: Params, dt: real) {
    m.Valid() && 0.0 < dt <= m.R * m.C
  }

  lemma {:induction false} GentleRemaining(m: Params, dt: real)
    requires m.Valid() && dt > 0.0
    ensures Remaining(m, dt) < 1.0
    ensures Gentle(m, dt) <==> Remaining(m, dt) >= 0.0
    ensures Remaining(m, dt) > 0.0 <==> dt < m.R * m.C
  {
    ProductSign(m.R, m.C);
    var tau := m.R * m.C;
    var k := dt / tau;
    assert k * tau == dt;
    ScaleByPositive(k, tau);
  }

  lemma {:induction false} RemainingIs(m: Params, dt: real)
    requires m.Valid()
    ensures (1.0 - Remaining(m, dt)) * (m.R * m.C) == dt && m.R * m.C > 0.0
  {
    ProductSign(m.R, m.C);
    assert dt / (m.R * m.C) * (m.R * m.C) == dt;
  }

  lemma {:induction false} ScaleByPositive(k: real, tau: real)
    requires tau > 0.0
    ensures k > 0.0 <==> k * tau > 0.0
    ensures k < 1.0 <==> k * tau < tau
    ensures k > 1.0 <==> k * tau > tau
  {
    ProductSign(tau, k);
    ProductSign(tau, 1.0 - k);
    assert tau * (1.0 - k) == tau - k * tau;
  }

  /** With a gentle step and constant power the temperature moves monotonically towards the
      equilibrium and never crosses it. */
  lemma {:induction false} MonotoneTowards(m: Params, dt: real, t0: real, power: real, n: nat)
    requires Gentle(m, dt)
    ensures var e, t, next := Equilibrium(m, power), Temp(m, dt, t0, [power], n), Temp(m, dt, t0, [power], n + 1);
      && (t0 <= e ==> t0 <= t <= next <= e)
      && (t0 >= e ==> t0 >= t >= next >= e)
  {
    hide Temp, Remaining, Pow;
    var e, a := Equilibrium(m, power), Remaining(m, dt);
    GentleRemaining(m, dt);
    PowRange(a, n);
    PowRange(a, n + 1);
    ClosedForm(m, dt, t0, power, n);
    ClosedForm(m, dt, t0, power, n + 1);
    Shrinks(Pow(a, n), Pow(a, n + 1), t0 - e);
  }

  lemma {:induction false} Shrinks(p: real, q: real, d: real)
    requires 0.0 <= q <= p <= 1.0
    ensures d >= 0.0 ==> 0.0 <= q * d <= p * d <= d
    ensures d <= 0.0 ==> 0.0 >= q * d >= p * d >= d
  {
    ProductSign(q, d);
    ProductSign(p - q, d);
    ProductSign(1.0 - p, d);
    assert (p - q) * d == p * d - q * d && (1.0 - p) * d == d - p * d;
  }

  /** Not negative exactly when step n is on the starting side of the equilibrium, or on it. */
  function Side(m: Params, dt: real, t0: real, power: real, n: nat): real
    requires m.Valid()
  {
    (Temp(m, dt, t0, [power], n) - Equilibrium(m, power)) * (t0 - Equilibrium(m, power))
  }

  ghost predicate NeverCrosses(m: Params, dt: real, t0: real, power: real)
    requires m.Valid()
  {
    forall n: nat :: Side(m, dt, t0, power, n) >= 0.0
  }

  lemma {:induction false} StaysOnSide(m: Params, dt: real, t0: real, power: real, n: nat)
    requires m.Valid() && dt > 0.0 && (Gentle(m, dt) || t0 == Equilibrium(m, power))
    ensures Side(m, dt, t0, power, n) >= 0.0
  {
    hide Temp, Remaining, Equilibrium, Pow;
    ClosedForm(m, dt, t0, power, n);
    GentleRemaining(m, dt);
    var p, d := Pow(Remaining(m, dt), n), t0 - Equilibrium(m, power);
    if d != 0.0 {
      PowRange(Remaining(m, dt), n);
      SquarePositive(d);
      ProductSign(p, d * d);
      assert (p * d) * d == p * (d * d);
    } else {
      assert (p * d) * d == 0.0;
    }
  }

  lemma {:induction false} FirstStepCrosses(m: Params, dt: real, t0: real, power: real)
    requires m.Valid() && dt > 0.0 && !Gentle(m, dt) && t0 != Equilibrium(m, power)
    ensures Side(m, dt, t0, power, 1) < 0.0
  {
    hide EulerStep, Remaining, Equilibrium;
    assert Temp(m, dt, t0, [power], 1) == EulerStep(m, dt, Temp(m, dt, t0, [power], 0), At([power], 0));
    assert At([power], 0) == power;
    StepContracts(m, dt, t0, power);
    GentleRemaining(m, dt);
    var a, d := Remaining(m, dt), t0 - Equilibrium(m, power);
    var x := Temp(m, dt, t0, [power], 1) - Equilibrium(m, power);
    assert x == a * d;
    SquarePositive(d);
    ProductSign(d * d, a);
    assert Side(m, dt, t0, power, 1) == x * d == (d * d) * a;
  }

  /** The trajectory stays on its side of the equilibrium exactly when the step is gentle or it
      starts there. */
  lemma {:induction false} NeverCrossesIff(m: Params, dt: real, t0: real, power: real)
    requires m.Valid() && dt > 0.0
    ensures NeverCrosses(m, dt, t0, power) <==> Gentle(m, dt) || t0 == Equilibrium(m, power)
  {
    hide Side, Equilibrium;
    if Gentle(m, dt) || t0 == Equilibrium(m, power) {
      forall n: nat ensures Side(m, dt, t0, power, n) >= 0.0 {
        StaysOnSide(m, dt, t0, power, n);
      }
    } else {
      FirstStepCrosses(m, dt, t0, power);
    }
  }

  lemma {:induction false} SquarePositive(d: real)
    requires d != 0.0
    ensures d * d > 0.0
  {
    ProductSign(d, d);
    ProductSign(-d, -d);
    assert -d * -d == d * d;
  }

  /** No horizon, however long, shows a temperature at the threshold or above. */
  ghost predicate NeverReaches(m: Params, dt: real, t0: real, power: real, threshold: real)
    requires m.Valid()
  {
    forall n: nat :: Temp(m, dt, t0, [power], n) < threshold
  }

  lemma {:induction false} StaysBelow(m: Params, dt: real, t0: real, power: real, threshold: real, n: nat)
    requires Gentle(m, dt) && t0 < threshold
    requires var e := Equilibrium(m, power); e < threshold || (e == threshold && dt < m.R * m.C)
    ensures Temp(m, dt, t0, [power], n) < threshold
  {
    hide Temp, Remaining, Equilibrium, Pow;
    var e := Equilibrium(m, power);
    if e < threshold {
      MonotoneTowards(m, dt, t0, power, n);
    } else {
      GentleRemaining(m, dt);
      ClosedForm(m, dt, t0, power, n);
      PowRange(Remaining(m, dt), n);
      var p, d := Pow(Remaining(m, dt), n), t0 - e;
      ProductSign(p, d);
      assert Temp(m, dt, t0, [power], n) - e == p * d;
    }
  }

  /** Under a gentle step and constant power, no horizon ever breaches exactly when the start is
      below the threshold and the equilibrium is below it too (or at it, approached from below
      without being reached). */
  lemma {:induction false} NeverReachesIff(m: Params, dt: real, t0: real, power: real, threshold: real)
    requires Gentle(m, dt)
    ensures NeverReaches(m, dt, t0, power, threshold) <==>
      var e := Equilibrium(m, power);
      t0 < threshold && (e < threshold || (e == threshold && dt < m.R * m.C))
  {
    assert Temp(m, dt, t0, [power], 0) == t0;
    hide Temp, Equilibrium;
    var e := Equilibrium(m, power);
    if t0 < threshold {
      if e < threshold || (e == threshold && dt < m.R * m.C) {
        forall n: nat ensures Temp(m, dt, t0, [power], n) < threshold {
          StaysBelow(m, dt, t0, power, threshold, n);
        }
      } else {
        var n := EventuallyReaches(m, dt, t0, power, threshold);
      }
    }
  }

  /** An equilibrium above the threshold is a breach at some horizon. */
  lemma {:induction false} EventuallyReaches(m: Params, dt: real, t0: real, power: real, threshold: real)
    returns (n: nat)
    requires Gentle(m, dt) && t0 < threshold
    requires var e := Equilibrium(m, power); e > threshold || (e == threshold && dt == m.R * m.C)
    ensures Temp(m, dt, t0, [power], n) >= threshold
  {
    hide Temp, Remaining, Equilibrium;
    var e, a := Equilibrium(m, power), Remaining(m, dt);
    GentleRemaining(m, dt);
    if e == threshold {
      n := 1;
      ClosedForm(m, dt, t0, power, 1);
      assert Pow(a, 1) == a * Pow(a, 0);
    } else {
      hide Pow;
      var d := e - t0;
      var eps := (e - threshold) / d;
      assert eps * d == e - threshold;
      ScaleByPositive(eps, d);
      n := PowVanishes(a, eps);
      ClosedForm(m, dt, t0, power, n);
      var p := Pow(a, n);
      TimesMonotone(p, eps, d);
      assert p * (t0 - e) == -(p * d);
    }
  }

  // ---- Comparing power profiles ----

  ghost predicate PointwiseAtMost(p: seq<real>, q: seq<real>) {
    p != [] && q != [] && forall k: nat :: At(p, k) <= At(q, k)
  }

  lemma {:induction false} StepMonotone(m: Params, dt: real, t: real, u: real, p: real, q: real)
    requires Gentle(m, dt) && t <= u && p <= q
    ensures EulerStep(m, dt, t, p) <= EulerStep(m, dt, u, q)
  {
    hide EulerStep, Remaining;
    var a, e, f := Remaining(m, dt), Equilibrium(m, p), Equilibrium(m, q);
    GentleRemaining(m, dt);
    StepContracts(m, dt, t, p);
    StepContracts(m, dt, u, q);
    TimesMonotone(p, q, m.R);
    ProductSign(a, u - t);
    ProductSign(1.0 - a, f - e);
    var x, y := a * (t - e), a * (u - f);
    assert (1.0 - a) * (f - e) == f - e - a * (f - e);
    assert y - x == a * (u - t) - a * (f - e);
  }

  /** More power at every step, and no lower a start, never gives a lower temperature. */
  lemma {:induction false} PowerMonotone(
    m: Params, dt: real, t0: real, u0: real, p: seq<real>, q: seq<real>, n: nat)
    requires Gentle(m, dt) && t0 <= u0 && PointwiseAtMost(p, q)
    ensures Temp(m, dt, t0, p, n) <= Temp(m, dt, u0, q, n)
  {
    hide EulerStep, At;
    if n > 0 {
      PowerMonotone(m, dt, t0, u0, p, q, n - 1);
      StepMonotone(m, dt, Temp(m, dt, t0, p, n - 1), Temp(m, dt, u0, q, n - 1), At(p, n - 1), At(q, n - 1));
    }
  }

  /** With a step longer than R C a burst of power overshoots: the burst leaves a lower
      temperature one step later than no power at all. */
  lemma {:induction false} BurstOvershoots(m: Params, dt: real, t0: real)
    requires m.Valid() && dt > 0.0 && !Gentle(m, dt)
    ensures PointwiseAtMost([0.0], [1.0, 0.0])
    ensures Temp(m, dt, t0, [0.0], 2) > Temp(m, dt, t0, [1.0, 0.0], 2)
  {
    hide EulerStep, Remaining;
    var p, q := [0.0], [1.0, 0.0];
    var a := Remaining(m, dt);
    GentleRemaining(m, dt);
    assert At(p, 0) == 0.0 && At(p, 1) == 0.0 && At(q, 0) == 1.0 && At(q, 1) == 0.0;
    var t1, u1 := Temp(m, dt, t0, p, 1), Temp(m, dt, t0, q, 1);
    assert t1 == EulerStep(m, dt, Temp(m, dt, t0, p, 0), 0.0);
    assert u1 == EulerStep(m, dt, Temp(m, dt, t0, q, 0), 1.0);
    assert Temp(m, dt, t0, p, 2) == EulerStep(m, dt, t1, 0.0);
    assert Temp(m, dt, t0, q, 2) == EulerStep(m, dt, u1, 0.0);
    StepContracts(m, dt, t0, 0.0);
    StepContracts(m, dt, t0, 1.0);
    StepContracts(m, dt, t1, 0.0);
    StepContracts(m, dt, u1, 0.0);
    BurstArithmetic(a, m.R, t0 - m.Tamb, t1 - m.Tamb, u1 - m.Tamb);
  }

  lemma {:induction false} BurstArithmetic(a: real, R: real, x0: real, x1: real, y1: real)
    requires a < 0.0 && R > 0.0 && x1 == a * x0 && y1 - R == a * (x0 - R)
    ensures a * x1 > a * y1
  {
    assert a * (x0 - R) == a * x0 - a * R;
    assert y1 - x1 == (1.0 - a) * R;
    ProductSign(1.0 - a, R);
    ProductSign(y1 - x1, a);
    assert (y1 - x1) * a == a * y1 - a * x1;
  }

  ghost predicate OrderKept(m: Params, dt: real)
    requires m.Valid()
  {
    forall t0: real, p: seq<real>, q: seq<real>, n: nat :: PointwiseAtMost(p, q) ==>
      Temp(m, dt, t0, p, n) <= Temp(m, dt, t0, q, n)
  }

  /** The comparison of profiles carries over to temperatures exactly for gentle steps. */
  lemma {:induction false} OrderKeptIff(m: Params, dt: real)
    requires m.Valid() && dt > 0.0
    ensures OrderKept(m, dt) <==> Gentle(m, dt)
  {
    hide Temp, At;
    if Gentle(m, dt) {
      forall t0: real, p: seq<real>, q: seq<real>, n: nat | PointwiseAtMost(p, q)
        ensures Temp(m, dt, t0, p, n) <= Temp(m, dt, t0, q, n)
      {
        PowerMonotone(m, dt, t0, t0, p, q, n);
      }
    } else {
      BurstOvershoots(m, dt, 0.0);
    }
  }
}
