/** First-order relaxation curves for battery percentage and device temperature.

    Every curve has the shape `asymptote + (start - asymptote) * exp(-t / tau)`.
    The workday is sampled at whole minutes `t`, and for whole `t`
    `exp(-t / tau) == rho^t` with `rho == exp(-1 / tau)`, the share of the gap
    to the asymptote that survives one minute. The model takes `rho` as its
    input in place of `tau`; `tau > 0` corresponds exactly to `0 < rho < 1`.
 */
module Relaxation {

  /** `exp(-t / tau)` at a whole minute `t`, written as `rho^t`. */
  function Decay(t: nat, rho: real): (d: real)
    ensures t == 0 ==> d == 1.0
  {
    if t == 0 then 1.0 else rho * Decay(t - 1, rho)
  }

  /** `rho == exp(-1 / tau)` for a strictly positive time constant `tau`. */
  predicate PositiveTau(rho: real)
  {
    0.0 < rho < 1.0
  }

  lemma DecayUnfold(t: nat, rho: real)
    ensures Decay(t + 1, rho) == rho * Decay(t, rho)
  {
  }

  lemma {:induction false} DecayBounds(t: nat, rho: real)
    requires PositiveTau(rho)
    ensures 0.0 < Decay(t, rho) <= 1.0
  {
    if t > 0 {
      DecayBounds(t - 1, rho);
      DecayUnfold(t - 1, rho);
      var d := Decay(t - 1, rho);
      assert 0.0 < rho * d < d;
    }
  }

  /** One more minute strictly shrinks the remaining gap. */
  lemma DecayStep(t: nat, rho: real)
    requires PositiveTau(rho)
    ensures Decay(t + 1, rho) < Decay(t, rho)
  {
    DecayBounds(t, rho);
    assert Decay(t + 1, rho) == rho * Decay(t, rho);
    assert 0.0 < Decay(t, rho);
  }

  /** For a finite positive `tau` the decay factor strictly shrinks with time. */
  lemma {:induction false} DecayDecreasing(t1: nat, t2: nat, rho: real)
    requires PositiveTau(rho) && t1 < t2
    ensures Decay(t2, rho) < Decay(t1, rho)
  {
    DecayStep(t2 - 1, rho);
    if t1 < t2 - 1 {
      DecayDecreasing(t1, t2 - 1, rho);
    }
  }

  lemma DecayNonIncreasing(t1: nat, t2: nat, rho: real)
    requires PositiveTau(rho) && t1 <= t2
    ensures Decay(t2, rho) <= Decay(t1, rho)
  {
    if t1 < t2 {
      DecayDecreasing(t1, t2, rho);
    }
  }

  /** Battery percentage while discharging: relaxes from `v0` towards `vFinal`. */
  function DischargingBattery(t: nat, v0: real, rho: real, vFinal: real := 0.0): (v: real)
    ensures t == 0 ==> v == v0
  {
    vFinal + (v0 - vFinal) * Decay(t, rho)
  }

  /** Battery percentage while charging: rises from `v0` towards `vFinal` (100%). */
  function ChargingBattery(t: nat, v0: real, rho: real, vFinal: real := 100.0): (v: real)
    ensures t == 0 ==> v == v0
  {
    vFinal - (vFinal - v0) * Decay(t, rho)
  }

  /** Temperature while discharging: heats from `t0` towards `tInfinity` (45 degrees). */
  function DischargingTemp(t: nat, t0: real, rho: real, tInfinity: real := 45.0): (v: real)
    ensures t == 0 ==> v == t0
  {
    tInfinity - (tInfinity - t0) * Decay(t, rho)
  }

  /** Temperature while charging: relaxes from `t0` towards `tFinal` (26 degrees). */
  function ChargingTemp(t: nat, t0: real, rho: real, tFinal: real := 26.0): (v: real)
    ensures t == 0 ==> v == t0
  {
    tFinal + (t0 - tFinal) * Decay(t, rho)
  }

  /** The battery percentage while discharging stays between its start and its asymptote, and never reaches
      the asymptote unless it starts there. */
  lemma DischargingBatteryBounds(t: nat, v0: real, rho: real, vFinal: real)
    requires PositiveTau(rho)
    ensures vFinal <= v0 ==> vFinal <= DischargingBattery(t, v0, rho, vFinal) <= v0
    ensures v0 <= vFinal ==> v0 <= DischargingBattery(t, v0, rho, vFinal) <= vFinal
    ensures v0 != vFinal ==> DischargingBattery(t, v0, rho, vFinal) != vFinal
  {
    DecayBounds(t, rho);
    assert DischargingBattery(t, v0, rho, vFinal) == vFinal + Scale(v0 - vFinal, Decay(t, rho));
  }

  /** Later samples of the battery percentage while discharging are never farther from the asymptote. */
  lemma DischargingBatteryMonotone(t1: nat, t2: nat, v0: real, rho: real, vFinal: real)
    requires PositiveTau(rho) && t1 <= t2
    ensures v0 <= vFinal ==> DischargingBattery(t1, v0, rho, vFinal) <= DischargingBattery(t2, v0, rho, vFinal)
    ensures vFinal <= v0 ==> DischargingBattery(t2, v0, rho, vFinal) <= DischargingBattery(t1, v0, rho, vFinal)
  {
    DecayNonIncreasing(t1, t2, rho);
    DecayBounds(t1, rho);
    DecayBounds(t2, rho);
    ScaleOrder(v0 - vFinal, Decay(t1, rho), Decay(t2, rho));
    assert DischargingBattery(t1, v0, rho, vFinal) == vFinal + Scale(v0 - vFinal, Decay(t1, rho));
    assert DischargingBattery(t2, v0, rho, vFinal) == vFinal + Scale(v0 - vFinal, Decay(t2, rho));
  }

  /** The battery percentage while charging stays between its start and its asymptote, and never reaches
      the asymptote unless it starts there. */
  lemma ChargingBatteryBounds(t: nat, v0: real, rho: real, vFinal: real)
    requires PositiveTau(rho)
    ensures vFinal <= v0 ==> vFinal <= ChargingBattery(t, v0, rho, vFinal) <= v0
    ensures v0 <= vFinal ==> v0 <= ChargingBattery(t, v0, rho, vFinal) <= vFinal
    ensures v0 != vFinal ==> ChargingBattery(t, v0, rho, vFinal) != vFinal
  {
    DecayBounds(t, rho);
    assert ChargingBattery(t, v0, rho, vFinal) == vFinal - Scale(vFinal - v0, Decay(t, rho));
  }

  /** Later samples of the battery percentage while charging are never farther from the asymptote. */
  lemma ChargingBatteryMonotone(t1: nat, t2: nat, v0: real, rho: real, vFinal: real)
    requires PositiveTau(rho) && t1 <= t2
    ensures v0 <= vFinal ==> ChargingBattery(t1, v0, rho, vFinal) <= ChargingBattery(t2, v0, rho, vFinal)
    ensures vFinal <= v0 ==> ChargingBattery(t2, v0, rho, vFinal) <= ChargingBattery(t1, v0, rho, vFinal)
  {
    DecayNonIncreasing(t1, t2, rho);
    DecayBounds(t1, rho);
    DecayBounds(t2, rho);
    ScaleOrder(vFinal - v0, Decay(t1, rho), Decay(t2, rho));
    assert ChargingBattery(t1, v0, rho, vFinal) == vFinal - Scale(vFinal - v0, Decay(t1, rho));
    assert ChargingBattery(t2, v0, rho, vFinal) == vFinal - Scale(vFinal - v0, Decay(t2, rho));
  }

  /** The temperature while discharging stays between its start and its asymptote, and never reaches
      the asymptote unless it starts there. */
  lemma DischargingTempBounds(t: nat, t0: real, rho: real, tInfinity: real)
    requires PositiveTau(rho)
    ensures tInfinity <= t0 ==> tInfinity <= DischargingTemp(t, t0, rho, tInfinity) <= t0
    ensures t0 <= tInfinity ==> t0 <= DischargingTemp(t, t0, rho, tInfinity) <= tInfinity
    ensures t0 != tInfinity ==> DischargingTemp(t, t0, rho, tInfinity) != tInfinity
  {
    DecayBounds(t, rho);
    assert DischargingTemp(t, t0, rho, tInfinity) == tInfinity - Scale(tInfinity - t0, Decay(t, rho));
  }

  /** Later samples of the temperature while discharging are never farther from the asymptote. */
  lemma DischargingTempMonotone(t1: nat, t2: nat, t0: real, rho: real, tInfinity: real)
    requires PositiveTau(rho) && t1 <= t2
    ensures t0 <= tInfinity ==> DischargingTemp(t1, t0, rho, tInfinity) <= DischargingTemp(t2, t0, rho, tInfinity)
    ensures tInfinity <= t0 ==> DischargingTemp(t2, t0, rho, tInfinity) <= DischargingTemp(t1, t0, rho, tInfinity)
  {
    DecayNonIncreasing(t1, t2, rho);
    DecayBounds(t1, rho);
    DecayBounds(t2, rho);
    ScaleOrder(tInfinity - t0, Decay(t1, rho), Decay(t2, rho));
    assert DischargingTemp(t1, t0, rho, tInfinity) == tInfinity - Scale(tInfinity - t0, Decay(t1, rho));
    assert DischargingTemp(t2, t0, rho, tInfinity) == tInfinity - Scale(tInfinity - t0, Decay(t2, rho));
  }

  /** The temperature while charging stays between its start and its asymptote, and never reaches
      the asymptote unless it starts there. */
  lemma ChargingTempBounds(t: nat, t0: real, rho: real, tFinal: real)
    requires PositiveTau(rho)
    ensures tFinal <= t0 ==> tFinal <= ChargingTemp(t, t0, rho, tFinal) <= t0
    ensures t0 <= tFinal ==> t0 <= ChargingTemp(t, t0, rho, tFinal) <= tFinal
    ensures t0 != tFinal ==> ChargingTemp(t, t0, rho, tFinal) != tFinal
  {
    DecayBounds(t, rho);
    assert ChargingTemp(t, t0, rho, tFinal) == tFinal + Scale(t0 - tFinal, Decay(t, rho));
  }

  /** Later samples of the temperature while charging are never farther from the asymptote. */
  lemma ChargingTempMonotone(t1: nat, t2: nat, t0: real, rho: real, tFinal: real)
    requires PositiveTau(rho) && t1 <= t2
    ensures t0 <= tFinal ==> ChargingTemp(t1, t0, rho, tFinal) <= ChargingTemp(t2, t0, rho, tFinal)
    ensures tFinal <= t0 ==> ChargingTemp(t2, t0, rho, tFinal) <= ChargingTemp(t1, t0, rho, tFinal)
  {
    DecayNonIncreasing(t1, t2, rho);
    DecayBounds(t1, rho);
    DecayBounds(t2, rho);
    ScaleOrder(t0 - tFinal, Decay(t1, rho), Decay(t2, rho));
    assert ChargingTemp(t1, t0, rho, tFinal) == tFinal + Scale(t0 - tFinal, Decay(t1, rho));
    assert ChargingTemp(t2, t0, rho, tFinal) == tFinal + Scale(t0 - tFinal, Decay(t2, rho));
  }

  /** A gap `g` to an asymptote scaled by the decay factor `d`, as every curve above does. */
  function Scale(g: real, d: real): (p: real)
    requires 0.0 <= d <= 1.0
    ensures g >= 0.0 ==> 0.0 <= p <= g
    ensures g <= 0.0 ==> g <= p <= 0.0
    ensures g != 0.0 && d != 0.0 ==> p != 0.0
  {
    g * d
  }

  /** A smaller decay factor leaves a smaller share of the gap. */
  lemma ScaleOrder(g: real, d1: real, d2: real)
    requires 0.0 <= d2 <= d1 <= 1.0
    ensures g >= 0.0 ==> Scale(g, d2) <= Scale(g, d1)
    ensures g <= 0.0 ==> Scale(g, d1) <= Scale(g, d2)
  {
    assert Scale(g, d1) == Scale(g, d2) + Scale(g, d1 - d2);
  }

  /** Number of samples in `np.arange(0, n, 1)`: `n` when positive, none otherwise. */
  function Count(n: int): nat
  {
    if n > 0 then n else 0
  }

  /** `np.arange(0, n, 1)`: the minutes `0, 1, ..., n - 1`, built one step at a time. */
  function Arange(n: int): seq<int>
    decreases Count(n)
  {
    if n <= 0 then [] else Arange(n - 1) + [n - 1]
  }

  /** `Count(n)` is the length of `np.arange(0, n, 1)`, for every integer `n`,
      and its element `i` is the minute `i`. */
  lemma {:induction false} ArangeShape(n: int)
    ensures |Arange(n)| == Count(n)
    ensures forall i :: 0 <= i < |Arange(n)| ==> Arange(n)[i] == i
    decreases Count(n)
  {
    if n > 0 {
      ArangeShape(n - 1);
    }
  }

  /** A curve evaluated element-wise at the minutes `0, 1, ..., n - 1`. */
  function Sample(n: int, curve: nat -> real): (s: seq<real>)
  {
    seq(Count(n), (i: int) requires 0 <= i => curve(i))
  }

  /** Sampling is the curve applied element-wise to `np.arange(0, n, 1)`. */
  lemma SampleAt(n: int, curve: nat -> real)
    ensures |Sample(n, curve)| == |Arange(n)|
    ensures forall i :: 0 <= i < |Arange(n)| ==> Arange(n)[i] >= 0 && Sample(n, curve)[i] == curve(Arange(n)[i])
  {
    ArangeShape(n);
  }
}
