/** The workday scheduler: from 08:00 to 16:00 the device alternates one
    discharge phase and one charge phase, each sampled once per minute, and the
    samples are appended to three parallel lists (timestamp, battery
    percentage, temperature). Timestamps are whole minutes since midnight.
 */
module Workday {
  import opened Relaxation
  import opened Lists

  const WorkdayStart: int := 8 * 60
  const WorkdayEnd: int := 16 * 60

  /** The scheduler's arguments. Each `rho...` stands for `exp(-1 / tau...)` of
      the matching time constant. */
  datatype Config = Config(
    dischargeTime: int,
    chargeTime: int,
    initialBatteryPercentage: real,
    initialTemperature: real,
    rhoDischarging: real,
    rhoCharging: real,
    rhoTempDischarge: real,
    rhoTempCharge: real)

  /** Indexing the last sample of an empty discharge phase. */
  datatype Error = IndexError

  datatype Result = Ok(series: Series) | Err(error: Error)

  /** Minutes the clock advances per loop iteration. */
  function Period(c: Config): int
  {
    c.dischargeTime + c.chargeTime
  }

  /** Samples appended per loop iteration. */
  function CycleLength(c: Config): nat
  {
    Count(c.dischargeTime) + Count(c.chargeTime)
  }

  /** The timestamps of a phase of `n` samples, written once the clock has
      already advanced to `now`: `now - n, ..., now - 1`. */
  function PhaseTimes(now: int, n: nat): seq<int>
  {
    seq(n, j requires 0 <= j < n => now - (n - j))
  }

  /** A phase's stamps are `n` consecutive minutes that end one minute before
      `now`. */
  lemma PhaseTimesConsecutive(now: int, n: nat)
    ensures |PhaseTimes(now, n)| == n
    ensures n > 0 ==> PhaseTimes(now, n)[0] == now - n && PhaseTimes(now, n)[n - 1] == now - 1
    ensures forall j :: 0 < j < n ==> PhaseTimes(now, n)[j] == PhaseTimes(now, n)[j - 1] + 1
  {
  }

  predicate Within(s: seq<real>, lo: real, hi: real)
  {
    forall i :: 0 <= i < |s| ==> lo <= s[i] <= hi
  }

  /** The lists before the first iteration: the inputs at the start of the day. */
  function Initial(c: Config): (s: Series)
    ensures Aligned(s) && |s.time| == 1
  {
    Series([WorkdayStart], [c.initialBatteryPercentage], [c.initialTemperature])
  }

  /** The battery samples of a discharge phase that starts at `battery0`. */
  function DischargeBatteryPhase(c: Config, battery0: real): seq<real>
  {
    Sample(c.dischargeTime, (t: nat) => DischargingBattery(t, battery0, c.rhoDischarging))
  }

  /** The temperature samples of a discharge phase that starts at `temp0`. */
  function DischargeTempPhase(c: Config, temp0: real): seq<real>
  {
    Sample(c.dischargeTime, (t: nat) => DischargingTemp(t, temp0, c.rhoTempDischarge))
  }

  /** The battery samples of a charge phase that starts at `battery1`. */
  function ChargeBatteryPhase(c: Config, battery1: real): seq<real>
  {
    Sample(c.chargeTime, (t: nat) => ChargingBattery(t, battery1, c.rhoCharging))
  }

  /** The temperature samples of a charge phase that starts at `temp1`. */
  function ChargeTempPhase(c: Config, temp1: real): seq<real>
  {
    Sample(c.chargeTime, (t: nat) => ChargingTemp(t, temp1, c.rhoTempCharge))
  }

  /** Each phase holds one sample per element of its `np.arange`, and a phase
      with samples starts exactly at the value it is seeded with. */
  lemma PhaseSeeds(c: Config, battery: real, temp: real)
    ensures |DischargeBatteryPhase(c, battery)| == |DischargeTempPhase(c, temp)| == |Arange(c.dischargeTime)|
    ensures |ChargeBatteryPhase(c, battery)| == |ChargeTempPhase(c, temp)| == |Arange(c.chargeTime)|
    ensures c.dischargeTime >= 1 ==> DischargeBatteryPhase(c, battery)[0] == battery && DischargeTempPhase(c, temp)[0] == temp
    ensures c.chargeTime >= 1 ==> ChargeBatteryPhase(c, battery)[0] == battery && ChargeTempPhase(c, temp)[0] == temp
  {
    ArangeShape(c.dischargeTime);
    ArangeShape(c.chargeTime);
  }

  /** The timestamps one iteration appends when the clock stands at `now` at
      its start. */
  function CycleTimes(c: Config, now: int): (r: seq<int>)
    ensures |r| == CycleLength(c)
  {
    PhaseTimes(now + c.dischargeTime, Count(c.dischargeTime))
      + PhaseTimes(now + c.dischargeTime + c.chargeTime, Count(c.chargeTime))
  }

  /** The battery samples one iteration appends, starting from `battery0`:
      the charge phase is seeded from the last discharge sample. */
  function CycleBattery(c: Config, battery0: real): (r: seq<real>)
    requires c.dischargeTime >= 1
    ensures |r| == CycleLength(c)
  {
    var dischargeBattery := DischargeBatteryPhase(c, battery0);
    dischargeBattery + ChargeBatteryPhase(c, Last(dischargeBattery))
  }

  /** The temperature samples one iteration appends, starting from `temp0`:
      the charge phase is seeded from the last discharge sample. */
  function CycleTemp(c: Config, temp0: real): (r: seq<real>)
    requires c.dischargeTime >= 1
    ensures |r| == CycleLength(c)
  {
    var dischargeTemp := DischargeTempPhase(c, temp0);
    dischargeTemp + ChargeTempPhase(c, Last(dischargeTemp))
  }

  /** One loop iteration, started with the lists `s` and the clock at `now`:
      both phases are seeded from the last samples of `s`. */
  function Step(c: Config, s: Series, now: int): (r: Series)
    requires c.dischargeTime >= 1 && Aligned(s)
    ensures Aligned(r) && |r.time| == |s.time| + CycleLength(c)
  {
    Series(s.time + CycleTimes(c, now),
           s.battery + CycleBattery(c, Last(s.battery)),
           s.temperature + CycleTemp(c, Last(s.temperature)))
  }

  /** The clock after `k` iterations: each one advances it by the discharge
      time and then by the charge time. */
  function Clock(c: Config, k: nat): int
  {
    if k == 0 then WorkdayStart else Clock(c, k - 1) + Period(c)
  }

  /** The lists after `k` loop iterations. */
  function Run(c: Config, k: nat): (s: Series)
    requires c.dischargeTime >= 1
    ensures Aligned(s)
  {
    if k == 0 then Initial(c) else Step(c, Run(c, k - 1), Clock(c, k - 1))
  }

  /** An iteration started after `k` iterations yields the lists after `k + 1`. */
  lemma RunNext(c: Config, k: nat, s: Series, r: Series)
    requires c.dischargeTime >= 1 && s == Run(c, k) && r == Step(c, s, Clock(c, k))
    ensures r == Run(c, k + 1)
  {
  }

  /** The body of the `simulate_workday` loop, applied to the three lists
      with the clock at `currentTime`: a discharge phase seeded from the last
      samples so far, then a charge phase seeded from the last discharge
      samples. It fails when the discharge phase has no samples, at the
      point where the charge phase reads the last of them. */
  method Iteration(c: Config, time: seq<int>, batteryPercentage: seq<real>, temperature: seq<real>, currentTime: int)
    returns (ok: bool, time': seq<int>, batteryPercentage': seq<real>, temperature': seq<real>, currentTime': int)
    requires Aligned(Series(time, batteryPercentage, temperature))
    ensures ok <==> c.dischargeTime >= 1
    ensures ok ==> currentTime' == currentTime + Period(c)
    ensures ok ==> Series(time', batteryPercentage', temperature')
                   == Step(c, Series(time, batteryPercentage, temperature), currentTime)
  {
    time', batteryPercentage', temperature', currentTime' := time, batteryPercentage, temperature, currentTime;

    // Discharging phase
    var dischargeTimePoints := Count(c.dischargeTime);
    var dischargeBattery := DischargeBatteryPhase(c, Last(batteryPercentage'));
    var dischargeTemp := DischargeTempPhase(c, Last(temperature'));
    batteryPercentage' := batteryPercentage' + dischargeBattery;
    temperature' := temperature' + dischargeTemp;
    currentTime' := currentTime' + c.dischargeTime;
    time' := time' + PhaseTimes(currentTime', dischargeTimePoints);

    // Charging phase
    var chargeTimePoints := Count(c.chargeTime);
    if |dischargeBattery| == 0 {
      return false, time', batteryPercentage', temperature', currentTime';
    }
    var chargeBattery := ChargeBatteryPhase(c, Last(dischargeBattery));
    var chargeTemp := ChargeTempPhase(c, Last(dischargeTemp));
    batteryPercentage' := batteryPercentage' + chargeBattery;
    temperature' := temperature' + chargeTemp;
    currentTime' := currentTime' + c.chargeTime;
    time' := time' + PhaseTimes(currentTime', chargeTimePoints);
    ok := true;
  }

  /** One pass of the loop, stated against the lists after `k` iterations:
      it yields the lists and the clock after `k + 1`. */
  method Advance(c: Config, time: seq<int>, batteryPercentage: seq<real>, temperature: seq<real>, currentTime: int,
                 ghost k: nat)
    returns (ok: bool, time': seq<int>, batteryPercentage': seq<real>, temperature': seq<real>, currentTime': int)
    requires currentTime == Clock(c, k)
    requires c.dischargeTime >= 1 ==> Series(time, batteryPercentage, temperature) == Run(c, k)
    requires Aligned(Series(time, batteryPercentage, temperature))
    ensures ok <==> c.dischargeTime >= 1
    ensures ok ==> currentTime' == Clock(c, k + 1)
    ensures ok ==> Series(time', batteryPercentage', temperature') == Run(c, k + 1)
  {
    ok, time', batteryPercentage', temperature', currentTime' := Iteration(c, time, batteryPercentage, temperature, currentTime);
    if ok {
      RunNext(c, k, Series(time, batteryPercentage, temperature), Series(time', batteryPercentage', temperature'));
    }
  }

  /** `simulate_workday`: it fails when the discharge phase has no samples,
      and otherwise returns the lists after `Iterations(Period(c))` iterations,
      three lists of the same length. The clock only moves forward when a
      period is at least a minute, so the loop runs forever otherwise. */
  method SimulateWorkday(c: Config) returns (r: Result)
    requires c.dischargeTime <= 0 || Period(c) >= 1
    ensures r.Err? <==> c.dischargeTime <= 0
    ensures r.Ok? ==> r.series == Run(c, Iterations(Period(c)))
    ensures r.Ok? ==> Aligned(r.series)
  {
    var batteryPercentage := [c.initialBatteryPercentage];
    var temperature := [c.initialTemperature];
    var time := [WorkdayStart];
    var currentTime := WorkdayStart;
    ghost var k: nat := 0;
    while currentTime < WorkdayEnd
      invariant currentTime == Clock(c, k)
      invariant Aligned(Series(time, batteryPercentage, temperature))
      invariant k == 0 || (c.dischargeTime >= 1 && Clock(c, k - 1) < WorkdayEnd)
      invariant c.dischargeTime >= 1 ==> Series(time, batteryPercentage, temperature) == Run(c, k)
      decreases WorkdayEnd - currentTime
    {
      var ok;
      ok, time, batteryPercentage, temperature, currentTime := Advance(c, time, batteryPercentage, temperature, currentTime, k);
      if !ok {
        return Err(IndexError);
      }
      k := k + 1;
    }
    if c.dischargeTime >= 1 {
      LoopCount(c, k);
    }
    return Ok(Series(time, batteryPercentage, temperature));
  }

  /* ---------- Loop count and clock ---------- */

  lemma {:induction false} ClockClosedForm(c: Config, k: nat)
    ensures Clock(c, k) == WorkdayStart + k * Period(c)
  {
    if k > 0 {
      ClockClosedForm(c, k - 1);
    }
  }

  lemma MulPredecessor(k: int, m: int)
    ensures k * m == (k - 1) * m + m
  {
  }

  lemma DivisionBounds(a: nat, p: int)
    requires p >= 1
    ensures (a / p) * p <= a < (a / p) * p + p
  {
  }

  lemma MulMonotone(a: int, b: int, p: int)
    requires a <= b && p >= 0
    ensures a * p <= b * p
  {
  }

  /** How many iterations the loop runs: the fewest whole periods `p` that
      carry the clock from 08:00 to 16:00 or past it, i.e. ceil(480 / p). */
  function Iterations(p: int): (k: nat)
    requires p >= 1
    ensures WorkdayStart + k * p >= WorkdayEnd
    ensures WorkdayStart + (k - 1) * p < WorkdayEnd
  {
    var span := WorkdayEnd - WorkdayStart;
    DivisionBounds(span + p - 1, p);
    (span + p - 1) / p
  }

  /** The clock has reached 16:00 after `j` periods if and only if `j` is at
      least `Iterations(p)`. */
  lemma IterationsIsLeast(p: int, j: int)
    requires p >= 1
    ensures WorkdayStart + j * p >= WorkdayEnd <==> j >= Iterations(p)
  {
    var k := Iterations(p);
    if j >= k {
      MulMonotone(k, j, p);
    } else {
      MulMonotone(j, k - 1, p);
    }
  }

  /** The same for the loop's own clock. */
  lemma ClockReachesEnd(c: Config, k: nat)
    requires Period(c) >= 1
    ensures Clock(c, k) >= WorkdayEnd <==> k >= Iterations(Period(c))
  {
    ClockClosedForm(c, k);
    IterationsIsLeast(Period(c), k);
  }

  /** The loop condition first fails after `Iterations(Period(c))` iterations. */
  lemma LoopCount(c: Config, k: nat)
    requires Period(c) >= 1
    requires Clock(c, k) >= WorkdayEnd && (k == 0 || Clock(c, k - 1) < WorkdayEnd)
    ensures k == Iterations(Period(c))
  {
    ClockReachesEnd(c, k);
    if k > 0 {
      ClockReachesEnd(c, k - 1);
    }
  }

  /** When the loop stops, the clock stands at 16:00 or past it, by less than
      one period. */
  lemma FinalClock(c: Config)
    requires Period(c) >= 1
    ensures WorkdayEnd <= Clock(c, Iterations(Period(c))) < WorkdayEnd + Period(c)
  {
    var k := Iterations(Period(c));
    ClockClosedForm(c, k);
    MulPredecessor(k, Period(c));
  }

  /* ---------- What one iteration does ---------- */

  /** An iteration only appends to the lists. */
  lemma StepExtends(c: Config, s: Series, now: int)
    requires c.dischargeTime >= 1 && Aligned(s)
    ensures Extends(s, Step(c, s, now))
  {
  }

  /** An iteration stamps its samples with the consecutive minutes from the
      clock at its start on. */
  lemma StepTimes(c: Config, s: Series, now: int)
    requires c.dischargeTime >= 1 && Aligned(s)
    ensures var r := Step(c, s, now);
      forall i :: |s.time| <= i < |r.time| ==> r.time[i] == now + (i - |s.time|)
  {
  }

  /** Each phase starts from the sample before it: the discharge phase from
      the last sample so far, the charge phase from the last discharge
      sample. */
  lemma StepSeeding(c: Config, s: Series, now: int)
    requires c.dischargeTime >= 1 && Aligned(s)
    ensures CopiesAt(Step(c, s, now), |s.time|)
    ensures c.chargeTime >= 1 ==> CopiesAt(Step(c, s, now), |s.time| + c.dischargeTime)
  {
  }

  /* ---------- The whole day ---------- */

  /** Each iteration appends one discharge and one charge phase to every list. */
  lemma {:induction false} RunLength(c: Config, k: nat)
    requires c.dischargeTime >= 1
    ensures |Run(c, k).time| == 1 + k * CycleLength(c)
  {
    if k > 0 {
      RunLength(c, k - 1);
      MulPredecessor(k, CycleLength(c));
    }
  }

  /** Later iterations only append: the lists after `j` iterations are
      prefixes of the lists after `k >= j` iterations. */
  lemma {:induction false} RunExtends(c: Config, j: nat, k: nat)
    requires c.dischargeTime >= 1 && j <= k
    ensures Extends(Run(c, j), Run(c, k))
  {
    if j < k {
      var previous := Run(c, k - 1);
      RunExtends(c, j, k - 1);
      StepExtends(c, previous, Clock(c, k - 1));
      ExtendsTransitive(Run(c, j), previous, Run(c, k));
    }
  }

  /** The lists always begin with the start of the day and the initial
      battery percentage and temperature. */
  lemma RunHeads(c: Config, k: nat)
    requires c.dischargeTime >= 1
    ensures Run(c, k).time[0] == WorkdayStart
    ensures Run(c, k).battery[0] == c.initialBatteryPercentage
    ensures Run(c, k).temperature[0] == c.initialTemperature
  {
    RunExtends(c, 0, k);
  }

  /** Any lists that continue those after iteration `j + 1` keep its phase
      boundaries: at the index where the lists after `j` iterations end, the
      first discharge sample repeats the sample before it, and when the charge
      phase has samples its first one repeats the last discharge sample. */
  lemma SeedsPersist(c: Config, j: nat, r: Series)
    requires c.dischargeTime >= 1 && Aligned(r) && Extends(Run(c, j + 1), r)
    ensures CopiesAt(r, |Run(c, j).time|)
    ensures c.chargeTime >= 1 ==> CopiesAt(r, |Run(c, j).time| + c.dischargeTime)
  {
    var s := Run(c, j);
    StepSeeding(c, s, Clock(c, j));
    ExtendsCopies(Run(c, j + 1), r, |s.time|);
    if c.chargeTime >= 1 {
      ExtendsCopies(Run(c, j + 1), r, |s.time| + c.dischargeTime);
    }
  }

  /** The day's lists keep the phase boundaries of every iteration. */
  lemma RunSeeds(c: Config, j: nat, k: nat)
    requires c.dischargeTime >= 1 && j < k
    ensures CopiesAt(Run(c, k), |Run(c, j).time|)
    ensures c.chargeTime >= 1 ==> CopiesAt(Run(c, k), |Run(c, j).time| + c.dischargeTime)
  {
    RunExtends(c, j + 1, k);
    SeedsPersist(c, j, Run(c, k));
  }

  /** With a non-negative charge time every sample after the first is one
      minute after the one before it: sample `i` is stamped 08:00 plus
      `i - 1` minutes, and the clock stands one minute past the last stamp. */
  lemma {:induction false} RunTimestamps(c: Config, k: nat)
    requires c.dischargeTime >= 1 && c.chargeTime >= 0
    ensures var s := Run(c, k);
      && Clock(c, k) == WorkdayStart + |s.time| - 1
      && forall i :: 1 <= i < |s.time| ==> s.time[i] == WorkdayStart + i - 1
  {
    if k > 0 {
      var previous := Run(c, k - 1);
      RunTimestamps(c, k - 1);
      StepTimes(c, previous, Clock(c, k - 1));
    }
  }

  /** The last timestamp of the day is the minute before the clock stops:
      15:59 or later, and less than one period after it. */
  lemma LastTimestamp(c: Config)
    requires c.dischargeTime >= 1 && c.chargeTime >= 0
    ensures var s := Run(c, Iterations(Period(c)));
      WorkdayEnd - 1 <= Last(s.time) < WorkdayEnd - 1 + Period(c)
  {
    RunTimestamps(c, Iterations(Period(c)));
    FinalClock(c);
  }

  /** The call in the script: three minutes of discharge and two of charge
      give 96 iterations and 481 samples, the last stamped 15:59. */
  lemma ExampleCall(c: Config)
    requires c.dischargeTime == 3 && c.chargeTime == 2
    ensures Iterations(Period(c)) == 96
    ensures |Run(c, 96).time| == 481
    ensures Last(Run(c, 96).time) == WorkdayEnd - 1
  {
    RunLength(c, 96);
    RunTimestamps(c, 96);
    ClockClosedForm(c, 96);
  }

  /* ---------- Ranges ---------- */

  predicate NonIncreasing(s: seq<real>)
  {
    forall i, j :: 0 <= i <= j < |s| ==> s[j] <= s[i]
  }

  predicate NonDecreasing(s: seq<real>)
  {
    forall i, j :: 0 <= i <= j < |s| ==> s[i] <= s[j]
  }

  /** While discharging, the battery percentage falls from where it started
      towards empty and never goes below it. */
  lemma DischargeBatteryPhaseShape(c: Config, battery0: real)
    requires PositiveTau(c.rhoDischarging) && 0.0 <= battery0
    ensures Within(DischargeBatteryPhase(c, battery0), 0.0, battery0)
    ensures NonIncreasing(DischargeBatteryPhase(c, battery0))
  {
    var p := DischargeBatteryPhase(c, battery0);
    forall i | 0 <= i < |p|
      ensures 0.0 <= p[i] <= battery0
    {
      DischargingBatteryBounds(i, battery0, c.rhoDischarging, 0.0);
    }
    forall i, j | 0 <= i <= j < |p|
      ensures p[j] <= p[i]
    {
      DischargingBatteryMonotone(i, j, battery0, c.rhoDischarging, 0.0);
    }
  }

  /** While charging, the battery percentage rises from where it started
      towards full and never goes above it. */
  lemma ChargeBatteryPhaseShape(c: Config, battery1: real)
    requires PositiveTau(c.rhoCharging) && battery1 <= 100.0
    ensures Within(ChargeBatteryPhase(c, battery1), battery1, 100.0)
    ensures NonDecreasing(ChargeBatteryPhase(c, battery1))
  {
    var p := ChargeBatteryPhase(c, battery1);
    forall i | 0 <= i < |p|
      ensures battery1 <= p[i] <= 100.0
    {
      ChargingBatteryBounds(i, battery1, c.rhoCharging, 100.0);
    }
    forall i, j | 0 <= i <= j < |p|
      ensures p[i] <= p[j]
    {
      ChargingBatteryMonotone(i, j, battery1, c.rhoCharging, 100.0);
    }
  }

  /** While discharging, the temperature climbs from where it started towards
      45 degrees and never goes above it. */
  lemma DischargeTempPhaseShape(c: Config, temp0: real)
    requires PositiveTau(c.rhoTempDischarge) && temp0 <= 45.0
    ensures Within(DischargeTempPhase(c, temp0), temp0, 45.0)
    ensures NonDecreasing(DischargeTempPhase(c, temp0))
  {
    var p := DischargeTempPhase(c, temp0);
    forall i | 0 <= i < |p|
      ensures temp0 <= p[i] <= 45.0
    {
      DischargingTempBounds(i, temp0, c.rhoTempDischarge, 45.0);
    }
    forall i, j | 0 <= i <= j < |p|
      ensures p[i] <= p[j]
    {
      DischargingTempMonotone(i, j, temp0, c.rhoTempDischarge, 45.0);
    }
  }

  /** While charging, the temperature cools from where it started towards 26
      degrees and never goes below it. */
  lemma ChargeTempPhaseShape(c: Config, temp1: real)
    requires PositiveTau(c.rhoTempCharge) && 26.0 <= temp1
    ensures Within(ChargeTempPhase(c, temp1), 26.0, temp1)
    ensures NonIncreasing(ChargeTempPhase(c, temp1))
  {
    var p := ChargeTempPhase(c, temp1);
    forall i | 0 <= i < |p|
      ensures 26.0 <= p[i] <= temp1
    {
      ChargingTempBounds(i, temp1, c.rhoTempCharge, 26.0);
    }
    forall i, j | 0 <= i <= j < |p|
      ensures p[j] <= p[i]
    {
      ChargingTempMonotone(i, j, temp1, c.rhoTempCharge, 26.0);
    }
  }

  /** An iteration keeps the battery percentage between empty and full. */
  lemma StepKeepsBatteryRange(c: Config, s: Series, now: int)
    requires c.dischargeTime >= 1 && Aligned(s)
    requires PositiveTau(c.rhoDischarging) && PositiveTau(c.rhoCharging)
    requires Within(s.battery, 0.0, 100.0)
    ensures Within(Step(c, s, now).battery, 0.0, 100.0)
  {
    var dischargeBattery := DischargeBatteryPhase(c, Last(s.battery));
    DischargeBatteryPhaseShape(c, Last(s.battery));
    ChargeBatteryPhaseShape(c, Last(dischargeBattery));
  }

  /** An iteration keeps the temperature between the charging and the
      discharging asymptote, 26 and 45 degrees. */
  lemma StepKeepsTemperatureRange(c: Config, s: Series, now: int)
    requires c.dischargeTime >= 1 && Aligned(s)
    requires PositiveTau(c.rhoTempDischarge) && PositiveTau(c.rhoTempCharge)
    requires Within(s.temperature, 26.0, 45.0)
    ensures Within(Step(c, s, now).temperature, 26.0, 45.0)
  {
    var dischargeTemp := DischargeTempPhase(c, Last(s.temperature));
    DischargeTempPhaseShape(c, Last(s.temperature));
    ChargeTempPhaseShape(c, Last(dischargeTemp));
  }

  /** Starting between empty and full, the battery percentage never leaves
      that range. */
  lemma {:induction false} RunBatteryRange(c: Config, k: nat)
    requires c.dischargeTime >= 1
    requires PositiveTau(c.rhoDischarging) && PositiveTau(c.rhoCharging)
    requires 0.0 <= c.initialBatteryPercentage <= 100.0
    ensures Within(Run(c, k).battery, 0.0, 100.0)
  {
    if k > 0 {
      RunBatteryRange(c, k - 1);
      StepKeepsBatteryRange(c, Run(c, k - 1), Clock(c, k - 1));
    }
  }

  /** Starting between 26 and 45 degrees, the temperature never leaves that
      range. */
  lemma {:induction false} RunTemperatureRange(c: Config, k: nat)
    requires c.dischargeTime >= 1
    requires PositiveTau(c.rhoTempDischarge) && PositiveTau(c.rhoTempCharge)
    requires 26.0 <= c.initialTemperature <= 45.0
    ensures Within(Run(c, k).temperature, 26.0, 45.0)
  {
    if k > 0 {
      RunTemperatureRange(c, k - 1);
      StepKeepsTemperatureRange(c, Run(c, k - 1), Clock(c, k - 1));
    }
  }
}
