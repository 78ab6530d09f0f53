# Battery and temperature over a workday

This project models the simulation engine of `tool_test.py`: four first-order relaxation curves for a
portable device's battery percentage and temperature, and `simulate_workday`. That function walks the
08:00–16:00 window and alternates one discharge phase and one charge phase. Each phase is sampled once
per minute, and the samples go into three parallel lists: timestamps, battery percentages and
temperatures.

- `relaxation.dfy`, module `Relaxation`: the four curves (`tool_test.py:11-22`) as pure `real`
  functions. `exp(-t / tau)` is sampled only at whole minutes `t`, so it is written as `rho^t`
  (`Decay(t, rho)`), where `rho = exp(-1 / tau)` is the share of the gap to the asymptote that is
  left after one minute. The model takes `rho` as its input in place of `tau`. A strictly positive
  `tau` is exactly `0 < rho < 1` (`PositiveTau`). The facts about `exp` that the curves need
  (`Decay(0) == 1`, `0 < Decay <= 1`, strictly decreasing) are proved as lemmas. `Sample` stands
  for evaluating a curve over `np.arange(0, n, 1)`.
- `lists.dfy`, module `Lists`: the three parallel lists, and what it means for one set of lists
  to continue another.
- `workday.dfy`, module `Workday`: the scheduler.
  - `SimulateWorkday` is a method with the source's `while` loop.
  - Its body is `Iteration`, which follows the two phases statement by statement; `Advance` states
    the same step in terms of the iteration count.
  - Both are proved against `Step` and `Run`, functions that give the lists after one iteration
    and after `k` iterations. The whole-day lemmas are proved about those two functions.
  - Timestamps are whole minutes since midnight (08:00 = 480, 16:00 = 960).
  - A `discharge_time` of zero or less makes the source raise `IndexError` when it reads
    `discharge_battery[-1]`. The model returns `Err(IndexError)` in that case.

## Model

| member | source | states |
|---|---|---|
| Relaxation.Decay | tool_test.py:12 | `exp(-t / tau)` at a whole minute `t`, written as `rho^t`; it is 1 at `t = 0`, as `exp(0)` is |
| Relaxation.DecayBounds | tool_test.py:12 | for `tau > 0` the factor `exp(-t/tau)` at a whole minute lies in `(0, 1]` |
| Relaxation.DecayDecreasing | tool_test.py:12 | for `tau > 0` the factor `exp(-t/tau)` strictly decreases with `t` |
| Relaxation.DecayNonIncreasing | tool_test.py:12 | the factor never grows with `t` |
| Relaxation.DischargingBattery | tool_test.py:11-12 | `discharging_model_battery` returns exactly `V0` at `t = 0` |
| Relaxation.DischargingBatteryBounds | tool_test.py:11-12 | the discharging battery stays between `V0` and `V_final`, on whichever side `V0` starts, and never reaches `V_final` unless it starts there |
| Relaxation.DischargingBatteryMonotone | tool_test.py:11-12 | the discharging battery is non-increasing in `t` when `V0 >= V_final` and non-decreasing when `V0 <= V_final` |
| Relaxation.ChargingBattery | tool_test.py:14-15 | `charging_model_battery` returns exactly `V0` at `t = 0` |
| Relaxation.ChargingBatteryBounds | tool_test.py:14-15 | the charging battery stays between `V0` and `V_final` (100) and never reaches it unless it starts there |
| Relaxation.ChargingBatteryMonotone | tool_test.py:14-15 | the charging battery is non-decreasing when `V0 <= V_final` and non-increasing otherwise |
| Relaxation.DischargingTemp | tool_test.py:18-19 | `discharging_model_temp` returns exactly `T0` at `t = 0` |
| Relaxation.DischargingTempBounds | tool_test.py:18-19 | the discharging temperature stays between `T0` and `T_infinity` (45) without crossing it |
| Relaxation.DischargingTempMonotone | tool_test.py:18-19 | the discharging temperature moves monotonically towards `T_infinity` |
| Relaxation.ChargingTemp | tool_test.py:21-22 | `charging_model_temp` returns exactly `T0` at `t = 0` |
| Relaxation.ChargingTempBounds | tool_test.py:21-22 | the charging temperature stays between `T0` and `T_final` (26) without crossing it |
| Relaxation.ChargingTempMonotone | tool_test.py:21-22 | the charging temperature moves monotonically towards `T_final` |
| Relaxation.Count | tool_test.py:36 | the length of `np.arange(0, n, 1)`: `n` when positive, otherwise 0 (proved against `Arange` by `ArangeShape`) |
| Relaxation.ArangeShape | tool_test.py:36 | for every integer `n`, `np.arange(0, n, 1)` has `Count(n)` elements and element `i` is the minute `i` |
| Relaxation.Sample | tool_test.py:37 | a model applied to a whole `np.arange` array, one value per minute (stated by `SampleAt`) |
| Relaxation.SampleAt | tool_test.py:37 | sampling gives one value per element of `np.arange(0, n, 1)`, value `i` being the curve at that element |
| Workday.Period | tool_test.py:41-50 | the minutes the clock advances per iteration, `discharge_time + charge_time` (its effect on the clock is stated by `ClockClosedForm`) |
| Workday.Clock | tool_test.py:32-50 | `current_time` after `k` iterations, starting at 08:00 (closed form in `ClockClosedForm`) |
| Workday.Initial | tool_test.py:29-31 | the lists before the loop hold one equally long entry each: 08:00 and the two initial values |
| Workday.PhaseTimes | tool_test.py:42 | the stamps `current_time - i` for `i` from `n` down to 1 (stated by `PhaseTimesConsecutive`) |
| Workday.PhaseTimesConsecutive | tool_test.py:41-42 | a phase's `n` stamps are consecutive minutes, the first `n` minutes before the clock and the last one minute before it |
| Workday.DischargeBatteryPhase | tool_test.py:37 | `discharge_battery`: the discharging battery model over the phase's minutes, seeded from the last battery sample (stated by `PhaseSeeds`) |
| Workday.DischargeTempPhase | tool_test.py:38 | `discharge_temp`: the discharging temperature model over the phase's minutes, seeded from the last temperature (stated by `PhaseSeeds`) |
| Workday.ChargeBatteryPhase | tool_test.py:46 | `charge_battery`: the charging battery model over the phase's minutes (stated by `PhaseSeeds`) |
| Workday.ChargeTempPhase | tool_test.py:47 | `charge_temp`: the charging temperature model over the phase's minutes (stated by `PhaseSeeds`) |
| Workday.PhaseSeeds | tool_test.py:36-47 | each phase holds one sample per element of its `np.arange`, and a non-empty phase starts exactly at the value it is seeded with |
| Workday.CycleTimes | tool_test.py:41-51 | one iteration stamps exactly as many timestamps as it appends samples, `max(d, 0) + max(c, 0)` |
| Workday.CycleBattery | tool_test.py:36-48 | one iteration appends `max(d, 0) + max(c, 0)` battery samples, the charge phase seeded from the last discharge sample |
| Workday.CycleTemp | tool_test.py:36-49 | one iteration appends `max(d, 0) + max(c, 0)` temperature samples |
| Workday.Step | tool_test.py:35-51 | one iteration keeps the three lists equally long and grows each by the samples of both phases |
| Workday.Run | tool_test.py:29-51 | after any number of iterations the three lists are equally long and non-empty |
| Workday.Iteration | tool_test.py:35-51 | the loop body fails exactly when `discharge_time <= 0` (at `discharge_battery[-1]`); otherwise it advances the clock by `d + c` and leaves the lists one `Step` longer |
| Workday.Advance | tool_test.py:34-51 | started on the lists and clock after `k` iterations, the loop body yields those after `k + 1` |
| Workday.SimulateWorkday | tool_test.py:25-53 | the result is `IndexError` exactly when `discharge_time <= 0` (in the source only for `-1063994880 <= discharge_time <= 0`, see Left out); otherwise it is the lists after `Iterations(d + c)` iterations, equally long |
| Workday.ClockClosedForm | tool_test.py:32-50 | after `k` iterations the clock stands at `08:00 + k * (d + c)` |
| Workday.Iterations | tool_test.py:26-34 | the iteration count `ceil(480 / (d + c))` carries the clock to 16:00 or past it, and one iteration fewer does not |
| Workday.IterationsIsLeast | tool_test.py:26-34 | `j` periods reach 16:00 if and only if `j >= Iterations` |
| Workday.ClockReachesEnd | tool_test.py:34-50 | the loop's clock has reached 16:00 after `k` iterations if and only if `k >= Iterations` |
| Workday.LoopCount | tool_test.py:34 | the first `k` at which the loop condition fails is `Iterations(d + c)` |
| Workday.FinalClock | tool_test.py:34-50 | on exit the clock is at 16:00 or later, overshooting by less than `d + c` |
| Workday.StepExtends | tool_test.py:39-51 | an iteration only appends to the three lists |
| Workday.StepTimes | tool_test.py:41-51 | an iteration stamps its samples with consecutive minutes from the clock at its start |
| Workday.StepSeeding | tool_test.py:36-47 | the first discharge sample repeats the last sample so far; the first charge sample repeats the last discharge sample |
| Workday.RunLength | tool_test.py:29-51 | after `k` iterations each list holds `1 + k * (max(d, 0) + max(c, 0))` entries |
| Workday.RunExtends | tool_test.py:39-51 | the lists after `j` iterations are prefixes of those after any `k >= j` |
| Workday.RunHeads | tool_test.py:29-31 | index 0 always holds 08:00, the initial battery percentage and the initial temperature |
| Workday.SeedsPersist | tool_test.py:36-47 | any continuation of the lists keeps both phase boundaries of every iteration as repeated samples |
| Workday.RunSeeds | tool_test.py:36-47 | in the lists after `k` iterations, both phase boundaries of every earlier iteration are repeated samples |
| Workday.RunTimestamps | tool_test.py:31-51 | for `c >= 0`, `time[i]` is `08:00 + (i - 1)` minutes for every `i >= 1`, and the clock is one minute past the last stamp |
| Workday.LastTimestamp | tool_test.py:34-51 | for `c >= 0`, the last timestamp of the day is 15:59 or later, and less than `d + c` minutes after 15:59 |
| Workday.ExampleCall | tool_test.py:64-73 | the call with `d = 3`, `c = 2` runs 96 iterations and returns 481 samples, the last stamped 15:59 |
| Workday.DischargeBatteryPhaseShape | tool_test.py:36-37 | for `tau > 0` and a non-negative start, a discharge phase's battery samples lie in `[0, start]` and never rise |
| Workday.DischargeTempPhaseShape | tool_test.py:36-38 | for `tau > 0` and a start at most 45, a discharge phase's temperatures lie in `[start, 45]` and never fall |
| Workday.ChargeBatteryPhaseShape | tool_test.py:45-46 | for `tau > 0` and a start at most 100, a charge phase's battery samples lie in `[start, 100]` and never fall |
| Workday.ChargeTempPhaseShape | tool_test.py:45-47 | for `tau > 0` and a start at least 26, a charge phase's temperatures lie in `[26, start]` and never rise |
| Workday.StepKeepsBatteryRange | tool_test.py:35-51 | an iteration keeps every battery sample within `[0, 100]` |
| Workday.StepKeepsTemperatureRange | tool_test.py:35-51 | an iteration keeps every temperature within `[26, 45]` |
| Workday.RunBatteryRange | tool_test.py:29-51 | starting within `[0, 100]`, the battery percentage stays within `[0, 100]` all day |
| Workday.RunTemperatureRange | tool_test.py:29-51 | starting within `[26, 45]`, the temperature stays within `[26, 45]` all day |

## Left out

- Plotting, axis formatting and `plt.show()` (`tool_test.py:75-105`), the notebook `pip` line and the
  widget and IPython imports: rendering only.
- `ai_testing.py`: a neural-network checkpoint loaded from disk and run on images. These are foreign
  library calls and I/O, with no logic of their own to state.
- `predictive model_tool.py` is not part of this model. It holds a different scheduler that
  `tool_test.py` does not share, and none of its behaviour is modelled:
  - a temperature cap with a latch (`predictive model_tool.py:44-50`);
  - a midday charging break (`predictive model_tool.py:86-102`);
  - charged battery values clamped at 100 with `np.minimum` (`predictive model_tool.py:88-90` and
    `:124-126`);
  - charging temperature driven towards `params["initial_temperature"]` (`predictive model_tool.py:92`
    and `:122`).

  `tool_test.py` has none of these. Its charging battery relaxes towards the fixed default 100 and
  its charging temperature towards the fixed default 26.
- Floating point: the curves are over `real`, and `np.exp` is represented by `rho^t` at whole
  minutes. IEEE rounding and the exact values of `np.exp` are not modelled.
- `datetime` and `timedelta` are replaced by integer minutes since midnight. Durations that are not
  whole minutes are not modelled: `np.arange` over a fractional duration is out of scope.
- `tau == 0` has no counterpart, because the model takes `rho` in place of `tau`. In the source,
  numpy does not raise there: `-t / 0` over the `arange` array gives `nan` at `t = 0` and `-inf`
  after it, with a RuntimeWarning. So such a phase's first sample is `nan` and its later samples are
  the asymptote. A negative `tau` is covered: it is `rho = exp(-1 / tau) > 1`, which `Decay`
  accepts, and `Decay(t, rho)` is then `exp(-t / tau)` exactly. The range and bound lemmas assume
  `PositiveTau`, that is `tau > 0`.
- Workday.SimulateWorkday: requires `discharge_time <= 0 || discharge_time + charge_time >= 1`.
  Two cases with a positive discharge time are excluded, and neither is modelled:
  - `discharge_time + charge_time == 0`: the clock never moves and the source's loop runs forever.
  - `discharge_time + charge_time < 0`: the clock moves back by that many minutes per iteration
    until `current_time += timedelta(...)` (`tool_test.py:41`, `:50`) falls below the earliest
    `datetime` and raises `OverflowError`. For example, `discharge_time = 1`,
    `charge_time = -1000000` raises after about 1064 iterations.
- Workday.SimulateWorkday: minutes are unbounded integers, so the model leaves out the `datetime`
  range of years 1 to 9999. In the source, a duration that carries the clock beyond that range
  raises `OverflowError`. The model instead does one of two things:
  - when `discharge_time >= 1`, it returns the lists;
  - when `discharge_time < -1063994880`, it returns `Err(IndexError)`. There are 1 063 994 880
    minutes from 0001-01-01 00:00 to 08:00 on the source's start date. So
    `current_time += timedelta(minutes=discharge_time)` (`tool_test.py:41`) overflows before
    `discharge_battery[-1]` (`tool_test.py:46`) is reached.

  The `IndexError` result matches the source only for `-1063994880 <= discharge_time <= 0`.
- Workday.Iteration: shares that limit. It fails with `IndexError` for every `discharge_time <= 0`,
  where the source's first clock update overflows for `discharge_time < -1063994880`.
- Workday.RunTimestamps: stated only for `charge_time >= 0`. A negative charge time appends no
  charge samples but moves the clock backwards, so the stamps are then no longer consecutive.
- Workday.LastTimestamp: stated only for `charge_time >= 0`, for the same reason.
- Workday.RunBatteryRange and Workday.RunTemperatureRange hold for starting values inside the range.
  The lemmas say nothing about starting values outside it.
