# Grain, deer and weather simulation: the sequential core

The program simulates a small ecosystem month by month. Four agents run in
parallel: grain, deer, fertilizer and a watcher. They meet at a hand-written
spin barrier three times per round. The watcher advances the calendar, and
every agent loops while `NowYear < 2031`.

This project models the two parts of `project2.cpp` that are sequential
integer logic:

- **Deer population step** (module `Deer`). Each month the deer count moves one
  animal toward the carrying capacity and is clamped at zero. The carrying
  capacity is the grain height cast to `int`. The height is clamped to be
  non-negative, so the capacity is a non-negative integer, and it is taken as a
  parameter. The lemmas prove the following about the step:
  - the count is never negative;
  - it changes by at most one;
  - it moves up exactly when below the capacity and down exactly when above it;
  - the capacity is a fixed point;
  - the distance to the capacity never grows;
  - with 32-bit operands the `++`/`--` cannot overflow.

  Iterated against a fixed capacity, the herd reaches it after exactly
  |count − capacity| months and stays there.
- **Calendar** (module `Calendar`). The `(NowYear, NowMonth)` globals are the
  fields of class `Calendar.Clock`. `Advance` changes them in place as the
  watcher does, and is specified by the pure function `Next` on a `Period`
  value. The reference definition it is proved against is the absolute month
  number `12 * year + month` and its inverse `PeriodOf`. `RunWatcher` is the
  watcher's loop with the barrier calls, weather and printing removed.
  `Simulate` sets the start date from `main` and runs that loop. It is proved
  to run exactly 72 rounds and to stop in January 2031.
  The month must start in 0..11 (`RoundsLeft` and `RunWatcher` require it).
  `main` sets it to 0, so this holds in the program. If the month started at
  12 or more it would never wrap, since `NowMonth == 12` would never be true
  again, and the loop would not end while the year is below 2031.

## Model

| member | source | states |
|---|---|---|
| `Deer.StepTowards` | project2.cpp:111-114 | before the clamp, the count moves by at most one and ends one closer to the capacity, or stays at distance 0 when equal; together these fix +1 below, −1 above and no change at the capacity |
| `Deer.NextNumDeer` | project2.cpp:109-117 | the next deer count is never negative, and from a non-negative count it differs by at most one |
| `Deer.ClampIdleForSimulationInputs` | project2.cpp:116-117 | for non-negative count and capacity the stepped count is never negative, so the clamp at zero never changes it |
| `Deer.NextNumDeerDirection` | project2.cpp:111-117 | for non-negative count and capacity: +1 iff below capacity, −1 iff above, unchanged iff equal |
| `Deer.NextNumDeerAboveCapacity` | project2.cpp:113-117 | above the capacity (any capacity) the count drops by one unless that would go negative, in which case it is 0 |
| `Deer.CapacityIsFixedPoint` | project2.cpp:111-114 | a herd already at the carrying capacity stays there |
| `Deer.DistanceShrinks` | project2.cpp:109-117 | the distance to the capacity never increases, and falls by exactly one whenever the herd is not at the capacity |
| `Deer.StepStaysInInt32` | project2.cpp:109-117 | with 32-bit count and capacity, both the stepped and the clamped value fit in 32 bits, so C's `int` never overflows here |
| `Deer.DeerAfter` | project2.cpp:107-123 | after k monthly steps against a fixed capacity the count is non-negative (once a step is taken, or from a non-negative start) and at most k away from a non-negative start |
| `Deer.DistanceAfter` | project2.cpp:107-123 | after k monthly steps against a fixed capacity the count is non-negative and its distance to the capacity is max(0, d − k) |
| `Deer.ReachesCapacity` | project2.cpp:107-123 | the herd is at the capacity after k months iff k is at least the starting distance |
| `Calendar.Running` | project2.cpp:143 | the loop guard `year < 2031` holds on a valid period exactly when its month number is before January 2031 |
| `Calendar.PeriodOf` | project2.cpp:6-7 | every absolute month number gives a period whose month is in 0..11 and whose month number is that number |
| `Calendar.MonthIndexInjective` | project2.cpp:6-7 | two periods with months in 0..11 and the same month number are equal |
| `Calendar.PeriodOfMonthIndex` | project2.cpp:6-7 | `PeriodOf` inverts the month number on valid periods (round trip) |
| `Calendar.Next` | project2.cpp:148-152 | one advance adds exactly one to `12*year + month`, keeps the month in 0..11, and changes the year (by one) exactly when the month was 11 |
| `Calendar.NextIsSuccessor` | project2.cpp:148-152 | on a valid period the advance equals the period of the next month number |
| `Calendar.Advanced` | project2.cpp:148-152 | k advances add exactly k to the month number and keep the month in 0..11 |
| `Calendar.AdvancedIndex` | project2.cpp:148-152 | on a valid period, k advances equal the period whose month number is k more |
| `Calendar.RoundsLeft` | project2.cpp:143-152 | the number of rounds the guard `year < 2031` admits from a valid period is `12*2031 − (12*year + month)` if it holds, else 0 |
| `Calendar.GuardHoldsExactly` | project2.cpp:143-152 | from a running period the guard holds after k advances iff k is below the round count, and the final period is January 2031 |
| `Calendar.SimulationLength` | project2.cpp:143-174 | from January 2025 the guard holds for exactly 72 rounds, and the 72nd advance yields (2031, 0) |
| `Calendar.Clock.constructor` | project2.cpp:173-174 | the clock starts at year 2025, month 0 |
| `Calendar.Clock.Advance` | project2.cpp:148-152 | the in-place update of `NowMonth`/`NowYear` produces `Next` of the old period and keeps the month in 0..11 |
| `Calendar.Clock.RunWatcher` | project2.cpp:143-168 | the loop ends with the guard false after exactly `RoundsLeft` rounds, in the period that many advances produce |
| `Calendar.Simulate` | project2.cpp:171-206 | starting from the initial date, the watcher runs 72 rounds and ends in January 2031 |

## Left out

- The spin barrier `InitBarrier`/`WaitBarrier` (project2.cpp:55-82). It is built from an OpenMP lock, volatile counters, busy-waits and an atomic increment, and it has no sequential meaning. Two things about it are not modelled: the releaser spins while still holding the lock, and `NumGone` is not initialised in `InitBarrier`.
- The parallel sections and the three-barrier round protocol (project2.cpp:193-206 and the `WaitBarrier` triples in each agent). This is concurrency. Other agents read `NowYear` in their own loop guards while the watcher writes it, so `RunWatcher` models only the watcher's own view of the guard.
- The floating-point rules: grain growth (`exp`), weather (`cos`/`sin` plus noise), fertilizer decay, `SQR`, and the `rand()`-based `Ranf`. The carrying capacity `(int)NowHeight` is therefore a parameter of the deer step and is not computed from a height.
- The deer agent's loop around the step. The model iterates the step only against a fixed capacity (`Deer.DeerAfter`). In the program the capacity changes every month with the grain height.
- Console output via `printf` (project2.cpp:142, 145).
