# F1 race strategy simulator — Dafny model

`f1_strat.py` is a one-page dashboard that compares pit-stop strategies for a
58-lap race. A strategy is an ordered list of stints, each a tyre compound and
a planned lap count. The simulator races the strategy lap by lap. Each lap
costs the pace of the compound fitted. When a tyre has run its lifespan, the
car pits: the next stint's compound goes on and 20 seconds are lost. If no
stint is left, the strategy has run out of tyres and the race cannot be
finished. For a strategy that finishes, the dashboard replays the race once
more to chart the compound used on each lap and the laps on which the car
pits.

This project models that core and proves what it computes:

- `Tyres` holds the compound table, the race length, the pit-lane loss, the
  shape of a strategy and what a valid input is.
- `Schedule` defines, from the lifespans alone, the schedule a strategy
  produces: how many laps the first k stints cover (`Coverage`), which stint
  runs a given lap (`StintOf`, `TyreOnLap`), the summed pace of the first n
  laps (`LapTimes`), the laps on which the car pits (`PitStopLaps`) and the
  outcome of a race (`ExpectedOutcome`). It proves the properties of that
  schedule: the number of stops is the least k whose first k + 1 lifespans
  reach the race length, the time has a closed form by stints, the pit laps
  rise strictly, and the planned lap counts never matter.
- `RaceTime.CalculateRaceTime` is the simulation loop of `calculate_race_time`,
  proved to return exactly `ExpectedOutcome`.
- `TyreUsage.ReplayTyreUsage` is the chart's replay loop, proved to return the
  per-lap compounds and exactly `PitStopLaps`. `TyreUsage.StrategyReport`
  chains the two as the results section does and proves that the chart agrees
  with the reported figures.
- `Strategies` holds the three strategies offered and proves what each yields
  over 58 laps. Soft then Medium runs out of tyres. Soft, Soft, Medium
  finishes in 113.4 s with 2 stops, pitting on laps 21 and 41. Medium then
  Hard finishes in 96.8 s with 1 stop, pitting on lap 31.

The number of laps is a parameter of both loops. The script always uses
`TOTAL_LAPS`, which is what `StrategyReport` and the `Strategies` lemmas pass.
Paces and times are exact reals.

The program has one policy for a strategy that runs out of tyres: it
abandons the race and never keeps racing on the last compound. The code bumps
the stop counter before it tests whether a stint is left. It returns nothing
in that case, so the order does not change any result. A race of 0 laps is
accepted and completes with no time and no stop (`Schedule.ZeroLapRace`).

## Model

| member | source | states |
|---|---|---|
| Tyres.Lifespan | f1_strat.py:8-12 | every compound in the table lasts between 20 and 40 laps |
| Tyres.PacePositive | f1_strat.py:8-12 | every compound in the table has a positive pace, so each lap adds time |
| Tyres.RunTimeIsProduct | f1_strat.py:32-33 | running k laps on one compound, adding its pace once per lap, takes k times its pace |
| Schedule.CoverageIncreasing | f1_strat.py:22-30 | every stint is run for at least one lap, so the laps covered by the first i stints strictly grow with i |
| Schedule.CoverageMonotonic | f1_strat.py:22-30 | the laps covered by the first i stints never shrink as i grows |
| Schedule.StintFromFinds | f1_strat.py:21-30 | the stint search stops at the first stint whose lifespans reach the lap and not before |
| Schedule.StintOfFinds | f1_strat.py:21-30 | lap n is run on stint StintOf(n): the earlier stints' lifespans fall short of n and that stint's reach it |
| Schedule.StintOfUnique | f1_strat.py:21-30 | any stint whose laps contain n is StintOf(n), and n is then within the strategy's total lifespan |
| Schedule.StintOfIsLeast | f1_strat.py:21-30 | the stop count for n laps is the least k such that the first k + 1 lifespans add up to at least n |
| Schedule.StintOfMonotonic | f1_strat.py:21-30 | a longer race never needs fewer stops |
| Schedule.TyreOnLap | f1_strat.py:29-32 | the compound run on any lap the strategy covers is a key of the compound table |
| Schedule.LapTimesNextLap | f1_strat.py:32-33 | a lap run on stint i adds exactly that stint's pace to the racing time |
| Schedule.LapTimesWithinStint | f1_strat.py:21-32 | within stint i, racing time grows by the stint's pace times the laps run on it |
| Schedule.LapTimesByStints | f1_strat.py:21-32 | the summed pace of the first n laps is every earlier stint run to its lifespan plus the current stint's laps so far |
| Schedule.LapTimesMonotonic | f1_strat.py:32-33 | the summed pace never decreases as laps are added |
| Schedule.ZeroLapRace | f1_strat.py:21 | a race of no laps completes in 0 seconds with 0 stops |
| Schedule.ShorterRace | f1_strat.py:15-35 | a strategy that completes a race completes every shorter one, in no more time and with no more stops |
| Schedule.PitLapsUpTo | f1_strat.py:79-80 | stop i (from 0) is recorded on the lap after the first i + 1 lifespans are used up |
| Schedule.PitStopLapsShape | f1_strat.py:78-86 | the recorded pit laps rise strictly and fall within the race; the next stint, if any, lasts to the flag; a completed race records one pit lap per stop and a failed one one per stint |
| Schedule.SameCompoundsCoverage | f1_strat.py:15-35 | lifespan coverage depends only on the stints' compounds |
| Schedule.SameCompoundsTyreOnLap | f1_strat.py:15-35 | the stint and compound of every lap depend only on the stints' compounds |
| Schedule.SameCompoundsLapTimes | f1_strat.py:15-35 | racing time depends only on the stints' compounds |
| Schedule.SameCompoundsPitLaps | f1_strat.py:79-83 | the pit laps depend only on the stints' compounds |
| Schedule.PlannedLapsIgnored | f1_strat.py:17-29 | changing the planned lap counts of a strategy (written at f1_strat.py:43-45, never read: lines 17, 29 and 83 read only each stint's compound) changes neither the outcome nor the pit laps |
| RaceTime.CalculateRaceTime | f1_strat.py:15-35 | the simulation returns the summed pace of every lap plus 20 s per stop, and the stop count; it runs out of tyres exactly when the sum of all lifespans is below the race length; a finished race has fewer stops than stints |
| TyreUsage.ReplayCoversRace | f1_strat.py:78-86 | the replay lists every lap of the race exactly when the simulation completes it; when the strategy runs out it lists only the laps the tyres last, fewer than the race |
| TyreUsage.ReplayTyreUsage | f1_strat.py:73-86 | the replay lists the compound of every lap raced and records exactly the pit laps of the schedule |
| TyreUsage.TotalPaceOfReplay | f1_strat.py:85-91 | the paces charted for the replayed compounds sum to the racing time of those laps |
| TyreUsage.StrategyReport | f1_strat.py:62-86 | on a finished race the chart lists the compound run on each of the race's laps and exactly the schedule's pit laps, one per stop, the pit laps rise strictly within the race, and the reported time is the charted paces plus 20 s per pit lap; nothing is charted when the strategy runs out |
| Strategies.OfferedAreValid | f1_strat.py:42-46 | the three offered strategies are non-empty and use only compounds of the table |
| Strategies.SoftMediumRunsOut | f1_strat.py:43 | Soft then Medium covers only 50 laps and runs out of tyres over 58 |
| Strategies.SoftSoftMediumTwoStops | f1_strat.py:44 | Soft, Soft, Medium finishes in 113.4 s with 2 stops, pitting on laps 21 and 41 |
| Strategies.MediumHardOneStop | f1_strat.py:45 | Medium then Hard finishes in 96.8 s with 1 stop, pitting on lap 31 |

## Left out

- The Streamlit page (title, selection box, `st.write`, `st.error`) and the matplotlib chart: these are presentation. The selection becomes the strategy argument, and the chart's data is what `ReplayTyreUsage` returns.
- Looking up the selected label in `strategy_names` (f1_strat.py:48-59): the model takes the strategy itself. `Strategies.Offered` lists the three in menu order.
- `LAP_DISTANCE` (f1_strat.py:5): nothing reads it.
- Floating point: paces and times are exact reals. The program sums binary floats and prints them to two decimals, so it shows 113.40 where the model proves exactly 113.4.
- RaceTime.CalculateRaceTime: requires every compound of the strategy to be in the table. The program only looks up the compounds of stints it reaches, so an unknown compound in a stint never reached goes unnoticed there. An unknown compound that is reached raises an error, and an empty strategy fails on its first stint. Both are excluded here.
- TyreUsage.ReplayTyreUsage: is modelled for every valid strategy, including one that runs out. The program only replays a strategy that finished.
- TyreUsage.TotalPaceOfReplay: the program plots the per-lap paces but never sums them. The sum is defined here only to tie the chart to the reported time.
