/**
 * The static configuration of the strategy simulator: the race, the tyre
 * compound table and the shape of a strategy (an ordered list of stints).
 */
module Tyres {

  /** Per-compound performance: seconds per lap and laps before a mandatory change. */
  datatype Tyre = Tyre(pace: real, lifespan: nat)

  /** A compound is named by its key in the compound table ("Soft", "Medium", "Hard"). */
  type Compound = string

  const TotalLaps: nat := 58

  /** Seconds lost in the pit lane on each tyre change. */
  const PitStopLoss: real := 20.0

  const TyrePerformance: map<Compound, Tyre> := map[
    "Soft" := Tyre(1.25, 20),
    "Medium" := Tyre(1.30, 30),
    "Hard" := Tyre(1.35, 40)
  ]

  /**
   * One planned segment of the race. Only `compound` is ever read by the
   * simulation; `plannedLaps` is display data.
   */
  datatype Stint = Stint(compound: Compound, plannedLaps: int)

  type Strategy = seq<Stint>

  predicate Known(c: Compound) {
    c in TyrePerformance
  }

  /** What the simulation needs of its input: a first stint, and only known compounds. */
  predicate ValidStrategy(s: Strategy) {
    |s| > 0 && forall i :: 0 <= i < |s| ==> Known(s[i].compound)
  }

  function Lifespan(c: Compound): (laps: nat)
    requires Known(c)
    ensures 20 <= laps <= 40
  {
    TyrePerformance[c].lifespan
  }

  function Pace(c: Compound): real
    requires Known(c)
  {
    TyrePerformance[c].pace
  }

  lemma PacePositive(c: Compound)
    requires Known(c)
    ensures Pace(c) > 0.0
  {
  }

  /** The time to run `laps` laps on compound c: `laps` times its pace. */
  function RunTime(laps: nat, c: Compound): real
    requires Known(c)
  {
    if laps == 0 then 0.0 else RunTime(laps - 1, c) + Pace(c)
  }

  lemma {:induction false} RunTimeIsProduct(laps: nat, c: Compound)
    requires Known(c)
    ensures RunTime(laps, c) == laps as real * Pace(c)
  {
    if laps > 0 {
      RunTimeIsProduct(laps - 1, c);
    }
  }
}
