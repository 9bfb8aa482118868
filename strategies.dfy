/**
 * The three strategies the dashboard offers, and what the simulation makes
 * of each over the 58-lap race.
 */
module Strategies {
  import opened Tyres
  import opened Schedule

  /** One stop, Soft then Medium. */
  const SoftMedium: Strategy := [Stint("Soft", 25), Stint("Medium", 33)]

  /** Two stops, Soft, Soft, then Medium. */
  const SoftSoftMedium: Strategy := [Stint("Soft", 15), Stint("Soft", 20), Stint("Medium", 23)]

  /** One stop, Medium then Hard. */
  const MediumHard: Strategy := [Stint("Medium", 30), Stint("Hard", 28)]

  /** The strategies in the order the selection box lists them. */
  const Offered: seq<Strategy> := [SoftMedium, SoftSoftMedium, MediumHard]

  lemma OfferedAreValid()
    ensures forall i :: 0 <= i < |Offered| ==> ValidStrategy(Offered[i])
  {
  }

  /** Soft and Medium last 20 + 30 = 50 laps, short of 58: the race cannot be finished. */
  lemma SoftMediumRunsOut()
    ensures ValidStrategy(SoftMedium)
    ensures Coverage(SoftMedium, |SoftMedium|) == 50
    ensures ExpectedOutcome(TotalLaps, SoftMedium) == OutOfTyres
  {
    assert Coverage(SoftMedium, 1) == 20;
  }

  /**
   * Soft, Soft, Medium: stops after laps 20 and 40, then 18 laps on Medium:
   * 40 * 1.25 + 18 * 1.30 + 2 * 20 = 113.4 seconds.
   */
  lemma SoftSoftMediumTwoStops()
    ensures ValidStrategy(SoftSoftMedium)
    ensures ExpectedOutcome(TotalLaps, SoftSoftMedium) == Completed(113.4, 2)
    ensures PitStopLaps(TotalLaps, SoftSoftMedium) == [21, 41]
  {
    var s := SoftSoftMedium;
    assert Coverage(s, 1) == 20;
    assert Coverage(s, 2) == 40;
    assert Coverage(s, 3) == 70;
    StintOfUnique(s, TotalLaps, 2);
    LapTimesByStints(s, 2, TotalLaps);
    RunTimeIsProduct(20, "Soft");
    RunTimeIsProduct(18, "Medium");
    assert FullStintsTime(s, 2) == 50.0;
    assert LapTimes(s, TotalLaps) == 73.4;
  }

  /**
   * Medium, Hard: one stop after lap 30, then 28 laps on Hard:
   * 30 * 1.30 + 28 * 1.35 + 20 = 96.8 seconds.
   */
  lemma MediumHardOneStop()
    ensures ValidStrategy(MediumHard)
    ensures ExpectedOutcome(TotalLaps, MediumHard) == Completed(96.8, 1)
    ensures PitStopLaps(TotalLaps, MediumHard) == [31]
  {
    var s := MediumHard;
    assert Coverage(s, 1) == 30;
    assert Coverage(s, 2) == 70;
    StintOfUnique(s, TotalLaps, 1);
    LapTimesByStints(s, 1, TotalLaps);
    RunTimeIsProduct(30, "Medium");
    RunTimeIsProduct(28, "Hard");
  }
}
