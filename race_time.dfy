/**
 * The race-time simulation: a lap-by-lap loop that runs each tyre to its
 * lifespan, pits for the next stint's compound, and gives up when no stint
 * is left.
 */
module RaceTime {
  import opened Tyres
  import opened Schedule

  /**
   * Simulates `laps` laps of `strategy`. Before each lap, a tyre that has
   * reached its lifespan is changed for the next stint's compound at the
   * cost of PitStopLoss; if there is no next stint the race cannot be
   * finished. Each lap then costs the current compound's pace.
   */
  method CalculateRaceTime(laps: nat, strategy: Strategy) returns (outcome: Outcome)
    requires ValidStrategy(strategy)
    ensures outcome == ExpectedOutcome(laps, strategy)
    ensures outcome.OutOfTyres? <==> Coverage(strategy, |strategy|) < laps
    ensures outcome.Completed? ==> outcome.pitStops < |strategy|
  {
    var totalTime := 0.0;
    var currentTyre := strategy[0].compound;
    var lapsOnTyre := 0;
    var pitStops := 0;
    for lap := 1 to laps + 1
      invariant pitStops < |strategy| && currentTyre == strategy[pitStops].compound
      invariant 0 <= lapsOnTyre <= Lifespan(currentTyre)
      invariant lap - 1 == Coverage(strategy, pitStops) + lapsOnTyre
      invariant pitStops > 0 ==> lapsOnTyre > 0
      invariant totalTime
             == FullStintsTime(strategy, pitStops) + RunTime(lapsOnTyre, currentTyre) + PitStopLoss * pitStops as real
    {
      if lapsOnTyre >= Lifespan(currentTyre) {
        assert lap - 1 == Coverage(strategy, pitStops + 1);
        pitStops := pitStops + 1;
        if pitStops >= |strategy| {
          return OutOfTyres;
        }
        totalTime := totalTime + PitStopLoss;
        currentTyre := strategy[pitStops].compound;
        lapsOnTyre := 0;
      }
      totalTime := totalTime + Pace(currentTyre);
      lapsOnTyre := lapsOnTyre + 1;
    }
    LapTimesByStints(strategy, pitStops, laps);
    StintOfUnique(strategy, laps, pitStops);
    return Completed(totalTime, pitStops);
  }
}
