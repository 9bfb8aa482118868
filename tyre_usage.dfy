/**
 * The second pass of the dashboard: after a strategy completes the race, its
 * laps are replayed to list the compound run on every lap and the laps on
 * which the car pits, for the pace-over-laps chart.
 */
module TyreUsage {
  import opened Tyres
  import opened Schedule
  import opened RaceTime

  /** Laps actually raced: the whole race, or up to the end of the last stint's lifespan. */
  function LapsRaced(laps: nat, s: Strategy): (n: nat)
    requires ValidStrategy(s)
    ensures n <= laps && n <= Coverage(s, |s|)
    ensures n == laps || n == Coverage(s, |s|)
  {
    if Coverage(s, |s|) < laps then Coverage(s, |s|) else laps
  }

  /**
   * The replay charts the whole race exactly when the simulation completes
   * it; a strategy that runs out is charted only as far as its tyres last.
   */
  lemma ReplayCoversRace(laps: nat, s: Strategy)
    requires ValidStrategy(s)
    ensures LapsRaced(laps, s) == laps <==> ExpectedOutcome(laps, s).Completed?
    ensures ExpectedOutcome(laps, s).OutOfTyres? ==> LapsRaced(laps, s) == Coverage(s, |s|) < laps
  {
  }

  /**
   * Lap-by-lap replay: on each lap whose tyre has reached its lifespan the lap
   * is recorded as a pit lap, the replay stops when no stint is left, and
   * otherwise the next stint's compound is fitted; each lap raced appends the
   * compound in use.
   */
  method ReplayTyreUsage(laps: nat, strategy: Strategy) returns (tyreUsage: seq<Compound>, pitStopLaps: seq<nat>)
    requires ValidStrategy(strategy)
    ensures pitStopLaps == PitStopLaps(laps, strategy)
    ensures |tyreUsage| == LapsRaced(laps, strategy)
    ensures forall j :: 0 <= j < |tyreUsage| ==> tyreUsage[j] == TyreOnLap(strategy, j + 1)
  {
    tyreUsage := [];
    pitStopLaps := [];
    var currentTyre := strategy[0].compound;
    var lapsOnTyre := 0;
    for lap := 1 to laps + 1
      invariant |pitStopLaps| < |strategy| && currentTyre == strategy[|pitStopLaps|].compound
      invariant 0 <= lapsOnTyre <= Lifespan(currentTyre)
      invariant lap - 1 == Coverage(strategy, |pitStopLaps|) + lapsOnTyre
      invariant |pitStopLaps| > 0 ==> lapsOnTyre > 0
      invariant |tyreUsage| == lap - 1 <= Coverage(strategy, |strategy|)
      invariant forall i :: 0 <= i < |pitStopLaps| ==> pitStopLaps[i] == Coverage(strategy, i + 1) + 1
      invariant forall j :: 0 <= j < |tyreUsage| ==> tyreUsage[j] == TyreOnLap(strategy, j + 1)
    {
      if lapsOnTyre >= Lifespan(currentTyre) {
        assert lap - 1 == Coverage(strategy, |pitStopLaps| + 1);
        pitStopLaps := pitStopLaps + [lap];
        if |pitStopLaps| >= |strategy| {
          break;
        }
        currentTyre := strategy[|pitStopLaps|].compound;
        lapsOnTyre := 0;
      }
      StintOfUnique(strategy, lap, |pitStopLaps|);
      tyreUsage := tyreUsage + [currentTyre];
      lapsOnTyre := lapsOnTyre + 1;
    }
    if |pitStopLaps| < |strategy| {
      StintOfUnique(strategy, laps, |pitStopLaps|);
    }
    PitLapsUpToMatches(strategy, pitStopLaps);
  }

  /** A list holding the lap after each of the first k stints' lifespans is PitLapsUpTo(s, k). */
  lemma PitLapsUpToMatches(s: Strategy, p: seq<nat>)
    requires ValidStrategy(s) && |p| <= |s|
    requires forall i :: 0 <= i < |p| ==> p[i] == Coverage(s, i + 1) + 1
    ensures p == PitLapsUpTo(s, |p|)
  {
    var q := PitLapsUpTo(s, |p|);
    assert forall i :: 0 <= i < |p| ==> p[i] == q[i];
  }

  predicate AllKnown(usage: seq<Compound>) {
    forall j :: 0 <= j < |usage| ==> Known(usage[j])
  }

  /** The summed pace of a list of per-lap compounds: the area under the chart's pace line. */
  function TotalPace(usage: seq<Compound>): real
    requires AllKnown(usage)
  {
    if usage == [] then 0.0 else TotalPace(usage[..|usage| - 1]) + Pace(usage[|usage| - 1])
  }

  /** Summing the replayed compounds' paces gives the racing time of those laps. */
  lemma {:induction false} TotalPaceOfReplay(s: Strategy, usage: seq<Compound>)
    requires ValidStrategy(s) && |usage| <= Coverage(s, |s|)
    requires forall j :: 0 <= j < |usage| ==> usage[j] == TyreOnLap(s, j + 1)
    ensures AllKnown(usage)
    ensures TotalPace(usage) == LapTimes(s, |usage|)
  {
    if usage != [] {
      TotalPaceOfReplay(s, usage[..|usage| - 1]);
    }
  }

  /** What the dashboard shows for one strategy, and the chart data when it completes. */
  datatype Report = Report(outcome: Outcome, tyreUsage: seq<Compound>, pitStopLaps: seq<nat>)

  /**
   * The results section: simulate the race; only when it completes, replay it
   * for the chart. The chart then agrees with the reported figures: one lap
   * entry per race lap, holding the compound run on that lap, the schedule's
   * pit laps, one per stop, and the reported time is the charted paces plus
   * the pit-lane losses.
   */
  method StrategyReport(strategy: Strategy) returns (report: Report)
    requires ValidStrategy(strategy)
    ensures report.outcome == ExpectedOutcome(TotalLaps, strategy)
    ensures report.outcome.OutOfTyres? ==> report.tyreUsage == [] && report.pitStopLaps == []
    ensures report.outcome.Completed? ==>
      && |report.tyreUsage| == TotalLaps
      && |report.pitStopLaps| == report.outcome.pitStops
      && AllKnown(report.tyreUsage)
      && report.outcome.totalTime
         == TotalPace(report.tyreUsage) + PitStopLoss * |report.pitStopLaps| as real
      && (forall i, j :: 0 <= i < j < |report.pitStopLaps| ==> report.pitStopLaps[i] < report.pitStopLaps[j])
      && (forall i :: 0 <= i < |report.pitStopLaps| ==> 1 <= report.pitStopLaps[i] <= TotalLaps)
      && report.pitStopLaps == PitStopLaps(TotalLaps, strategy)
      && (forall j :: 0 <= j < |report.tyreUsage| ==> report.tyreUsage[j] == TyreOnLap(strategy, j + 1))
  {
    var outcome := CalculateRaceTime(TotalLaps, strategy);
    if outcome.OutOfTyres? {
      return Report(outcome, [], []);
    }
    var tyreUsage, pitStopLaps := ReplayTyreUsage(TotalLaps, strategy);
    PitStopLapsShape(TotalLaps, strategy);
    TotalPaceOfReplay(strategy, tyreUsage);
    return Report(outcome, tyreUsage, pitStopLaps);
  }
}
