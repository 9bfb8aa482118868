/**
 * The closed-form schedule of a race: which stint runs on which lap, where
 * the pit stops fall and what the race costs, defined from the lifespans of
 * the strategy's compounds alone. The lap-by-lap simulations in RaceTime and
 * TyreUsage are proved to agree with these definitions.
 */
module Schedule {
  import opened Tyres

  /** Laps covered by the first k stints when every tyre is run to its lifespan. */
  function Coverage(s: Strategy, k: nat): (laps: nat)
    requires ValidStrategy(s) && k <= |s|
  {
    if k == 0 then 0 else Coverage(s, k - 1) + Lifespan(s[k - 1].compound)
  }

  lemma {:induction false} CoverageIncreasing(s: Strategy, i: nat, j: nat)
    requires ValidStrategy(s) && i < j <= |s|
    ensures Coverage(s, i) < Coverage(s, j)
  {
    if i < j - 1 {
      CoverageIncreasing(s, i, j - 1);
    }
  }

  lemma CoverageMonotonic(s: Strategy, i: nat, j: nat)
    requires ValidStrategy(s) && i <= j <= |s|
    ensures Coverage(s, i) <= Coverage(s, j)
  {
  }

  /** The outcome of simulating a strategy over a race. */
  datatype Outcome = Completed(totalTime: real, pitStops: nat) | OutOfTyres

  /** The search for the stint that runs `lap`, starting at stint i. */
  function StintFrom(s: Strategy, lap: nat, i: nat): (j: nat)
    requires ValidStrategy(s) && i < |s| && lap <= Coverage(s, |s|)
    ensures i <= j < |s|
    decreases |s| - i
  {
    if lap <= Coverage(s, i + 1) then i else StintFrom(s, lap, i + 1)
  }

  /**
   * Started past every stint that ends before `lap`, the search stops at the
   * first stint whose coverage reaches `lap`.
   */
  lemma {:induction false} StintFromFinds(s: Strategy, lap: nat, i: nat)
    requires ValidStrategy(s) && i < |s| && lap <= Coverage(s, |s|)
    requires i > 0 ==> Coverage(s, i) < lap
    ensures var j := StintFrom(s, lap, i);
      lap <= Coverage(s, j + 1) && (j > 0 ==> Coverage(s, j) < lap)
    decreases |s| - i
  {
    if Coverage(s, i + 1) < lap {
      StintFromFinds(s, lap, i + 1);
    }
  }

  /**
   * The stint that runs lap `lap` (laps are numbered from 1; lap 0 gives 0):
   * stint i runs laps Coverage(s, i) + 1 .. Coverage(s, i + 1).
   */
  function StintOf(s: Strategy, lap: nat): (i: nat)
    requires ValidStrategy(s) && lap <= Coverage(s, |s|)
    ensures i < |s|
  {
    StintFrom(s, lap, 0)
  }

  lemma StintOfFinds(s: Strategy, lap: nat)
    requires ValidStrategy(s) && lap <= Coverage(s, |s|)
    ensures var i := StintOf(s, lap);
      lap <= Coverage(s, i + 1) && (i > 0 ==> Coverage(s, i) < lap)
  {
    StintFromFinds(s, lap, 0);
  }

  /** StintOf is the only index whose laps contain `lap`. */
  lemma StintOfUnique(s: Strategy, lap: nat, i: nat)
    requires ValidStrategy(s) && i < |s| && lap <= Coverage(s, i + 1)
    requires i > 0 ==> Coverage(s, i) < lap
    ensures lap <= Coverage(s, |s|)
    ensures StintOf(s, lap) == i
  {
    if i + 1 < |s| {
      CoverageIncreasing(s, i + 1, |s|);
    }
    var j := StintOf(s, lap);
    StintOfFinds(s, lap);
    if j < i {
      if j + 1 < i {
        CoverageIncreasing(s, j + 1, i);
      }
      assert false;
    } else if i < j {
      if i + 1 < j {
        CoverageIncreasing(s, i + 1, j);
      }
      assert false;
    }
  }

  /**
   * The number of stops needed to cover `lap` laps is the least k such that
   * the first k + 1 lifespans add up to at least `lap`.
   */
  lemma StintOfIsLeast(s: Strategy, lap: nat, k: nat)
    requires ValidStrategy(s) && lap <= Coverage(s, |s|)
    ensures k < StintOf(s, lap) ==> Coverage(s, k + 1) < lap
    ensures k < |s| && lap <= Coverage(s, k + 1) ==> StintOf(s, lap) <= k
  {
    var j := StintOf(s, lap);
    StintOfFinds(s, lap);
    if k + 1 < j {
      CoverageIncreasing(s, k + 1, j);
    }
    if k < j && lap <= Coverage(s, k + 1) {
      assert false;
    }
  }

  /** A longer race never needs fewer stops. */
  lemma StintOfMonotonic(s: Strategy, lap1: nat, lap2: nat)
    requires ValidStrategy(s) && lap1 <= lap2 <= Coverage(s, |s|)
    ensures StintOf(s, lap1) <= StintOf(s, lap2)
  {
    var j := StintOf(s, lap2);
    StintOfFinds(s, lap2);
    StintOfIsLeast(s, lap1, j);
  }

  /** The compound run on lap `lap`, 1 <= lap. */
  function TyreOnLap(s: Strategy, lap: nat): (c: Compound)
    requires ValidStrategy(s) && 1 <= lap <= Coverage(s, |s|)
    ensures Known(c)
  {
    s[StintOf(s, lap)].compound
  }

  /** The racing time of laps 1 .. n: the pace of the compound run on each lap. */
  function LapTimes(s: Strategy, n: nat): real
    requires ValidStrategy(s) && n <= Coverage(s, |s|)
  {
    if n == 0 then 0.0 else LapTimes(s, n - 1) + Pace(TyreOnLap(s, n))
  }

  /**
   * What the simulation returns: out of tyres exactly when the lifespans of
   * all stints fall short of the race distance; otherwise the pace of every
   * lap plus the pit-lane loss of every stop.
   */
  function ExpectedOutcome(laps: nat, s: Strategy): Outcome
    requires ValidStrategy(s)
  {
    if Coverage(s, |s|) < laps then OutOfTyres
    else
      var stops := StintOf(s, laps);
      Completed(LapTimes(s, laps) + PitStopLoss * stops as real, stops)
  }

  /** A lap run on stint i adds that stint's pace. */
  lemma LapTimesNextLap(s: Strategy, i: nat, n: nat)
    requires ValidStrategy(s) && i < |s|
    requires Coverage(s, i) < n <= Coverage(s, i + 1) <= Coverage(s, |s|)
    ensures LapTimes(s, n) == LapTimes(s, n - 1) + Pace(s[i].compound)
  {
    StintOfUnique(s, n, i);
  }

  /** Up to the end of stint i, its laps cost RunTime(laps run on it, its compound). */
  lemma {:induction false} LapTimesWithinStint(s: Strategy, i: nat, n: nat)
    requires ValidStrategy(s) && i < |s|
    requires Coverage(s, i) <= n <= Coverage(s, i + 1) <= Coverage(s, |s|)
    ensures LapTimes(s, n) == LapTimes(s, Coverage(s, i)) + RunTime(n - Coverage(s, i), s[i].compound)
  {
    if n > Coverage(s, i) {
      LapTimesWithinStint(s, i, n - 1);
      LapTimesNextLap(s, i, n);
    }
  }

  /** Racing time only grows with the distance raced. */
  lemma {:induction false} LapTimesMonotonic(s: Strategy, n1: nat, n2: nat)
    requires ValidStrategy(s) && n1 <= n2 <= Coverage(s, |s|)
    ensures LapTimes(s, n1) <= LapTimes(s, n2)
    decreases n2
  {
    if n1 < n2 {
      LapTimesMonotonic(s, n1, n2 - 1);
      PacePositive(TyreOnLap(s, n2));
    }
  }

  /** A race of no laps completes at once, with no time and no stop. */
  lemma ZeroLapRace(s: Strategy)
    requires ValidStrategy(s)
    ensures ExpectedOutcome(0, s) == Completed(0.0, 0)
  {
  }

  /**
   * A strategy that completes a race also completes every shorter one, in no
   * more time and with no more stops.
   */
  lemma ShorterRace(s: Strategy, laps1: nat, laps2: nat)
    requires ValidStrategy(s) && laps1 <= laps2 && ExpectedOutcome(laps2, s).Completed?
    ensures ExpectedOutcome(laps1, s).Completed?
    ensures ExpectedOutcome(laps1, s).totalTime <= ExpectedOutcome(laps2, s).totalTime
    ensures ExpectedOutcome(laps1, s).pitStops <= ExpectedOutcome(laps2, s).pitStops
  {
    StintOfMonotonic(s, laps1, laps2);
    LapTimesMonotonic(s, laps1, laps2);
  }

  /** The racing time of the first k stints, each run to its lifespan. */
  function FullStintsTime(s: Strategy, k: nat): real
    requires ValidStrategy(s) && k <= |s|
  {
    if k == 0 then 0.0
    else FullStintsTime(s, k - 1) + RunTime(Lifespan(s[k - 1].compound), s[k - 1].compound)
  }

  /**
   * Closed form of the racing time: up to lap n, run on stint i, the earlier
   * stints were run to their lifespans and stint i for the remaining laps.
   */
  lemma {:induction false} LapTimesByStints(s: Strategy, i: nat, n: nat)
    requires ValidStrategy(s) && i < |s|
    requires Coverage(s, i) <= n <= Coverage(s, i + 1)
    ensures n <= Coverage(s, |s|)
    ensures LapTimes(s, n) == FullStintsTime(s, i) + RunTime(n - Coverage(s, i), s[i].compound)
  {
    CoverageMonotonic(s, i + 1, |s|);
    LapTimesWithinStint(s, i, n);
    if i > 0 {
      LapTimesByStints(s, i - 1, Coverage(s, i));
    }
  }

  /** The laps 1 + Coverage(s, 1), ..., 1 + Coverage(s, k) on which the first k stops fall. */
  function PitLapsUpTo(s: Strategy, k: nat): (laps: seq<nat>)
    requires ValidStrategy(s) && k <= |s|
    ensures |laps| == k
    ensures forall i :: 0 <= i < k ==> laps[i] == Coverage(s, i + 1) + 1
  {
    if k == 0 then [] else PitLapsUpTo(s, k - 1) + [Coverage(s, k) + 1]
  }

  /**
   * The laps on which the lifespan check fires: one per stop, and on a
   * strategy that runs out, one more for the stop that finds no stint left.
   */
  function PitStopLaps(laps: nat, s: Strategy): seq<nat>
    requires ValidStrategy(s)
  {
    PitLapsUpTo(s, if Coverage(s, |s|) < laps then |s| else StintOf(s, laps))
  }

  /**
   * The stop laps rise strictly, all fall within the race, the next stint's
   * exhaustion (if any) falls after the flag, and on a completed race there
   * is one per stop.
   */
  lemma PitStopLapsShape(laps: nat, s: Strategy)
    requires ValidStrategy(s)
    ensures var p := PitStopLaps(laps, s);
      && (forall i, j :: 0 <= i < j < |p| ==> p[i] < p[j])
      && (forall i :: 0 <= i < |p| ==> 1 <= p[i] <= laps)
      && (|p| < |s| ==> laps <= Coverage(s, |p| + 1))
      && (ExpectedOutcome(laps, s).Completed? ==> |p| == ExpectedOutcome(laps, s).pitStops)
      && (ExpectedOutcome(laps, s).OutOfTyres? ==> |p| == |s|)
  {
    if laps <= Coverage(s, |s|) {
      StintOfFinds(s, laps);
    }
    var p := PitStopLaps(laps, s);
    var n := |p|;
    forall i, j | 0 <= i < j < n
      ensures p[i] < p[j]
    {
      CoverageIncreasing(s, i + 1, j + 1);
    }
    forall i | 0 <= i < n
      ensures p[i] <= laps
    {
      if i + 1 < n {
        CoverageIncreasing(s, i + 1, n);
      }
    }
  }

  /** Two strategies that differ only in their planned lap counts. */
  predicate SameCompounds(s1: Strategy, s2: Strategy) {
    |s1| == |s2| && forall i :: 0 <= i < |s1| ==> s1[i].compound == s2[i].compound
  }

  lemma {:induction false} SameCompoundsCoverage(s1: Strategy, s2: Strategy, k: nat)
    requires ValidStrategy(s1) && SameCompounds(s1, s2) && k <= |s1|
    ensures ValidStrategy(s2) && Coverage(s1, k) == Coverage(s2, k)
  {
    if k > 0 {
      SameCompoundsCoverage(s1, s2, k - 1);
    }
  }

  lemma SameCompoundsTyreOnLap(s1: Strategy, s2: Strategy, lap: nat)
    requires ValidStrategy(s1) && SameCompounds(s1, s2) && 1 <= lap <= Coverage(s1, |s1|)
    ensures ValidStrategy(s2) && lap <= Coverage(s2, |s2|)
    ensures StintOf(s1, lap) == StintOf(s2, lap)
    ensures TyreOnLap(s1, lap) == TyreOnLap(s2, lap)
  {
    SameCompoundsCoverage(s1, s2, |s1|);
    var i := StintOf(s1, lap);
    StintOfFinds(s1, lap);
    SameCompoundsCoverage(s1, s2, i);
    SameCompoundsCoverage(s1, s2, i + 1);
    StintOfUnique(s2, lap, i);
  }

  lemma {:induction false} SameCompoundsLapTimes(s1: Strategy, s2: Strategy, n: nat)
    requires ValidStrategy(s1) && SameCompounds(s1, s2) && n <= Coverage(s1, |s1|)
    ensures ValidStrategy(s2) && n <= Coverage(s2, |s2|)
    ensures LapTimes(s1, n) == LapTimes(s2, n)
  {
    SameCompoundsCoverage(s1, s2, |s1|);
    if n > 0 {
      SameCompoundsLapTimes(s1, s2, n - 1);
      SameCompoundsTyreOnLap(s1, s2, n);
    }
  }

  /** Planned lap counts are never read: changing them changes nothing the simulation reports. */
  lemma PlannedLapsIgnored(laps: nat, s1: Strategy, s2: Strategy)
    requires ValidStrategy(s1) && SameCompounds(s1, s2)
    ensures ValidStrategy(s2)
    ensures ExpectedOutcome(laps, s1) == ExpectedOutcome(laps, s2)
    ensures PitStopLaps(laps, s1) == PitStopLaps(laps, s2)
  {
    SameCompoundsCoverage(s1, s2, |s1|);
    if laps <= Coverage(s1, |s1|) {
      var i := StintOf(s1, laps);
      StintOfFinds(s1, laps);
      SameCompoundsCoverage(s1, s2, i);
      SameCompoundsCoverage(s1, s2, i + 1);
      StintOfUnique(s2, laps, i);
      SameCompoundsLapTimes(s1, s2, laps);
      SameCompoundsPitLaps(s1, s2, i);
    } else {
      SameCompoundsPitLaps(s1, s2, |s1|);
    }
  }

  lemma SameCompoundsPitLaps(s1: Strategy, s2: Strategy, k: nat)
    requires ValidStrategy(s1) && SameCompounds(s1, s2) && k <= |s1|
    ensures ValidStrategy(s2) && PitLapsUpTo(s1, k) == PitLapsUpTo(s2, k)
  {
    forall i | 1 <= i <= k
      ensures Coverage(s1, i) == Coverage(s2, i)
    {
      SameCompoundsCoverage(s1, s2, i);
    }
  }
}
