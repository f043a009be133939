/** The compliance states of an objective, said of the numbers that were measured and the thresholds that
    the objective gives. */
module Hysteresis {
  import opened Types
  import opened Doubles
  import opened Decisions

  /** The number of the breach threshold, or of the target where none is given. */
  function BreachNumber(o: Objective): real {
    if o.breach.Some? then NumberOf(o.breach.value) else NumberOf(o.target)
  }

  function RecoveryNumber(o: Objective): real {
    if o.recovery.Some? then NumberOf(o.recovery.value) else NumberOf(o.target)
  }

  /** Past the breach threshold by more than a billionth. */
  predicate Beyond(o: Objective, m: real) {
    match o.comparison
    case AtMost => m > BreachNumber(o) + 0.000000001
    case AtLeast => m < BreachNumber(o) - 0.000000001
  }

  /** No better value exists in the unit of the target. */
  predicate Topped(target: Value, m: real) {
    || (target.BasisPoints? && m >= 10000.0)
    || (target.Percentage? && m >= 100.0)
    || (target.PressureRatio? && m >= 1000000.0)
  }

  /** On the right side of the breach threshold, and of the recovery threshold where that is another
      one; or else five percent away from the breach threshold. */
  predicate Inside(o: Objective, m: real) {
    var breach, recovery := BreachNumber(o), RecoveryNumber(o);
    match o.comparison
    case AtMost =>
      && m <= breach + 0.000000001
      && (if recovery != breach then m <= recovery + 0.000000001 else m <= 0.95 * breach)
    case AtLeast =>
      && m >= breach - 0.000000001
      && (if recovery != breach then m >= recovery - 0.000000001 else m >= 1.05 * breach || Topped(o.target, m))
  }

  lemma ZoneByNumbers(o: Objective, m: real)
    ensures ClassifyZone(LimitsOf(o), m) == if Beyond(o, m) then Violation else if Inside(o, m) then Clear else Near
  {}

  /** Evaluation `i` measured beyond the breach threshold, and every later one had usable evidence that did
      not measure inside. */
  ghost predicate BeyondSince(o: Objective, seen: seq<Observation>, i: nat) {
    && i < |seen| && seen[i].Usable? && Beyond(o, seen[i].measured)
    && forall j {:trigger seen[j]} :: i < j < |seen| ==> seen[j].Usable? && !Inside(o, seen[j].measured)
  }

  lemma LatchByNumbers(o: Objective, seen: seq<Observation>, i: nat)
    ensures LatchedSince(LimitsOf(o), seen, i) <==> BeyondSince(o, seen, i)
  {
    forall j | 0 <= j < |seen| && seen[j].Usable?
      ensures Breaches(LimitsOf(o), seen[j]) <==> Beyond(o, seen[j].measured)
      ensures Clears(LimitsOf(o), seen[j]) <==> !Beyond(o, seen[j].measured) && Inside(o, seen[j].measured)
    {
      ZoneByNumbers(o, seen[j].measured);
    }
  }

  /** From a start that is not latched, an objective is Violating exactly when some evaluation measured
      beyond the breach threshold and every later one had usable evidence and did not measure inside. */
  lemma ViolatingByNumbers(o: Objective, start: ComplianceState, seen: seq<Observation>)
    requires !start.Violating? && !start.Recovering?
    ensures StateAfter(LimitsOf(o), start, seen).Violating? <==> exists i: nat :: BeyondSince(o, seen, i)
  {
    ViolatingExactly(LimitsOf(o), start, seen);
    LatchedByNumbers(o, seen);
  }

  lemma LatchedByNumbers(o: Objective, seen: seq<Observation>)
    ensures Latched(LimitsOf(o), seen) <==> exists i: nat :: BeyondSince(o, seen, i)
  {
    if i: nat :| BeyondSince(o, seen, i) {
      LatchByNumbers(o, seen, i);
      assert LatchedSince(LimitsOf(o), seen, i);
    }
    if Latched(LimitsOf(o), seen) {
      var i: nat :| LatchedSince(LimitsOf(o), seen, i);
      LatchByNumbers(o, seen, i);
    }
  }

  /** The other states, by the last evaluation. */
  lemma OthersByNumbers(o: Objective, start: ComplianceState, seen: seq<Observation>)
    requires !start.Violating? && !start.Recovering? && seen != []
    ensures var last, state := seen[|seen| - 1], StateAfter(LimitsOf(o), start, seen);
      && (state.Compliant? <==> last.Usable? && Inside(o, last.measured) && !last.exhausted)
      && (state.NearLimit? <==>
            && last.Usable? && (Inside(o, last.measured) ==> last.exhausted)
            && !exists i: nat :: BeyondSince(o, seen, i))
      && (state.RevalidationRequired? <==> last == Unusable(true))
      && (state.InsufficientEvidence? <==> last == Unusable(false))
  {
    var last := seen[|seen| - 1];
    OtherStates(LimitsOf(o), start, seen);
    ViolatingExactly(LimitsOf(o), start, seen);
    ViolatingByNumbers(o, start, seen);
    if last.Usable? {
      ZoneByNumbers(o, last.measured);
      NotBoth(o, last.measured);
    }
  }

  lemma NotBoth(o: Objective, m: real)
    ensures !(Beyond(o, m) && Inside(o, m))
  {}

  /** With a recovery threshold below the breach threshold, an at-most objective is Violating exactly when
      some measurement was above breach and every later one was usable and above recovery. */
  lemma AtMostLatch(o: Objective, breach: real, recovery: real, start: ComplianceState, seen: seq<Observation>)
    requires o.comparison.AtMost? && o.breach.Some? && o.recovery.Some? && recovery < breach
    requires breach == NumberOf(o.breach.value) && recovery == NumberOf(o.recovery.value)
    requires !start.Violating? && !start.Recovering?
    ensures StateAfter(LimitsOf(o), start, seen).Violating? <==>
      exists i {:trigger seen[i]} ::
        && 0 <= i < |seen| && seen[i].Usable? && seen[i].measured > breach + 0.000000001
        && forall j {:trigger seen[j]} :: i < j < |seen| ==> seen[j].Usable? && seen[j].measured > recovery + 0.000000001
  {
    ViolatingByNumbers(o, start, seen);
    if i: nat :| BeyondSince(o, seen, i) {
      assert seen[i].measured > breach + 0.000000001;
    }
    if i :| 0 <= i < |seen| && seen[i].Usable? && seen[i].measured > breach + 0.000000001
            && forall j {:trigger seen[j]} :: i < j < |seen| ==> seen[j].Usable? && seen[j].measured > recovery + 0.000000001
    {
      assert BeyondSince(o, seen, i);
    }
  }

  /** The mirror image for an at-least objective with its recovery threshold above. */
  lemma AtLeastLatch(o: Objective, breach: real, recovery: real, start: ComplianceState, seen: seq<Observation>)
    requires o.comparison.AtLeast? && o.breach.Some? && o.recovery.Some? && recovery > breach
    requires breach == NumberOf(o.breach.value) && recovery == NumberOf(o.recovery.value)
    requires !start.Violating? && !start.Recovering?
    ensures StateAfter(LimitsOf(o), start, seen).Violating? <==>
      exists i {:trigger seen[i]} ::
        && 0 <= i < |seen| && seen[i].Usable? && seen[i].measured < breach - 0.000000001
        && forall j {:trigger seen[j]} :: i < j < |seen| ==> seen[j].Usable? && seen[j].measured < recovery - 0.000000001
  {
    ViolatingByNumbers(o, start, seen);
    if i: nat :| BeyondSince(o, seen, i) {
      assert seen[i].measured < breach - 0.000000001;
    }
    if i :| 0 <= i < |seen| && seen[i].Usable? && seen[i].measured < breach - 0.000000001
            && forall j {:trigger seen[j]} :: i < j < |seen| ==> seen[j].Usable? && seen[j].measured < recovery - 0.000000001
    {
      assert BeyondSince(o, seen, i);
    }
  }

  /** At work: with breach near 0.90 and recovery near 0.80, 0.95 violates, 0.85 still does, and 0.75 does not. */
  lemma BandHolds(o: Objective, breach: Double, recovery: Double)
    requires o.comparison.AtMost? && o.breach == Some(PressureRatio(breach)) && o.recovery == Some(PressureRatio(recovery))
    requires 0.89 < RealOf(breach) < 0.91 && 0.79 < RealOf(recovery) < 0.81
    ensures NextState(LimitsOf(o), InsufficientEvidence, Usable(0.95, false)).Violating?
    ensures NextState(LimitsOf(o), Violating, Usable(0.85, false)).Violating?
    ensures NextState(LimitsOf(o), Compliant, Usable(0.85, false)).NearLimit?
    ensures NextState(LimitsOf(o), Violating, Usable(0.75, false)).Compliant?
  {}

  /** How far out an objective is: the measurement in multiples of the breach threshold, or the threshold in
      multiples of the measurement where more is better; a measurement that is not positive counts as one. */
  predicate MagnitudeFits(o: Objective, m: real, magnitude: real) {
    if BreachNumber(o) <= 0.0 then magnitude == 0.0
    else if o.comparison.AtMost? then magnitude * BreachNumber(o) == m
    else if m > 0.0 then magnitude * m == BreachNumber(o)
    else magnitude == BreachNumber(o)
  }

  lemma MagnitudeByNumbers(o: Objective, m: real)
    ensures MagnitudeFits(o, m, SeverityMagnitude(LimitsOf(o), m))
  {
    if BreachNumber(o) > 0.0 {
      if o.comparison.AtMost? {
        DivideBack(m, BreachNumber(o));
      } else if m > 0.0 {
        DivideBack(BreachNumber(o), m);
      }
    }
  }

  lemma DivideBack(x: real, y: real)
    requires y > 0.0
    ensures x / y * y == x
  {}
}
