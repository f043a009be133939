/** From a measured value to a compliance state: thresholds, zones and hysteresis. */
module Decisions {
  import opened Types
  import opened Doubles

  /** The thresholds of one objective as bare numbers. `cap` is the largest value its unit allows,
      or zero where there is none. */
  datatype Limits = Limits(comparison: Comparison, breach: real, recovery: real, cap: real)

  function PhysicalMax(v: Value): real {
    match v
    case BasisPoints(_) => 10000.0
    case Percentage(_) => 100.0
    case PressureRatio(_) => 1000000.0
    case _ => 0.0
  }

  function LimitsOf(o: Objective): Limits {
    Limits(
      o.comparison,
      NumberOf(if o.breach.Some? then o.breach.value else o.target),
      NumberOf(if o.recovery.Some? then o.recovery.value else o.target),
      PhysicalMax(o.target))
  }

  datatype Zone = Violation | Near | Clear

  const EPSILON: real := 0.000000001
  const MARGIN: real := 0.05

  function ClassifyZone(l: Limits, m: real): Zone {
    match l.comparison
    case AtMost =>
      if m > l.breach + EPSILON then Violation
      else if l.breach != l.recovery then (if m > l.recovery + EPSILON then Near else Clear)
      else if m > l.breach * (1.0 - MARGIN) then Near
      else Clear
    case AtLeast =>
      if m < l.breach - EPSILON then Violation
      else if l.breach != l.recovery then (if m < l.recovery - EPSILON then Near else Clear)
      else if m < l.breach * (1.0 + MARGIN) && (l.cap <= 0.0 || m < l.cap) then Near
      else Clear
  }

  function StepState(l: Limits, m: real, last: ComplianceState): ComplianceState {
    match ClassifyZone(l, m)
    case Violation => Violating
    case Clear => Compliant
    case Near => if last.Violating? || last.Recovering? then last else NearLimit
  }

  /** `worse` is at least as far on the wrong side as `m`. */
  predicate NoBetter(l: Limits, m: real, worse: real) {
    match l.comparison
    case AtMost => m <= worse
    case AtLeast => worse <= m
  }

  function ZoneRank(z: Zone): int {
    match z
    case Violation => 0
    case Near => 1
    case Clear => 2
  }

  /** A worse measurement never lands in a better zone. */
  lemma WorseZone(l: Limits, m: real, worse: real)
    requires NoBetter(l, m, worse)
    ensures ZoneRank(ClassifyZone(l, worse)) <= ZoneRank(ClassifyZone(l, m))
  {}

  // ----- Hysteresis over runs of evaluations -----

  /** What one evaluation sees of an objective. */
  datatype Observation =
    | Usable(measured: real, exhausted: bool)
    | Unusable(stale: bool)

  function NextState(l: Limits, last: ComplianceState, seen: Observation): ComplianceState {
    match seen
    case Unusable(stale) => if stale then RevalidationRequired else InsufficientEvidence
    case Usable(m, exhausted) =>
      var state := StepState(l, m, last);
      if exhausted && state.Compliant? then NearLimit else state
  }

  function StateAfter(l: Limits, start: ComplianceState, seen: seq<Observation>): ComplianceState {
    if seen == [] then start
    else NextState(l, StateAfter(l, start, seen[..|seen| - 1]), seen[|seen| - 1])
  }

  predicate Breaches(l: Limits, seen: Observation) {
    seen.Usable? && ClassifyZone(l, seen.measured).Violation?
  }

  predicate Clears(l: Limits, seen: Observation) {
    seen.Usable? && ClassifyZone(l, seen.measured).Clear?
  }

  /** Evaluation `i` breached, and no later one had unusable evidence or fell in the clear zone. */
  ghost predicate LatchedSince(l: Limits, seen: seq<Observation>, i: nat) {
    && i < |seen| && Breaches(l, seen[i])
    && forall j {:trigger seen[j]} :: i < j < |seen| ==> seen[j].Usable? && !Clears(l, seen[j])
  }

  ghost predicate Latched(l: Limits, seen: seq<Observation>) {
    exists i: nat :: LatchedSince(l, seen, i)
  }

  lemma LatchStep(l: Limits, past: seq<Observation>, o: Observation, seen: seq<Observation>)
    requires seen == past + [o]
    ensures Latched(l, seen) <==> Breaches(l, o) || (o.Usable? && !Clears(l, o) && Latched(l, past))
  {
    if Breaches(l, o) {
      assert LatchedSince(l, seen, |past|);
    }
    if o.Usable? && !Clears(l, o) && Latched(l, past) {
      var i: nat :| LatchedSince(l, past, i);
      assert LatchedSince(l, seen, i);
    }
    if Latched(l, seen) && !Breaches(l, o) {
      var i: nat :| LatchedSince(l, seen, i);
      assert seen[|past|] == o;
      assert forall j :: 0 <= j < |past| ==> seen[j] == past[j];
      assert LatchedSince(l, past, i);
    }
  }

  /** From a start that is not latched, an objective is Violating exactly when some evaluation
      breached and since then every one had usable evidence and none was in the clear zone. This is
      for both comparison directions and any thresholds. */
  lemma {:induction false} ViolatingExactly(l: Limits, start: ComplianceState, seen: seq<Observation>)
    requires !start.Violating? && !start.Recovering?
    ensures StateAfter(l, start, seen).Violating? <==> Latched(l, seen)
    ensures !StateAfter(l, start, seen).Recovering?
  {
    if seen != [] {
      var past, o := seen[..|seen| - 1], seen[|seen| - 1];
      ViolatingExactly(l, start, past);
      LatchStep(l, past, o, seen);
    }
  }

  /** With usable evidence throughout, the latch holds from the last breach to the first clear
      evaluation after it. */
  lemma ViolatingWhileUsable(l: Limits, start: ComplianceState, seen: seq<Observation>)
    requires !start.Violating? && !start.Recovering?
    requires forall j {:trigger seen[j]} :: 0 <= j < |seen| ==> seen[j].Usable?
    ensures StateAfter(l, start, seen).Violating?
      <==> exists i: nat :: i < |seen| && Breaches(l, seen[i])
                            && forall j {:trigger seen[j]} :: i < j < |seen| ==> !Clears(l, seen[j])
  {
    ViolatingExactly(l, start, seen);
    if i: nat :| i < |seen| && Breaches(l, seen[i])
                 && forall j {:trigger seen[j]} :: i < j < |seen| ==> !Clears(l, seen[j])
    {
      assert LatchedSince(l, seen, i);
    }
    if Latched(l, seen) {
      var i: nat :| LatchedSince(l, seen, i);
      assert Breaches(l, seen[i]);
    }
  }

  /** The states other than Violating, by the last evaluation alone. */
  lemma OtherStates(l: Limits, start: ComplianceState, seen: seq<Observation>)
    requires !start.Violating? && !start.Recovering? && seen != []
    ensures var o, state := seen[|seen| - 1], StateAfter(l, start, seen);
      && (state.Compliant? <==> Clears(l, o) && !o.exhausted)
      && (state.RevalidationRequired? <==> o.Unusable? && o.stale)
      && (state.InsufficientEvidence? <==> o.Unusable? && !o.stale)
      && (state.NearLimit? <==> o.Usable? && !Latched(l, seen) && !(Clears(l, o) && !o.exhausted))
  {
    ViolatingExactly(l, start, seen);
    ViolatingExactly(l, start, seen[..|seen| - 1]);
  }

  // ----- Ranking -----

  function SeverityRank(s: ComplianceState): int {
    match s
    case Violating => 0
    case Recovering => 1
    case AtRisk => 2
    case NearLimit => 3
    case Compliant => 4
    case InsufficientEvidence => 5
    case RevalidationRequired => 6
    case ContractSuspended => 7
  }

  function SeverityMagnitude(l: Limits, m: real): real {
    if l.breach <= 0.0 then 0.0
    else if l.comparison.AtMost? then m / l.breach
    else l.breach / (if m > 0.0 then m else 1.0)
  }

  function ActionFor(dim: Dimension, state: ComplianceState): EnforcementAction {
    if state.Violating? || state.Recovering? then
      match dim
      case Latency => IncreaseCapacity
      case Availability => Replicate
      case Throughput => IncreaseCapacity
      case RecoveryTime => Failover
      case MemoryPressure => ReclaimMemory
      case Cost => ManualInterventionRequired
    else if state.AtRisk? || state.NearLimit? then
      match dim
      case Latency => PromoteWarmCapacity
      case Availability => Replicate
      case Throughput => IncreaseBatchSize
      case RecoveryTime => ReplanRecovery
      case MemoryPressure => ReduceResidency
      case Cost => ManualInterventionRequired
    else NoAction
  }

  /** An action is called for exactly where there is something to act on. */
  lemma ActionExactly(dim: Dimension, state: ComplianceState)
    ensures ActionFor(dim, state).NoAction? <==>
      state.Compliant? || state.InsufficientEvidence? || state.RevalidationRequired? || state.ContractSuspended?
  {}

  /** A worse measurement, from the same history, ranks no later. */
  lemma WorseRank(l: Limits, last: ComplianceState, m: real, worse: real, exhausted: bool)
    requires NoBetter(l, m, worse)
    ensures SeverityRank(NextState(l, last, Usable(worse, exhausted)))
         <= SeverityRank(NextState(l, last, Usable(m, exhausted)))
  {
    WorseZone(l, m, worse);
  }

  /** The measurements for which ranking by magnitude goes the right way: an at-least objective that
      falls from strictly between zero and one to zero or below is ranked as if it measured one. */
  predicate RanksRight(l: Limits, m: real, worse: real) {
    l.comparison.AtMost? || l.breach <= 0.0 || worse > 0.0 || m <= 0.0 || m >= 1.0
  }

  /** A worse measurement has no smaller magnitude exactly where ranking goes the right way. */
  lemma WorseMagnitude(l: Limits, m: real, worse: real)
    requires NoBetter(l, m, worse)
    ensures SeverityMagnitude(l, m) <= SeverityMagnitude(l, worse) <==> RanksRight(l, m, worse)
  {
    if l.breach > 0.0 {
      if l.comparison.AtMost? {
        DivideOrder(m, worse, l.breach);
      } else {
        QuotientOrder(l.breach, if m > 0.0 then m else 1.0, if worse > 0.0 then worse else 1.0);
      }
    }
  }

  /** The zones of an at-least objective are open above: from every measurement below one there is a
      better one below one in the same zone. */
  function SlightlyBetter(l: Limits, m: real): real {
    var bound :=
      match ClassifyZone(l, m)
      case Violation => l.breach - EPSILON
      case Near =>
        if l.breach != l.recovery then l.recovery - EPSILON
        else if l.cap <= 0.0 || l.breach * (1.0 + MARGIN) < l.cap then l.breach * (1.0 + MARGIN)
        else l.cap
      case Clear => 1.0;
    (m + if bound < 1.0 then bound else 1.0) / 2.0
  }

  lemma SlightlyBetterStays(l: Limits, m: real)
    requires l.comparison.AtLeast? && m < 1.0
    ensures m < SlightlyBetter(l, m) < 1.0 && ClassifyZone(l, SlightlyBetter(l, m)) == ClassifyZone(l, m)
  {}

  /** A positive number divided by a larger one is smaller. */
  lemma QuotientOrder(b: real, x: real, y: real)
    requires b > 0.0 && x > 0.0 && y > 0.0
    ensures b / x <= b / y <==> y <= x
  {
    var p, q := b / x, b / y;
    assert p * x == b && q * y == b;
    assert p > 0.0 && q > 0.0;
    QuotientGap(b, x, y, p, q);
  }

  lemma QuotientGap(b: real, x: real, y: real, p: real, q: real)
    requires x > 0.0 && y > 0.0 && p > 0.0 && q > 0.0 && p * x == b && q * y == b
    ensures p <= q <==> y <= x
  {
    assert p * (x - y) == (q - p) * y;
    if y <= x {
      assert p * (x - y) >= 0.0;
      NotNegative(q - p, y);
    } else {
      assert p * (y - x) > 0.0;
      assert (p - q) * y == p * (y - x);
      NotNegative(p - q, y);
    }
  }

  /** The sign of a product with a positive factor is the sign of the other. */
  lemma NotNegative(d: real, y: real)
    requires y > 0.0
    ensures d * y >= 0.0 <==> d >= 0.0
    ensures d * y > 0.0 <==> d > 0.0
  {
    if d > 0.0 {
      assert d * y > 0.0;
    } else if d < 0.0 {
      assert (-d) * y > 0.0;
    }
  }

  lemma DivideOrder(a: real, b: real, d: real)
    requires d > 0.0 && a <= b
    ensures a / d <= b / d
  {
    var c := (b - a) / d;
    assert c * d == b - a;
    assert c >= 0.0;
    assert b / d == a / d + c;
  }
}
