/** What is measured of an objective, said of the samples, amounts and costs that it has gathered. */
module Measures {
  import opened Types
  import opened Doubles
  import opened SampleWindows
  import opened Percentiles
  import opened Trends
  import opened Budgets
  import opened Decisions
  import opened Binding
  import opened Accumulators
  import opened Lives
  import opened Hysteresis

  // ----- Totals and counts, from the oldest sample on -----

  function Total(samples: seq<Sample>): real {
    if samples == [] then 0.0 else samples[0].value + Total(samples[1..])
  }

  function TotalCost(items: seq<CostItem>): real {
    if items == [] then 0.0 else items[0].cost + TotalCost(items[1..])
  }

  /** How many samples are at most `x`. */
  function Within(samples: seq<Sample>, x: real): (n: nat)
    ensures n <= |samples|
  {
    if samples == [] then 0 else (if samples[0].value <= x then 1 else 0) + Within(samples[1..], x)
  }

  lemma {:induction false} TotalSnoc(samples: seq<Sample>)
    requires samples != []
    ensures Total(samples) == Total(samples[..|samples| - 1]) + samples[|samples| - 1].value
  {
    if |samples| > 1 {
      var rest := samples[1..];
      TotalSnoc(rest);
      assert rest[..|rest| - 1] == samples[..|samples| - 1][1..];
    } else {
      assert samples[1..] == samples[..0] == [];
    }
  }

  lemma {:induction false} SumIsTotal(samples: seq<Sample>)
    ensures Sum(Values(samples)) == Total(samples)
  {
    if samples != [] {
      var past := samples[..|samples| - 1];
      SumIsTotal(past);
      TotalSnoc(samples);
      assert Values(samples)[..|past|] == Values(past);
    }
  }

  lemma {:induction false} WithinSnoc(samples: seq<Sample>, x: real)
    requires samples != []
    ensures Within(samples, x) == Within(samples[..|samples| - 1], x) + if samples[|samples| - 1].value <= x then 1 else 0
  {
    if |samples| > 1 {
      var rest := samples[1..];
      WithinSnoc(rest, x);
      assert rest[..|rest| - 1] == samples[..|samples| - 1][1..];
    } else {
      assert samples[1..] == samples[..0] == [];
    }
  }

  lemma {:induction false} WithinIsAtMost(samples: seq<Sample>, x: real)
    ensures Within(samples, x) == Percentiles.AtMost(Values(samples), x)
  {
    if samples != [] {
      var past, last := samples[..|samples| - 1], samples[|samples| - 1];
      WithinIsAtMost(past, x);
      WithinSnoc(samples, x);
      AtMostConcat(Values(past), [last.value], x);
    }
  }

  lemma {:induction false} CostSumIsTotal(items: seq<CostItem>)
    ensures CostSum(items) == TotalCost(items)
  {
    if items != [] {
      var past := items[..|items| - 1];
      CostSumIsTotal(past);
      TotalCostSnoc(items);
    }
  }

  lemma {:induction false} TotalCostSnoc(items: seq<CostItem>)
    requires items != []
    ensures TotalCost(items) == TotalCost(items[..|items| - 1]) + items[|items| - 1].cost
  {
    if |items| > 1 {
      var rest := items[1..];
      TotalCostSnoc(rest);
      assert rest[..|rest| - 1] == items[..|items| - 1][1..];
    } else {
      assert items[1..] == items[..0] == [];
    }
  }

  lemma {:induction false} ValuesAt(samples: seq<Sample>, i: nat)
    requires i < |samples|
    ensures Values(samples)[i] == samples[i].value
  {
    if i < |samples| - 1 {
      ValuesAt(samples[..|samples| - 1], i);
    }
  }

  // ----- Aggregates -----

  lemma MeanIsShare(samples: seq<Sample>, mean: real)
    requires samples != [] && mean == Mean(Values(samples))
    ensures IsMean(mean, |samples|, Total(samples))
  {
    SumIsTotal(samples);
    SharesAddUp(Total(samples), |samples| as real, mean);
  }

  lemma SharesAddUp(total: real, n: real, mean: real)
    requires n > 0.0 && mean == total / n
    ensures mean * n == total
  {}

  /** `n` times the mean is the total. */
  predicate IsMean(mean: real, n: nat, total: real) {
    mean * n as real == total
  }

  lemma LargestExceeds(samples: seq<Sample>, x: real)
    requires samples != []
    ensures Largest(Values(samples)) > x <==> exists i {:trigger samples[i]} :: 0 <= i < |samples| && samples[i].value > x
  {
    var v := Values(samples);
    ExtremesBound(v);
    forall i | 0 <= i < |samples| ensures v[i] == samples[i].value {
      ValuesAt(samples, i);
    }
    var k :| 0 <= k < |v| && v[k] == Largest(v);
    assert samples[k].value == Largest(v);
  }

  lemma SmallestFallsBelow(samples: seq<Sample>, x: real)
    requires samples != []
    ensures Smallest(Values(samples)) < x <==> exists i {:trigger samples[i]} :: 0 <= i < |samples| && samples[i].value < x
  {
    var v := Values(samples);
    ExtremesBound(v);
    forall i | 0 <= i < |samples| ensures v[i] == samples[i].value {
      ValuesAt(samples, i);
    }
    var k :| 0 <= k < |v| && v[k] == Smallest(v);
    assert samples[k].value == Smallest(v);
  }

  /** Fewer than the share `p` of the values are at most `x`. */
  predicate FewAtMost(v: seq<real>, p: real, x: real) {
    Percentiles.AtMost(v, x) as real < p * (|v| as real)
  }

  /** The percentile of rank `p` exceeds `x` exactly when fewer than the share `p` of the values are at
      most `x`. */
  lemma PercentileExceeds(v: seq<real>, p: real, x: real)
    requires v != [] && 0.0 < p <= 1.0
    ensures Quantile(v, p) > x <==> FewAtMost(v, p, x)
  {
    QuantileIsLeast(v, p, x);
    RankIsShare(v, p, x);
  }

  lemma RankIsShare(v: seq<real>, p: real, x: real)
    ensures Percentiles.AtMost(v, x) >= Ceiling(p * (|v| as real)) <==> !FewAtMost(v, p, x)
  {
    RankNeeded(p * (|v| as real), Percentiles.AtMost(v, x));
  }

  lemma RankNeeded(product: real, k: nat)
    ensures k >= Ceiling(product) <==> k as real >= product
  {}

  // ----- What there is enough evidence for -----

  /** There is enough to measure: for each dimension, by what it has gathered. */
  predicate Measurable(acc: Accumulator) {
    var o, n := acc.def, |acc.window.samples|;
    match o.dim
    case Availability => if acc.account.mode.ByTime? then acc.account.eligibleTime > 0 else acc.account.eligible > 0
    case RecoveryTime => true
    case Cost => if o.kind.CostWindowBudget? then |acc.cost| > 0 else n > 0 && 0 <= o.minEvidence <= n
    case Latency => n > 0 && o.minEvidence <= n && (o.kind.LatencyPercentile? ==> RealOf(o.percentileRank) > 0.0)
    case _ => n > 0 && o.minEvidence <= n
  }

  lemma MeasurableExactly(acc: Accumulator, now: int)
    ensures Measure(acc, now).Some? <==> Measurable(acc)
  {
    if acc.window.samples != [] {
      SufficientExactly(acc.window.samples, RealOf(acc.def.percentileRank));
    }
  }

  lemma SufficientExactly(samples: seq<Sample>, p: real)
    requires samples != []
    ensures QuantileSufficient(Values(samples), p) <==> p > 0.0
  {
    NotNegative(p, |samples| as real);
    assert Ceiling(p * (|samples| as real)) >= 1 <==> p * (|samples| as real) > 0.0;
  }

  // ----- What the measurement means -----

  /** The kinds that are measured by a mean. */
  predicate ByMean(o: Objective) {
    o.dim.Throughput? || (o.dim.Latency? && o.kind.LatencyMean?) || (o.dim.Cost? && !o.kind.CostWindowBudget?)
  }

  /** The kinds that are measured by their worst sample where less is better: deadlines and pressure. */
  predicate ByMaximum(o: Objective) {
    || (o.dim.Latency? && !o.kind.LatencyMean? && !o.kind.LatencyPercentile?)
    || (o.dim.MemoryPressure? && !o.kind.MemoryMinHeadroom?)
  }

  /** `m` is the measurement of what has been gathered, as far as a comparison with `x` can tell. */
  ghost predicate Means(acc: Accumulator, now: int, m: real, x: real) {
    var o, samples, a := acc.def, acc.window.samples, acc.account;
    && (ByMean(o) ==> IsMean(m, |samples|, Total(samples)))
    && (ByMaximum(o) ==> (m > x <==> exists i {:trigger samples[i]} :: 0 <= i < |samples| && samples[i].value > x))
    && (o.dim.MemoryPressure? && o.kind.MemoryMinHeadroom? ==>
          (m < x <==> exists i {:trigger samples[i]} :: 0 <= i < |samples| && samples[i].value < x))
    && (o.dim.Latency? && o.kind.LatencyPercentile? ==>
          var p := RealOf(o.percentileRank);
          (m > x <==> FewAtMost(Values(samples), if p > 1.0 then 1.0 else p, x)))
    && (o.dim.Availability? && a.mode.ByTime? ==> m * a.eligibleTime as real == 10000.0 * a.servingTime as real)
    && (o.dim.Availability? && a.mode.ByRequests? ==> m * a.eligible as real == 10000.0 * a.successful as real)
    && (o.dim.Cost? && o.kind.CostWindowBudget? ==> m == TotalCost(acc.cost))
    && (o.dim.RecoveryTime? ==> m == acc.recovery.Lasted(now) as real)
  }

  /** Something is measured exactly when there is enough to measure, and then it is what it should be:
      for every dimension and kind, and against every number. */
  lemma MeasureMeans(acc: Accumulator, now: int, x: real)
    ensures Measure(acc, now).Some? <==> Measurable(acc)
    ensures Measurable(acc) ==> Means(acc, now, Measure(acc, now).value, x)
  {
    MeasurableExactly(acc, now);
    if Measurable(acc) {
      match acc.def.dim
      case Availability => AvailabilityMeans(acc.account);
      case RecoveryTime =>
      case Cost => CostMeans(acc, now, x);
      case _ => SamplesMean(acc, now, x);
    }
  }

  lemma AvailabilityMeans(a: Account)
    requires a.HasDenominator()
    ensures a.mode.ByTime? ==> a.Ratio() * 10000.0 * a.eligibleTime as real == 10000.0 * a.servingTime as real
    ensures a.mode.ByRequests? ==> a.Ratio() * 10000.0 * a.eligible as real == 10000.0 * a.successful as real
  {
    if a.mode.ByTime? {
      RatioBack(a.servingTime as real, a.eligibleTime as real);
    } else {
      RatioBack(a.successful as real, a.eligible as real);
    }
  }

  lemma RatioBack(x: real, y: real)
    requires y > 0.0
    ensures x / y * 10000.0 * y == 10000.0 * x
  {
    var q := x / y;
    assert q * y == x;
    assert q * 10000.0 * y == 10000.0 * (q * y);
  }

  lemma CostMeans(acc: Accumulator, now: int, x: real)
    requires acc.def.dim.Cost? && Measurable(acc) && Measure(acc, now).Some?
    ensures Means(acc, now, Measure(acc, now).value, x)
  {
    CostSumIsTotal(acc.cost);
    if !acc.def.kind.CostWindowBudget? {
      MeanIsShare(acc.window.samples, Mean(Values(acc.window.samples)));
    }
  }

  lemma SamplesMean(acc: Accumulator, now: int, x: real)
    requires UsesWindow(acc.def.dim) && Measurable(acc) && Measure(acc, now).Some?
    ensures Means(acc, now, Measure(acc, now).value, x)
  {
    var samples := acc.window.samples;
    if ByMean(acc.def) {
      MeanIsShare(samples, Mean(Values(samples)));
    } else if ByMaximum(acc.def) {
      LargestExceeds(samples, x);
    } else if acc.def.dim.MemoryPressure? {
      SmallestFallsBelow(samples, x);
    } else {
      var p := RealOf(acc.def.percentileRank);
      RankCapped(p, |samples|);
      PercentileExceeds(Values(samples), if p > 1.0 then 1.0 else p, x);
    }
  }

  // ----- Freshness -----

  /** `t` is the time of a sample, and no sample is later. */
  ghost predicate NewestAt(samples: seq<Sample>, t: int) {
    && (exists i {:trigger samples[i]} :: 0 <= i < |samples| && samples[i].time == t)
    && forall i {:trigger samples[i]} :: 0 <= i < |samples| ==> samples[i].time <= t
  }

  /** By the age of its newest sample, a window objective has stale evidence exactly when that sample is from
      the future, or older than the freshness limit; where no limit is set, when it is as old as the
      window's length, if that is positive. */
  lemma FreshnessByAge(acc: Accumulator, now: int, t: int)
    requires WindowSound(acc) && UsesWindow(acc.def.dim) && NewestAt(acc.window.samples, t)
    ensures FreshnessOf(acc, now) ==
      if now < t || (if acc.def.freshnessTtl > 0 then now - t > acc.def.freshnessTtl
                     else acc.def.windowDuration > 0 && now - t >= acc.def.windowDuration)
      then StaleEvidence else Current
  {
    NewestIsLast(acc.window, t);
  }

  lemma NewestIsLast(w: Window, t: int)
    requires Reached(w) && NewestAt(w.samples, t)
    ensures w.samples != [] && w.samples[|w.samples| - 1].time == t
  {
    var h :| Holds(w, h);
    HeldIsOrdered(w, h);
    var i :| 0 <= i < |w.samples| && w.samples[i].time == t;
    if i < |w.samples| - 1 {
      OrderedPair(w.samples, i, |w.samples| - 1);
    }
  }

  /** Evidence is missing altogether exactly when there are no samples, no eligible amount or no costs; only
      window objectives have stale evidence. */
  lemma FreshnessExpires(acc: Accumulator, now: int)
    ensures FreshnessOf(acc, now).ExpiredEvidence? <==>
      || (UsesWindow(acc.def.dim) && acc.window.samples == [])
      || (acc.def.dim.Availability? && (if acc.account.mode.ByTime? then acc.account.eligibleTime else acc.account.eligible) <= 0)
      || (acc.def.dim.Cost? && acc.cost == [])
    ensures FreshnessOf(acc, now).StaleEvidence? ==> UsesWindow(acc.def.dim)
  {}

  /** A cost objective has usable evidence exactly when the list of costs has an item, and for costs per
      request or per token also enough samples. */
  lemma CostDecidedExactly(acc: Accumulator, now: I64)
    requires acc.def.dim.Cost?
    ensures Observe(acc, now).Usable? <==>
      && acc.cost != []
      && (acc.def.kind.CostWindowBudget?
          || (acc.window.samples != [] && 0 <= acc.def.minEvidence <= |acc.window.samples|))
  {
    MeasurableExactly(acc, now);
  }

  // ----- Predictions -----

  /** Costs over the whole window would come to more than `limit` at the pace so far, multiplied out. */
  predicate Outspends(o: Objective, items: seq<CostItem>, now: int, limit: real)
    requires items != []
  {
    var window := if o.windowDuration > 1 then o.windowDuration else 1;
    if now > items[0].time then TotalCost(items) * window as real > limit * (now - items[0].time) as real
    else TotalCost(items) > limit
  }

  lemma PaceExceeds(o: Objective, items: seq<CostItem>, now: int, limit: real)
    requires items != []
    ensures CostSum(items) / Pace(o, items[0].time, now) > limit <==> Outspends(o, items, now, limit)
  {
    CostSumIsTotal(items);
    PaceOf(o, items[0].time, now, TotalCost(items), limit);
  }

  lemma PaceOf(o: Objective, first: int, now: int, total: real, limit: real)
    ensures total / Pace(o, first, now) > limit <==>
      if now > first then total * (if o.windowDuration > 1 then o.windowDuration else 1) as real > limit * (now - first) as real
      else total > limit
  {
    var window := if o.windowDuration > 1 then o.windowDuration else 1;
    if now > first {
      PaceScaled(total, (now - first) as real, window as real, limit, Pace(o, first, now));
    }
  }

  lemma PaceScaled(total: real, e: real, w: real, limit: real, f: real)
    requires e > 0.0 && w > 0.0 && f == e / w && f > 0.0
    ensures total / f > limit <==> total * w > limit * e
  {
    assert f * w == e;
    QuotientAbove(total, f, limit);
    ScaledOrder(total, limit * f, w);
    FactorOut(limit, f, w);
  }

  lemma QuotientAbove(total: real, f: real, limit: real)
    requires f > 0.0
    ensures total / f > limit <==> total > limit * f
  {
    var q := total / f;
    assert q * f == total;
    ScaledOrder(q, limit, f);
  }

  lemma FactorOut(q: real, f: real, w: real)
    ensures q * f * w == q * (f * w)
  {}

  /** What is predicted for an objective: for a cost budget by the pace of the costs, for an at-most latency or
      pressure objective by the trend of its samples towards the breach threshold, and nothing otherwise. */
  lemma PredictionExactly(o: Objective, acc: Accumulator, now: int, m: real, c: real, d: real)
    requires var s := acc.window.samples; s != [] ==> c == Covariance(s, s[0].time) && d == Dispersion(s, s[0].time)
    ensures var risk, target := PredictRisk(o, acc, now, m), NumberOf(o.target);
      if o.dim.Cost? && o.kind.CostWindowBudget? then
        && (risk == High <==> acc.cost != [] && Outspends(o, acc.cost, now, target * 1.5))
        && (risk == Elevated <==>
              acc.cost != [] && Outspends(o, acc.cost, now, target) && !Outspends(o, acc.cost, now, target * 1.5))
      else if (o.dim.Latency? || o.dim.MemoryPressure?) && o.comparison.AtMost? then
        var rises := |acc.window.samples| >= 4;
        && (risk == High <==> rises && Projects(c, d, o.windowDuration, m, BreachNumber(o) * 1.5))
        && (risk == Elevated <==>
              && rises && Projects(c, d, o.windowDuration, m, BreachNumber(o))
              && !Projects(c, d, o.windowDuration, m, BreachNumber(o) * 1.5))
      else risk == NoRisk
  {
    if o.dim.Cost? && o.kind.CostWindowBudget? {
      if acc.cost != [] {
        PaceExceeds(o, acc.cost, now, NumberOf(o.target));
        PaceExceeds(o, acc.cost, now, NumberOf(o.target) * 1.5);
      }
    } else if acc.window.samples != [] {
      RiskExactly(acc.window.samples, o.windowDuration, m, BreachNumber(o), c, d);
    }
  }

  // ----- Judgements -----

  /** Nothing is left of the budget, once its window has been rolled over if it has passed. */
  predicate SpentAt(budget: Option<Budget>, now: int) {
    && budget.Some?
    && var b := budget.value;
       var consumed := if b.window > 0 && now - b.start >= b.window then 0 else b.consumed;
       b.total == 0 || b.total <= consumed
  }

  /** An evaluation sees usable evidence exactly when there is enough to measure and it is current. */
  lemma ObservedExactly(acc: Accumulator, now: I64)
    ensures Observe(acc, now).Usable? <==> Measurable(acc) && FreshnessOf(acc, now).Current?
    ensures Observe(acc, now).Usable? ==> Observe(acc, now) == Usable(Measure(acc, now).value, SpentAt(acc.budget, now))
    ensures Observe(acc, now).Unusable? ==> (Observe(acc, now).stale <==> FreshnessOf(acc, now).StaleEvidence?)
  {
    MeasurableExactly(acc, now);
  }

  /** The state of an objective that measures `m`: beyond the breach threshold it violates; inside, it is
      compliant, unless its budget is spent; in between, a violation lasts. */
  function StateByNumbers(o: Objective, m: real, spent: bool, last: ComplianceState): ComplianceState {
    if Beyond(o, m) then Violating
    else if Inside(o, m) then (if spent then NearLimit else Compliant)
    else if last.Violating? || last.Recovering? then last
    else NearLimit
  }

  /** The judgement on an objective with usable evidence. */
  lemma JudgedByNumbers(acc: Accumulator, o: Objective, now: I64, m: real)
    requires Measurable(acc) && FreshnessOf(acc, now).Current? && Measure(acc, now) == Some(m)
    ensures var j := JudgementOn(acc, o, now);
      && j.objective == o && j.state == StateByNumbers(o, m, SpentAt(acc.budget, now), acc.lastState)
      && j.rank == SeverityRank(j.state) && MagnitudeFits(o, m, j.magnitude)
      && j.risk == PredictRisk(o, acc, now, m) && j.freshness.Current?
  {
    ObservedExactly(acc, now);
    var j := UsableJudgement(acc, o, now, m, SpentAt(acc.budget, now));
    JudgeByNumbers(o, acc.lastState, m, SpentAt(acc.budget, now), PredictRisk(o, acc, now, m), j.budgetState, j.burn);
  }

  lemma UsableJudgement(acc: Accumulator, o: Objective, now: I64, m: real, spent: bool) returns (j: Judgement)
    requires Observe(acc, now) == Usable(m, spent)
    ensures j == JudgementOn(acc, o, now)
    ensures j == Judge(o, acc.lastState, m, spent, PredictRisk(o, acc, now, m), j.budgetState, j.burn)
  {
    j := JudgementOn(acc, o, now);
  }

  lemma JudgeByNumbers(o: Objective, last: ComplianceState, m: real, spent: bool, risk: Risk,
                       bs: Option<BudgetState>, burn: Option<BurnRate>)
    ensures var j := Judge(o, last, m, spent, risk, bs, burn);
      && j.objective == o && j.state == StateByNumbers(o, m, spent, last)
      && j.rank == SeverityRank(j.state) && MagnitudeFits(o, m, j.magnitude) && j.risk == risk && j.freshness.Current?
  {
    SteppedByNumbers(o, last, m, spent);
    MagnitudeByNumbers(o, m);
  }

  lemma SteppedByNumbers(o: Objective, last: ComplianceState, m: real, spent: bool)
    ensures NextState(LimitsOf(o), last, Usable(m, spent)) == StateByNumbers(o, m, spent, last)
  {
    ZoneByNumbers(o, m);
  }

  /** The judgement on an objective without usable evidence. */
  lemma JudgedWithout(acc: Accumulator, o: Objective, now: I64)
    requires !Measurable(acc) || !FreshnessOf(acc, now).Current?
    ensures var j := JudgementOn(acc, o, now);
      && j.objective == o && j.risk.NoRisk? && j.freshness == FreshnessOf(acc, now)
      && j.state == if FreshnessOf(acc, now).StaleEvidence? then RevalidationRequired else InsufficientEvidence
  {
    ObservedExactly(acc, now);
  }

  /** What a judgement says of the budget, as it is after rolling over: a window that has passed starts anew
      with nothing consumed. */
  lemma JudgedBudget(acc: Accumulator, o: Objective, now: I64, b: Budget)
    requires acc.budget.Some?
    requires b == if acc.budget.value.window > 0 && now - acc.budget.value.start >= acc.budget.value.window
                  then Budget(acc.budget.value.total, 0, acc.budget.value.window, now) else acc.budget.value
    ensures Assessed(acc, o, now).budget == Some(b)
    ensures b.consumed >= 0 ==>
      var state := JudgementOn(acc, o, now).budgetState;
      && state.Some? && (state.value == Healthy <==> 10 * b.consumed < 9 * b.total)
      && (state.value == Exhausted <==> b.total <= b.consumed)
    ensures var burn := JudgementOn(acc, o, now).burn;
      && burn.Some? && (burn.value == NormalBurn <==> BurnsWithin(b, now, 1) && BurnsWithin(b, now, 2))
      && (burn.value == CriticalBurn <==> !BurnsWithin(b, now, 2))
  {
    BurnClassExactly(b, now);
    if b.consumed >= 0 {
      StateExactly(b);
    }
    ReportedBudget(acc, o, now);
  }

  lemma ReportedBudget(acc: Accumulator, o: Objective, now: I64)
    ensures var b, j := RolledSlot(acc.budget, now), JudgementOn(acc, o, now);
      && j.budgetState == (if b.Some? then Some(b.value.State()) else None)
      && j.burn == (if b.Some? then Some(b.value.ClassifyBurn(now)) else None)
  {}
}
