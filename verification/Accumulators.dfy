/** What the fabric has gathered about one objective, and how it is measured and judged. */
module Accumulators {
  import opened Types
  import opened Doubles
  import opened SampleWindows
  import opened Percentiles
  import opened Trends
  import opened Budgets
  import opened Decisions
  import opened Binding

  datatype Status =
    | Ok | InvalidInput | StaleAuthority | StaleSample | UnitMismatch | ContractInactive | PolicySuperseded
    | ObjectiveInvalid | Cancelled | NotFound

  /** The parts of an evidence record that the engine reads. */
  datatype Evidence = Evidence(
    id: U64, dimension: Dimension, objectiveId: U64, objectiveGen: U64, epoch: U64,
    time: I64, sampleCount: I64, value: Value)

  datatype Account = Account(
    mode: AvailabilityMode, eligibleTime: int, servingTime: int, eligible: int, successful: int)
  {
    predicate HasDenominator() {
      if mode.ByTime? then eligibleTime > 0 else eligible > 0
    }

    function Ratio(): real {
      if mode.ByTime? then (if eligibleTime <= 0 then 0.0 else servingTime as real / eligibleTime as real)
      else if eligible <= 0 then 0.0
      else successful as real / eligible as real
    }
  }

  datatype CostItem = CostItem(time: int, cost: real)

  const COST_CAPACITY: nat := 4096
  const RECENT_CAPACITY: nat := 4096

  datatype Phase = Observed | Authoritative | Initiated | Restored | Verified

  datatype Recovery = Recovery(
    observed: bool, authoritative: bool, initiated: bool, restored: bool, verified: bool,
    authoritativeAt: int, restoredAt: int, verifiedAt: int)
  {
    function Lasted(now: int): int {
      if !authoritative then 0
      else (if verified then verifiedAt else if restored then restoredAt else now) - authoritativeAt
    }

    function Reach(phase: Phase, time: int): Recovery {
      var seen := this.(observed := true);
      match phase
      case Observed => seen
      case Authoritative => seen.(authoritative := true, authoritativeAt := time)
      case Initiated => seen.(initiated := true)
      case Restored => seen.(restored := true, restoredAt := time)
      case Verified => seen.(verified := true, verifiedAt := time)
    }
  }

  datatype Accumulator = Accumulator(
    def: Objective, window: Window, account: Account, cost: seq<CostItem>, recovery: Recovery,
    budget: Option<Budget>, lastState: ComplianceState, lastStateTime: I64, cooldownUntil: I64,
    recent: seq<U64>, recentSet: set<U64>, nextSeq: nat)

  function WindowFor(o: Objective): Window {
    Empty(o.windowType, o.windowDuration, if o.windowCount < 1 then 1 else o.windowCount)
  }

  function Fresh(o: Objective, budget: Option<Budget>): Accumulator {
    Accumulator(
      o, WindowFor(o), Account(o.availabilityMode, 0, 0, 0, 0), [],
      Recovery(false, false, false, false, false, 0, 0, 0),
      budget, InsufficientEvidence, 0, 0, [], {}, 1)
  }

  /** The accumulator for an objective: a new one, or the old one; a change of generation empties
      it of everything but its budget. */
  function Opened(slot: Option<Accumulator>, o: Objective): Accumulator {
    match slot
    case None => Fresh(o, None)
    case Some(acc) => if acc.def.gen != o.gen then Fresh(o, acc.budget) else acc
  }

  // ----- Evidence -----

  function Remember(acc: Accumulator, id: U64): Accumulator {
    if |acc.recent| >= RECENT_CAPACITY then
      acc.(recent := acc.recent[1..] + [id], recentSet := acc.recentSet - {acc.recent[0]} + {id})
    else
      acc.(recent := acc.recent + [id], recentSet := acc.recentSet + {id})
  }

  predicate UnitCompatible(o: Objective, v: Value) {
    match o.dim
    case Throughput => (
      match o.rateTag
      case RequestRate => v.RequestsPerSecond?
      case TokenRate => v.TokensPerSecond?
      case ByteRate => v.BytesPerSecond?
      case OperationRate => v.OperationsPerSecond?)
    case MemoryPressure => if o.kind.MemoryMinHeadroom? then v.ByteCount? else v.PressureRatio?
    case Cost => v.CostMicros?
    case Availability => v.BasisPoints? || v.Percentage?
    case Latency => v.Nanoseconds?
    case RecoveryTime => v.Nanoseconds?
  }

  /** A real cut to an integer toward zero. */
  function Truncated(x: real): int {
    if x >= 0.0 then x.Floor else -((-x).Floor)
  }

  function Weight(count: int): (n: nat)
    ensures n >= 1
  {
    if count < 1 then 1 else count
  }

  /** The units of its weight that evidence says were served. */
  function Share(value: real, count: int): real {
    value / 10000.0 * Weight(count) as real
  }

  function Credited(a: Account, mode: AvailabilityMode, weight: nat, served: int): Account {
    if mode.ByTime? then a.(eligibleTime := a.eligibleTime + weight, servingTime := a.servingTime + served)
    else a.(eligible := a.eligible + weight, successful := a.successful + served)
  }

  function Credit(a: Account, mode: AvailabilityMode, value: real, count: int): Account {
    Credited(a, mode, Weight(count), Truncated(Share(value, count)))
  }

  /** How many items at the front are older than the interval. */
  function Outdated(items: seq<CostItem>, now: int, interval: int): (k: nat)
    ensures k <= |items|
  {
    if items == [] || interval <= 0 || now - items[0].time <= interval then 0
    else 1 + Outdated(items[1..], now, interval)
  }

  function AddCost(items: seq<CostItem>, time: int, cost: real, interval: int): seq<CostItem> {
    var grown := items + [CostItem(time, cost)];
    LastOf(grown[Outdated(grown, time, interval)..], COST_CAPACITY)
  }

  method EvictCosts(items: seq<CostItem>, time: int, cost: real, interval: int) returns (kept: seq<CostItem>)
    ensures kept == AddCost(items, time, cost, interval)
  {
    kept := items + [CostItem(time, cost)];
    ghost var grown := kept;
    while kept != [] && interval > 0 && time - kept[0].time > interval
      invariant kept[Outdated(kept, time, interval)..] == grown[Outdated(grown, time, interval)..]
      decreases |kept|
    {
      kept := kept[1..];
    }
    ghost var young := kept;
    while |kept| > COST_CAPACITY
      invariant |kept| <= |young| && kept == young[|young| - |kept|..]
      invariant kept == young || |kept| >= COST_CAPACITY
      decreases |kept|
    {
      kept := kept[1..];
    }
  }

  function CostSum(items: seq<CostItem>): real {
    if items == [] then 0.0 else CostSum(items[..|items| - 1]) + items[|items| - 1].cost
  }

  function SampleStatus(s: IngestStatus): Status {
    match s
    case Accepted => Ok
    case Duplicate => Status.Cancelled
    case Rollback => StaleSample
    case Late => InvalidInput
    case Closed => InvalidInput
    case Invalid => InvalidInput
  }

  function PushSample(acc: Accumulator, time: int, reading: Reading): (Accumulator, IngestStatus) {
    var (w, status) := Offer(acc.window, time, reading, acc.nextSeq);
    (acc.(window := w, nextSeq := acc.nextSeq + 1), status)
  }

  /** Evidence that has passed every fence reaches its objective's accumulator. */
  function Absorb(acc: Accumulator, def: Objective, e: Evidence): (Accumulator, Status) {
    if e.id in acc.recentSet then (acc, Status.Cancelled)
    else
      var acc := Remember(acc, e.id);
      if !UnitCompatible(def, e.value) then (acc, UnitMismatch)
      else
        match e.dimension
        case RecoveryTime => (acc, InvalidInput)
        case Availability =>
          (acc.(account := Credit(acc.account, def.availabilityMode, NumberOf(e.value), e.sampleCount)), Ok)
        case Cost =>
          if def.kind.CostWindowBudget? then
            (acc.(cost := AddCost(acc.cost, e.time, NumberOf(e.value), def.windowDuration)), Ok)
          else (PushSample(acc, e.time, ReadingOf(e.value)).0, Ok)
        case _ =>
          var (acc, status) := PushSample(acc, e.time, ReadingOf(e.value));
          (acc, SampleStatus(status))
  }

  // ----- Measurement -----

  function FreshnessOf(acc: Accumulator, now: int): Freshness {
    match acc.def.dim
    case Availability => if acc.account.HasDenominator() then Current else ExpiredEvidence
    case RecoveryTime => Current
    case Cost => if acc.cost == [] then ExpiredEvidence else Current
    case _ =>
      if acc.window.samples == [] then ExpiredEvidence
      else
        var age := now - acc.window.samples[|acc.window.samples| - 1].time;
        var ttl, duration := acc.def.freshnessTtl, acc.def.windowDuration;
        if age < 0 then StaleEvidence
        else if ttl <= 0 then (if duration > 0 && age >= duration then StaleEvidence else Current)
        else if age > ttl then StaleEvidence
        else Current
  }

  /** A measured value that there is enough evidence for, or nothing. */
  function Measure(acc: Accumulator, now: int): Option<real> {
    var o, samples := acc.def, acc.window.samples;
    match o.dim
    case Availability => if acc.account.HasDenominator() then Some(acc.account.Ratio() * 10000.0) else None
    case RecoveryTime => Some(acc.recovery.Lasted(now) as real)
    case Cost =>
      if o.kind.CostWindowBudget? then (if acc.cost == [] then None else Some(CostSum(acc.cost)))
      else if samples == [] || o.minEvidence < 0 || |samples| < o.minEvidence then None
      else Some(Mean(Values(samples)))
    case _ =>
      if samples == [] || |samples| < o.minEvidence then None
      else
        match o.dim
        case Latency =>
          if o.kind.LatencyPercentile? then
            var rank := RealOf(o.percentileRank);
            if QuantileSufficient(Values(samples), rank) then Some(Quantile(Values(samples), rank)) else None
          else if o.kind.LatencyMean? then Some(Mean(Values(samples)))
          else Some(Largest(Values(samples)))
        case MemoryPressure =>
          if o.kind.MemoryMinHeadroom? then Some(Smallest(Values(samples))) else Some(Largest(Values(samples)))
        case _ => Some(Mean(Values(samples)))
  }

  method ComputeMeasure(acc: Accumulator, now: int) returns (m: Option<real>)
    ensures m == Measure(acc, now)
  {
    var o, samples := acc.def, acc.window.samples;
    match o.dim {
      case Availability =>
        if !acc.account.HasDenominator() {
          return None;
        }
        return Some(acc.account.Ratio() * 10000.0);
      case RecoveryTime =>
        return Some(acc.recovery.Lasted(now) as real);
      case Cost =>
        if o.kind.CostWindowBudget? {
          if acc.cost == [] {
            return None;
          }
          var sum := AddUpCosts(acc.cost);
          return Some(sum);
        }
        if samples == [] || o.minEvidence < 0 || |samples| < o.minEvidence {
          return None;
        }
        var mean := ComputeMean(samples);
        return Some(mean);
      case _ =>
    }
    if samples == [] || |samples| < o.minEvidence {
      return None;
    }
    var rank := RealOf(o.percentileRank);
    if o.dim.Latency? && o.kind.LatencyPercentile? {
      if !QuantileSufficient(Values(samples), rank) {
        return None;
      }
      var q := ComputeQuantile(samples, rank);
      return Some(q);
    }
    var smallest, largest := ComputeExtremes(samples);
    if o.dim.Latency? && !o.kind.LatencyMean? {
      return Some(largest);
    }
    if o.dim.MemoryPressure? {
      return Some(if o.kind.MemoryMinHeadroom? then smallest else largest);
    }
    var mean := ComputeMean(samples);
    m := Some(mean);
  }

  method AddUpCosts(items: seq<CostItem>) returns (sum: real)
    ensures sum == CostSum(items)
  {
    sum := 0.0;
    for i := 0 to |items|
      invariant sum == CostSum(items[..i])
    {
      assert items[..i + 1][..i] == items[..i];
      sum := sum + items[i].cost;
    }
    assert items[..|items|] == items;
  }

  /** The share of the window that has passed since the first cost, or all of it where no time has. */
  function Pace(o: Objective, first: int, now: int): (p: real)
    ensures p > 0.0
  {
    if now > first then (now - first) as real / (if o.windowDuration < 1 then 1 else o.windowDuration) as real else 1.0
  }

  function PredictRisk(o: Objective, acc: Accumulator, now: int, measured: real): Risk {
    if o.dim.Cost? && o.kind.CostWindowBudget? then
      if acc.cost == [] then NoRisk
      else
        Exceeds(CostSum(acc.cost) / Pace(o, acc.cost[0].time, now), NumberOf(o.target))
    else if (o.dim.Latency? || o.dim.MemoryPressure?) && o.comparison.AtMost? then
      TrendRisk(acc.window.samples, o.windowDuration, measured, LimitsOf(o).breach)
    else NoRisk
  }

  // ----- Judgement -----

  function Rolled(b: Budget, now: I64): Budget {
    if b.WindowRolled(now) then b.ResetWindow(now) else b
  }

  function RolledSlot(b: Option<Budget>, now: I64): Option<Budget> {
    if b.Some? then Some(Rolled(b.value, now)) else None
  }

  /** What an evaluation at `now` sees in an accumulator. */
  function Observe(acc: Accumulator, now: I64): Observation {
    var m, freshness, budget := Measure(acc, now), FreshnessOf(acc, now), RolledSlot(acc.budget, now);
    if m.Some? && freshness.Current? then Usable(m.value, budget.Some? && budget.value.State().Exhausted?)
    else Unusable(freshness.StaleEvidence?)
  }

  /** One objective is judged: its budget window may roll over, and its state is stepped and noted. */
  function Assessed(acc: Accumulator, o: Objective, now: I64): Accumulator {
    acc.(budget := RolledSlot(acc.budget, now),
         lastState := NextState(LimitsOf(o), acc.lastState, Observe(acc, now)),
         lastStateTime := now)
  }

  function JudgementOn(acc: Accumulator, o: Objective, now: I64): Judgement {
    var seen, budget := Observe(acc, now), RolledSlot(acc.budget, now);
    var budgetState := if budget.Some? then Some(budget.value.State()) else None;
    var burn := if budget.Some? then Some(budget.value.ClassifyBurn(now)) else None;
    match seen
    case Usable(m, exhausted) =>
      Judge(o, acc.lastState, m, exhausted, PredictRisk(o, acc, now, m), budgetState, burn)
    case Unusable(_) =>
      Judgement(o, NextState(LimitsOf(o), acc.lastState, seen), NoRisk, 99, 0.0, FreshnessOf(acc, now), budgetState, burn)
  }

  /** The state noted is the state reported, and it is a definite one exactly when the evidence was
      usable. */
  lemma JudgedStates(acc: Accumulator, o: Objective, now: I64)
    ensures JudgementOn(acc, o, now).state == Assessed(acc, o, now).lastState
    ensures JudgementOn(acc, o, now).objective == o
    ensures JudgementOn(acc, o, now).state.RevalidationRequired? || JudgementOn(acc, o, now).state.InsufficientEvidence?
      <==> Observe(acc, now).Unusable?
    ensures Observe(acc, now).Usable? ==> JudgementOn(acc, o, now).rank == SeverityRank(JudgementOn(acc, o, now).state)
  {}

  // ----- What the accounts mean -----

  /** Serving never exceeds what was eligible, and neither is negative. */
  predicate Balanced(a: Account) {
    0 <= a.servingTime <= a.eligibleTime && 0 <= a.successful <= a.eligible
  }

  lemma TruncatedBounds(x: real, n: nat)
    ensures 0 <= Truncated(x) <= n <==> -1.0 < x < n as real + 1.0
    ensures x >= 0.0 ==> x - 1.0 < Truncated(x) as real <= x
  {
    var k := Truncated(x);
    if x >= 0.0 {
      assert k as real <= x < k as real + 1.0;
      assert k <= n <==> x < n as real + 1.0;
    } else {
      assert k as real - 1.0 < x <= k as real;
      assert 0 <= k <==> -1.0 < x;
    }
  }

  /** Cutting toward zero leaves the whole part. */
  lemma TruncatedExactly(x: real, n: int)
    ensures Truncated(x) == n <==> if x >= 0.0 then n as real <= x < (n + 1) as real else (n - 1) as real < x <= n as real
  {}

  /** Ingest does not check the value. Evidence keeps every balanced account balanced exactly when its
      share is above minus one and below its weight plus one; otherwise it unbalances an empty account. */
  lemma CreditKeepsBalanceExactly(mode: AvailabilityMode, value: real, count: int)
    ensures (forall a: Account {:trigger Credit(a, mode, value, count)} :: Balanced(a) ==> Balanced(Credit(a, mode, value, count)))
      <==> -1.0 < Share(value, count) < Weight(count) as real + 1.0
  {
    var weight, served := Weight(count), Truncated(Share(value, count));
    TruncatedBounds(Share(value, count), weight);
    forall a: Account | Balanced(a) && 0 <= served <= weight ensures Balanced(Credit(a, mode, value, count)) {
      CreditedBalance(a, mode, weight, served);
    }
    var blank := Account(mode, 0, 0, 0, 0);
    CreditedBalance(blank, mode, weight, served);
    assert Balanced(Credit(blank, mode, value, count)) ==> 0 <= served <= weight;
  }

  lemma CreditedBalance(a: Account, mode: AvailabilityMode, weight: nat, served: int)
    requires Balanced(a)
    ensures 0 <= served <= weight ==> Balanced(Credited(a, mode, weight, served))
    ensures a == Account(mode, 0, 0, 0, 0) && Balanced(Credited(a, mode, weight, served)) ==> 0 <= served <= weight
  {}

  /** Values from nothing to ten thousand basis points are among those, and such evidence rounds away
      less than one unit of what was served. */
  lemma CreditInRange(value: real, count: int)
    requires 0.0 <= value <= 10000.0
    ensures 0.0 <= Share(value, count) <= Weight(count) as real
    ensures Share(value, count) - 1.0 < Truncated(Share(value, count)) as real <= Share(value, count)
  {
    var share := value / 10000.0;
    UnitRatio(value, 10000.0);
    var units := ShareOf(share, Weight(count) as real);
    assert Share(value, count) == units;
    TruncatedBounds(units, Weight(count));
  }

  lemma ShareOf(share: real, m: real) returns (units: real)
    requires 0.0 <= share <= 1.0 && m > 0.0
    ensures units == share * m && 0.0 <= units <= m
  {
    units := share * m;
    NotNegative(share, m);
    NotNegative(1.0 - share, m);
    assert (1.0 - share) * m == m - units;
  }

  /** A balanced account measures between zero and ten thousand basis points. */
  lemma BalancedRatio(a: Account)
    requires Balanced(a)
    ensures 0.0 <= a.Ratio() <= 1.0
  {
    if a.mode.ByTime? {
      if a.eligibleTime > 0 {
        UnitRatio(a.servingTime as real, a.eligibleTime as real);
      }
    } else if a.eligible > 0 {
      UnitRatio(a.successful as real, a.eligible as real);
    }
  }

  lemma UnitRatio(x: real, y: real)
    requires 0.0 <= x <= y && y > 0.0
    ensures 0.0 <= x / y <= 1.0
  {
    var q := x / y;
    assert q * y == x;
    NotNegative(q, y);
    assert (1.0 - q) * y == y - x;
    NotNegative(1.0 - q, y);
  }

  /** Adding a cost keeps a tail of what was there and ends with the new item; the oldest item kept is
      within the interval, every item dropped for its age was behind only dropped items, and at most
      4096 items stay. */
  lemma AddCostKeepsTail(items: seq<CostItem>, time: int, cost: real, interval: int)
    ensures var grown, kept := items + [CostItem(time, cost)], AddCost(items, time, cost, interval);
      && 0 < |kept| <= 4096 && kept == grown[|grown| - |kept|..]
      && (interval > 0 ==> time - kept[0].time <= interval || |kept| == 4096)
      && (|kept| < 4096 && |kept| < |grown| ==>
            interval > 0 && time - grown[|grown| - |kept| - 1].time > interval)
  {
    var grown := items + [CostItem(time, cost)];
    assert grown[|grown| - 1].time == time;
    OutdatedStops(grown, time, interval);
  }

  /** The item is older than the interval by `now`. */
  predicate Old(item: CostItem, now: int, interval: int) {
    interval > 0 && now - item.time > interval
  }

  /** Exactly what stays when a cost is added: everything from the first item on that is not old, but no more
      than the last 4096. */
  lemma AddCostExactly(items: seq<CostItem>, time: int, cost: real, interval: int) returns (a: nat)
    ensures var grown := items + [CostItem(time, cost)];
      && a < |grown| && !Old(grown[a], time, interval)
      && (forall i {:trigger grown[i]} :: 0 <= i < a ==> Old(grown[i], time, interval))
      && AddCost(items, time, cost, interval) == grown[if |grown| - a > 4096 then |grown| - 4096 else a..]
  {
    var grown := items + [CostItem(time, cost)];
    assert grown[|grown| - 1].time == time;
    a := Outdated(grown, time, interval);
    OutdatedStops(grown, time, interval);
    forall i | 0 <= i < a ensures Old(grown[i], time, interval) {
      OutdatedAreOld(grown, time, interval, i);
    }
  }

  lemma {:induction false} OutdatedAreOld(items: seq<CostItem>, now: int, interval: int, i: nat)
    requires i < Outdated(items, now, interval)
    ensures Old(items[i], now, interval)
  {
    if i > 0 {
      OutdatedAreOld(items[1..], now, interval, i - 1);
    }
  }

  lemma {:induction false} OutdatedStops(items: seq<CostItem>, now: int, interval: int)
    requires items != [] && items[|items| - 1].time == now
    ensures var k := Outdated(items, now, interval);
      && k < |items| && (interval > 0 ==> now - items[k].time <= interval)
      && (k > 0 ==> interval > 0 && now - items[k - 1].time > interval)
  {
    if interval > 0 && now - items[0].time > interval {
      OutdatedStops(items[1..], now, interval);
    }
  }

  /** Cost risk is predicted exactly when the costs so far are more than the target's share of the
      window that has passed, or, for a negative target, more than one and a half times that. */
  lemma CostRiskIsPace(o: Objective, acc: Accumulator, now: int, measured: real)
    requires o.dim.Cost? && o.kind.CostWindowBudget?
    ensures PredictRisk(o, acc, now, measured) == NoRisk <==>
      acc.cost == []
      || var share := NumberOf(o.target) * Pace(o, acc.cost[0].time, now);
         CostSum(acc.cost) <= share && CostSum(acc.cost) <= 1.5 * share
  {
    if acc.cost != [] {
      ScaledLimit(CostSum(acc.cost), Pace(o, acc.cost[0].time, now), NumberOf(o.target));
    }
  }

  lemma ScaledLimit(sum: real, pace: real, target: real)
    requires pace > 0.0
    ensures Exceeds(sum / pace, target) == NoRisk <==> sum <= target * pace && sum <= 1.5 * (target * pace)
  {
    var p := sum / pace;
    assert p * pace == sum;
    ScaledOrder(target, p, pace);
    ScaledOrder(p, target, pace);
    ScaledOrder(p, target * 1.5, pace);
    assert (target * 1.5) * pace == 1.5 * (target * pace);
  }
}
