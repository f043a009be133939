/** What an objective has gathered, kept account of from outside: by the evidence records that were answered
    Ok, and nothing of how the fabric stores them. */
module Intake {
  import opened Types
  import opened Doubles
  import opened SampleWindows
  import opened Accumulators
  import opened Lives
  import opened Tables
  import opened Engine
  import opened Runs
  import opened Fencing
  import opened Intents
  import opened Histories
  import opened Measures
  import opened Binding
  import opened Reports

  /** A measured value and its time. */
  datatype Point = Point(time: int, value: real)

  /** An amount that was asked for, and how much of it was served. */
  datatype Amount = Amount(eligible: int, served: int)

  datatype Stock = Stock(points: seq<Point>, overTime: Amount, overRequests: Amount, cost: seq<CostItem>)

  const Nothing: Stock := Stock([], Amount(0, 0), Amount(0, 0), [])

  function Points(h: seq<Sample>): (ps: seq<Point>)
    ensures |ps| == |h| && forall i {:trigger ps[i]} :: 0 <= i < |h| ==> ps[i] == Point(h[i].time, h[i].value)
  {
    if h == [] then [] else Points(h[..|h| - 1]) + [Point(h[|h| - 1].time, h[|h| - 1].value)]
  }

  // ----- The account -----

  /** A window that cannot tell one bucket from the next takes one sample only. */
  predicate Blocked(o: Objective) {
    (o.windowType.Tumbling? || o.windowType.FixedInterval?) && o.windowDuration <= 0
  }

  /** A window takes in a number of at most 1e300 that is not from before the newest one taken in. */
  predicate Admits(slot: Option<Accumulator>, points: seq<Point>, time: int, reading: Reading) {
    && reading.Number? && reading.value <= MAX_VALUE
    && (points != [] ==> points[|points| - 1].time <= time && (slot.Some? ==> !Blocked(slot.value.def)))
  }

  /** The whole units of `weight` that a value in basis points says were served. */
  function Served(value: real, weight: int): int {
    Truncated(value / 10000.0 * weight as real)
  }

  function Plus(a: Amount, weight: int, served: int): Amount {
    Amount(a.eligible + weight, a.served + served)
  }

  function Amounts(t: Stock, mode: AvailabilityMode, weight: int, served: int): Stock {
    if mode.ByTime? then t.(overTime := Plus(t.overTime, weight, served))
    else t.(overRequests := Plus(t.overRequests, weight, served))
  }

  /** What a record that was answered Ok adds: to the samples, to the eligible and served amounts of the mode
      in force, or to the costs. Of cost records that go to the window, some are answered Ok and dropped. */
  function Received(t: Stock, slot: Option<Accumulator>, def: Objective, e: Evidence): Stock {
    var point := Point(e.time, NumberOf(e.value));
    match e.dimension
    case Availability =>
      var weight := if e.sampleCount < 1 then 1 else e.sampleCount;
      Amounts(t, def.availabilityMode, weight, Served(NumberOf(e.value), weight))
    case Cost =>
      if def.kind.CostWindowBudget? then t.(cost := AddCost(t.cost, e.time, NumberOf(e.value), def.windowDuration))
      else if Admits(slot, t.points, e.time, ReadingOf(e.value)) then t.(points := t.points + [point])
      else t
    case RecoveryTime => t
    case _ => t.(points := t.points + [point])
  }

  /** The account after a call: only evidence for the objective that is answered Ok changes it. */
  function Booked(t: Stock, s: State, op: Op, id: U64): Stock
    requires Legal(s, op)
  {
    if op.IngestEvidence? && op.e.objectiveId == id && Step(s, op).1 == Answer(Ok) && Definition(s.contracts, id).Some?
    then Received(t, Slot(s.accs, id), Definition(s.contracts, id).value, op.e)
    else t
  }

  function StockAfter(t: Stock, s: State, ops: seq<Op>, id: U64): Stock
    requires LegalRun(s, ops)
  {
    if ops == [] then t
    else
      var past, op := ops[..|ops| - 1], ops[|ops| - 1];
      Booked(StockAfter(t, s, past, id), Run(s, past), op, id)
  }

  // ----- What it says of an accumulator -----

  /** The window was made for the definition, and holds what the batch specification says of a history with
      these points. */
  ghost predicate WindowFrom(acc: Accumulator, h: seq<Sample>, points: seq<Point>) {
    && Holds(acc.window, h) && Points(h) == points
    && acc.window.kind == acc.def.windowType && acc.window.interval == acc.def.windowDuration
    && acc.window.capacity == (if acc.def.windowCount < 1 then 1 else acc.def.windowCount)
    && acc.window.lastSeq < acc.nextSeq
  }

  ghost predicate Windowed(acc: Accumulator, points: seq<Point>) {
    exists h: seq<Sample> :: WindowFrom(acc, h, points)
  }

  ghost predicate Stocked(acc: Accumulator, t: Stock) {
    && Windowed(acc, t.points) && acc.cost == t.cost
    && acc.account == Account(acc.def.availabilityMode, t.overTime.eligible, t.overTime.served,
                              t.overRequests.eligible, t.overRequests.served)
  }

  ghost predicate SlotStocked(slot: Option<Accumulator>, t: Stock) {
    if slot.Some? then Stocked(slot.value, t) else t == Nothing
  }

  // ----- One record -----

  lemma ReadingIsNumber(v: Value)
    ensures ReadingOf(v).Number? ==> ReadingOf(v).value == NumberOf(v)
  {}

  /** A window that holds a history takes in a sample exactly when it is admissible. */
  lemma OfferHolds(w: Window, h: seq<Sample>, time: int, reading: Reading, seqNo: nat)
    requires Holds(w, h) && w.lastSeq < seqNo
    ensures var (w', status) := Offer(w, time, reading, seqNo);
      && w'.kind == w.kind && w'.interval == w.interval && w'.capacity == w.capacity && w'.lastSeq <= seqNo
      && (status == Accepted <==>
            && reading.Number? && reading.value <= MAX_VALUE
            && (h != [] ==> h[|h| - 1].time <= time && !((w.kind.Tumbling? || w.kind.FixedInterval?) && w.interval <= 0)))
      && Holds(w', if status == Accepted then h + [Sample(time, reading.value, seqNo)] else h)
  {
    if reading.Number? {
      IngestKeepsBatch(w, h, Sample(time, reading.value, seqNo));
    }
  }

  lemma PointsSnoc(h: seq<Sample>, x: Sample)
    ensures Points(h + [x]) == Points(h) + [Point(x.time, x.value)]
  {
    assert (h + [x])[..|h|] == h;
  }

  lemma PushStocks(acc: Accumulator, points: seq<Point>, time: int, reading: Reading)
    requires Windowed(acc, points)
    ensures var (acc', status) := PushSample(acc, time, reading);
      && (status == Accepted <==> Admits(Some(acc), points, time, reading))
      && Windowed(acc', if status == Accepted then points + [Point(time, reading.value)] else points)
      && acc' == acc.(window := acc'.window, nextSeq := acc'.nextSeq)
  {
    var h :| WindowFrom(acc, h, points);
    OfferHolds(acc.window, h, time, reading, acc.nextSeq);
    var (acc', status) := PushSample(acc, time, reading);
    if status == Accepted {
      PointsSnoc(h, Sample(time, reading.value, acc.nextSeq));
      assert WindowFrom(acc', h + [Sample(time, reading.value, acc.nextSeq)], points + [Point(time, reading.value)]);
    } else {
      assert WindowFrom(acc', h, points);
    }
  }

  /** The memory of ids is no part of the account. */
  lemma SameStock(acc: Accumulator, acc': Accumulator, t: Stock)
    requires Stocked(acc, t) && acc'.window == acc.window && acc'.nextSeq == acc.nextSeq && acc'.def == acc.def
    requires acc'.account == acc.account && acc'.cost == acc.cost
    ensures Stocked(acc', t)
  {
    var h :| WindowFrom(acc, h, t.points);
    assert WindowFrom(acc', h, t.points);
  }

  lemma SampleTaken(acc: Accumulator, t: Stock, e: Evidence)
    requires Stocked(acc, t)
    ensures var (acc', status) := PushSample(acc, e.time, ReadingOf(e.value));
      && (status == Accepted <==> Admits(Some(acc), t.points, e.time, ReadingOf(e.value)))
      && Stocked(acc', if status == Accepted then t.(points := t.points + [Point(e.time, NumberOf(e.value))]) else t)
  {
    PushStocks(acc, t.points, e.time, ReadingOf(e.value));
    ReadingIsNumber(e.value);
  }

  lemma CreditIsServed(a: Account, mode: AvailabilityMode, value: real, count: int, weight: nat, served: int)
    requires weight == (if count < 1 then 1 else count) && served == Served(value, weight)
    ensures Credit(a, mode, value, count) == Credited(a, mode, weight, served)
  {}

  lemma AvailabilityTaken(acc: Accumulator, def: Objective, t: Stock, e: Evidence)
    requires Stocked(acc, t) && e.dimension.Availability?
    ensures Stocked(acc.(account := Credit(acc.account, def.availabilityMode, NumberOf(e.value), e.sampleCount)),
                    Received(t, Some(acc), def, e))
  {
    var weight := if e.sampleCount < 1 then 1 else e.sampleCount;
    var served := Served(NumberOf(e.value), weight);
    CreditIsServed(acc.account, def.availabilityMode, NumberOf(e.value), e.sampleCount, weight, served);
    AmountTaken(acc, def.availabilityMode, t, weight, served);
    assert Received(t, Some(acc), def, e) == Amounts(t, def.availabilityMode, weight, served);
  }

  lemma AmountTaken(acc: Accumulator, mode: AvailabilityMode, t: Stock, weight: nat, served: int)
    requires Stocked(acc, t)
    ensures Stocked(acc.(account := Credited(acc.account, mode, weight, served)), Amounts(t, mode, weight, served))
  {
    var acc' := acc.(account := Credited(acc.account, mode, weight, served));
    var h :| WindowFrom(acc, h, t.points);
    assert WindowFrom(acc', h, t.points);
  }

  lemma CostTaken(acc: Accumulator, def: Objective, t: Stock, e: Evidence)
    requires Stocked(acc, t) && e.dimension.Cost? && def.kind.CostWindowBudget?
    ensures Stocked(acc.(cost := AddCost(acc.cost, e.time, NumberOf(e.value), def.windowDuration)),
                    Received(t, Some(acc), def, e))
  {
    var acc' := acc.(cost := AddCost(acc.cost, e.time, NumberOf(e.value), def.windowDuration));
    var h :| WindowFrom(acc, h, t.points);
    assert WindowFrom(acc', h, t.points);
  }

  lemma UnheldSample(acc: Accumulator, e: Evidence)
    requires UsesWindow(e.dimension) || e.dimension.Cost?
    ensures SampleStatus(PushSample(acc, e.time, ReadingOf(e.value)).1) == Ok
      <==> PushSample(acc, e.time, ReadingOf(e.value)).1 == Accepted
  {}

  /** A record is answered Ok by the accumulator exactly when its id is new there, its value has the unit of
      the objective, and it is for availability, for costs, or a sample that the window admits. */
  predicate Acceptable(acc: Accumulator, def: Objective, points: seq<Point>, e: Evidence) {
    && e.id !in acc.recentSet && UnitCompatible(def, e.value)
    && (e.dimension.Availability? || e.dimension.Cost?
        || (UsesWindow(e.dimension) && Admits(Some(acc), points, e.time, ReadingOf(e.value))))
  }

  lemma RecordTaken(acc: Accumulator, def: Objective, t: Stock, e: Evidence)
    requires Stocked(acc, t) && e.id !in acc.recentSet
    ensures Absorb(acc, def, e).1 == Ok <==> Acceptable(acc, def, t.points, e)
    ensures Stocked(Absorb(acc, def, e).0, if Absorb(acc, def, e).1 == Ok then Received(t, Some(acc), def, e) else t)
  {
    var kept := Remember(acc, e.id);
    SameStock(acc, kept, t);
    assert Admits(Some(acc), t.points, e.time, ReadingOf(e.value)) == Admits(Some(kept), t.points, e.time, ReadingOf(e.value));
    if UnitCompatible(def, e.value) {
      match e.dimension
      case RecoveryTime =>
      case Availability => AvailabilityTaken(kept, def, t, e);
      case Cost =>
        if def.kind.CostWindowBudget? {
          CostTaken(kept, def, t, e);
        } else {
          SampleTaken(kept, t, e);
        }
      case _ =>
        SampleTaken(kept, t, e);
        UnheldSample(kept, e);
    }
  }

  // ----- One update -----

  lemma FreshStocked(o: Objective, budget: Option<Budgets.Budget>)
    ensures Stocked(Fresh(o, budget), Nothing)
  {
    assert WindowFrom(Fresh(o, budget), [], []);
  }

  lemma OpenedStocked(slot: Option<Accumulator>, o: Objective, gen: U64, t: Stock)
    requires SlotStocked(slot, t) && InGeneration(slot, gen) && o.gen == gen
    ensures Stocked(Opened(slot, o), t) && Opened(slot, o).def.gen == gen
  {
    FreshStocked(o, None);
  }

  lemma QuietUpdate(slot: Option<Accumulator>, u: Update, gen: U64, t: Stock)
    requires SlotStocked(slot, t) && InGeneration(slot, gen) && Generation(u, gen) && !u.Take?
    ensures SlotStocked(Apply(slot, u), t) && InGeneration(Apply(slot, u), gen)
  {
    if u.Opens() {
      var acc := Opened(slot, u.o);
      OpenedStocked(slot, u.o, gen, t);
      SameStock(acc, Change(acc, u), t);
    } else if slot.Some? {
      SameStock(slot.value, Apply(slot, u).value, t);
    }
  }

  lemma {:induction false} QuietLife(slot: Option<Accumulator>, us: seq<Update>, gen: U64, t: Stock)
    requires SlotStocked(slot, t) && InGeneration(slot, gen) && AllOfGeneration(us, gen) && NoneTakes(us)
    ensures SlotStocked(Life(slot, us), t) && InGeneration(Life(slot, us), gen)
  {
    if us != [] {
      var past, u := us[..|us| - 1], us[|us| - 1];
      assert forall i :: 0 <= i < |past| ==> past[i] == us[i];
      QuietLife(slot, past, gen, t);
      assert Generation(u, gen) && !u.Take?;
      QuietUpdate(Life(slot, past), u, gen, t);
    }
  }

  lemma TakeUpdate(slot: Option<Accumulator>, def: Objective, e: Evidence, gen: U64, t: Stock)
    requires SlotStocked(slot, t) && InGeneration(slot, gen) && def.gen == gen
    ensures var (acc, status) := Absorb(Opened(slot, def), def, e);
      && Apply(slot, Take(def, e)) == Some(acc) && acc.def.gen == gen
      && Stocked(acc, if status == Ok then Received(t, slot, def, e) else t)
  {
    var acc := Opened(slot, def);
    OpenedStocked(slot, def, gen, t);
    AbsorbKeeps(acc, def, e);
    if e.id !in acc.recentSet {
      RecordTaken(acc, def, t, e);
      SameReceived(slot, acc, def, t, e);
    }
  }

  lemma SameReceived(slot: Option<Accumulator>, acc: Accumulator, def: Objective, t: Stock, e: Evidence)
    requires slot == Some(acc) || t.points == []
    ensures Received(t, slot, def, e) == Received(t, Some(acc), def, e)
  {}

  // ----- One call and many -----

  lemma IngestBooked(s: State, e: Evidence, gen: U64, t: Stock)
    requires Every(s.contracts, OneGeneration(e.objectiveId, gen))
    requires SlotStocked(Slot(s.accs, e.objectiveId), t) && InGeneration(Slot(s.accs, e.objectiveId), gen)
    ensures var slot, after := Slot(s.accs, e.objectiveId), Slot(DoIngest(s, e).0.accs, e.objectiveId);
      var def := Definition(s.contracts, e.objectiveId);
      && InGeneration(after, gen)
      && (DoIngest(s, e).1 == Answer(Ok) ==> def.Some?)
      && SlotStocked(after, if DoIngest(s, e).1 == Answer(Ok) then Received(t, slot, def.value, e) else t)
  {
    var id := e.objectiveId;
    EveryFlat(s.contracts, OneGeneration(id, gen));
    NewestFits(Objectives(s.contracts), id, OneGeneration(id, gen));
    if NoteStatus(s, e.id) == Ok && FenceStatus(s, e) == Ok {
      var def := Definition(s.contracts, id).value;
      TakeUpdate(Slot(s.accs, id), def, e, gen, t);
      IngestApplies(s, e, def);
    }
  }

  lemma IngestApplies(s: State, e: Evidence, def: Objective)
    requires NoteStatus(s, e.id) == Ok && FenceStatus(s, e) == Ok && Definition(s.contracts, e.objectiveId) == Some(def)
    ensures var slot := Slot(s.accs, e.objectiveId);
      && Slot(DoIngest(s, e).0.accs, e.objectiveId) == Apply(slot, Take(def, e))
      && DoIngest(s, e).1 == Answer(Absorb(Opened(slot, def), def, e).1)
  {
    var touch := Touch(e.objectiveId, Take(def, e));
    TouchAllAt(s.accs, [touch], e.objectiveId);
    OfOne(touch, e.objectiveId);
    LifeOne(Slot(s.accs, e.objectiveId), touch.update);
    assert Noted(s, e.id).contracts == s.contracts && Noted(s, e.id).epoch == s.epoch && Noted(s, e.id).accs == s.accs;
  }

  lemma OtherBooked(s: State, op: Op, id: U64, gen: U64, t: Stock)
    requires Legal(s, op) && !op.Load? && !(op.IngestEvidence? && op.e.objectiveId == id)
    requires Every(s.contracts, OneGeneration(id, gen)) && Brings(s, op, OneGeneration(id, gen))
    requires SlotStocked(Slot(s.accs, id), t) && InGeneration(Slot(s.accs, id), gen)
    ensures var after := Slot(Step(s, op).0.accs, id); SlotStocked(after, t) && InGeneration(after, gen)
  {
    UpdatesCaused(s, op, id, OneGeneration(id, gen));
    var us := Updates(s, op, id);
    forall i | 0 <= i < |us| ensures Generation(us[i], gen) && !us[i].Take? {
      assert Caused(us[i], op, id, OneGeneration(id, gen));
    }
    QuietLife(Slot(s.accs, id), us, gen, t);
    StepUpdates(s, op, id);
  }

  /** Within one generation of an objective, through any run without a load, the objective has gathered
      exactly what the records answered Ok brought: the window holds the batch specification of their
      samples in order, the account their eligible and served amounts, and the costs theirs. */
  lemma {:induction false} StockOverRun(s: State, ops: seq<Op>, id: U64, gen: U64, t: Stock)
    requires LegalRun(s, ops) && NoLoad(ops) && InGeneration(Slot(s.accs, id), gen)
    requires Every(s.contracts, OneGeneration(id, gen)) && AllBring(s, ops, OneGeneration(id, gen))
    requires SlotStocked(Slot(s.accs, id), t)
    ensures var after := Slot(Run(s, ops).accs, id);
      InGeneration(after, gen) && SlotStocked(after, StockAfter(t, s, ops, id))
  {
    if ops != [] {
      var past, op := ops[..|ops| - 1], ops[|ops| - 1];
      assert forall i :: 0 <= i < |past| ==> past[i] == ops[i];
      StockOverRun(s, past, id, gen, t);
      EveryRun(s, past, OneGeneration(id, gen));
      StepBooked(Run(s, past), op, id, gen, StockAfter(t, s, past, id));
    }
  }

  lemma StepBooked(s: State, op: Op, id: U64, gen: U64, t: Stock)
    requires Legal(s, op) && !op.Load?
    requires Every(s.contracts, OneGeneration(id, gen)) && Brings(s, op, OneGeneration(id, gen))
    requires SlotStocked(Slot(s.accs, id), t) && InGeneration(Slot(s.accs, id), gen)
    ensures var after := Slot(Step(s, op).0.accs, id); SlotStocked(after, Booked(t, s, op, id)) && InGeneration(after, gen)
  {
    if op.IngestEvidence? && op.e.objectiveId == id {
      IngestBooked(s, op.e, gen, t);
    } else {
      OtherBooked(s, op, id, gen, t);
    }
  }

  // ----- Samples -----

  /** Point `i` is to be kept by the window that the definition asks for: by its number from the end, its
      age at the newest point, and its bucket. */
  predicate KeptPoint(o: Objective, points: seq<Point>, i: nat)
    requires i < |points|
  {
    var newest, capacity := points[|points| - 1].time, if o.windowCount < 1 then 1 else o.windowCount;
    match o.windowType
    case Instantaneous => i == |points| - 1
    case Sliding => |points| - i <= capacity && (o.windowDuration > 0 ==> newest - points[i].time < o.windowDuration)
    case RollingCount => |points| - i <= capacity
    case _ => o.windowDuration > 0 ==> SameBucket(points[i].time, newest, o.windowDuration)
  }

  /** The samples held are the points from `k` on, and those are the ones to be kept. */
  ghost predicate KeepsFrom(acc: Accumulator, points: seq<Point>, k: nat) {
    && k <= |points| && Points(acc.window.samples) == points[k..]
    && forall i | 0 <= i < |points| :: k <= i <==> KeptPoint(acc.def, points, i)
  }

  lemma WindowKeeps(acc: Accumulator, points: seq<Point>) returns (k: nat)
    requires Windowed(acc, points)
    ensures KeepsFrom(acc, points, k)
  {
    var h :| WindowFrom(acc, h, points);
    k := HeldExactly(acc.window, h);
    assert Points(h[k..]) == points[k..];
    forall i | 0 <= i < |points| ensures k <= i <==> KeptPoint(acc.def, points, i) {
      KeptAlike(acc, h, points, i);
    }
  }

  lemma KeptAlike(acc: Accumulator, h: seq<Sample>, points: seq<Point>, i: nat)
    requires WindowFrom(acc, h, points) && i < |h|
    ensures Kept(acc.window.kind, acc.window.interval, acc.window.capacity, h, i) <==> KeptPoint(acc.def, points, i)
  {
    assert points[i] == Point(h[i].time, h[i].value) && points[|h| - 1].time == h[|h| - 1].time;
  }

  /** Through any run without a load that keeps the generation of an objective new to it: the samples that the
      objective holds are, by time and value and in order, the ones to be kept of all that were answered
      Ok; its amounts are the sums of theirs; and its costs are theirs. */
  lemma GatheredOverRun(s: State, ops: seq<Op>, id: U64, gen: U64) returns (k: nat)
    requires LegalRun(s, ops) && NoLoad(ops) && id !in s.accs
    requires Every(s.contracts, OneGeneration(id, gen)) && AllBring(s, ops, OneGeneration(id, gen))
    requires id in Run(s, ops).accs
    ensures var acc, t := Run(s, ops).accs[id], StockAfter(Nothing, s, ops, id);
      && KeepsFrom(acc, t.points, k) && acc.cost == t.cost && acc.account.mode == acc.def.availabilityMode
      && acc.account.eligibleTime == t.overTime.eligible && acc.account.servingTime == t.overTime.served
      && acc.account.eligible == t.overRequests.eligible && acc.account.successful == t.overRequests.served
  {
    StockOverRun(s, ops, id, gen, Nothing);
    k := WindowKeeps(Run(s, ops).accs[id], StockAfter(Nothing, s, ops, id).points);
  }

  // ----- Answers -----

  /** The value is in the unit that the objective asks for. */
  predicate RightUnit(o: Objective, v: Value) {
    && (o.dim.Latency? || o.dim.RecoveryTime? ==> v.Nanoseconds?)
    && (o.dim.Availability? ==> v.BasisPoints? || v.Percentage?)
    && (o.dim.Throughput? && o.rateTag.RequestRate? ==> v.RequestsPerSecond?)
    && (o.dim.Throughput? && o.rateTag.TokenRate? ==> v.TokensPerSecond?)
    && (o.dim.Throughput? && o.rateTag.ByteRate? ==> v.BytesPerSecond?)
    && (o.dim.Throughput? && o.rateTag.OperationRate? ==> v.OperationsPerSecond?)
    && (o.dim.MemoryPressure? && o.kind.MemoryMinHeadroom? ==> v.ByteCount?)
    && (o.dim.MemoryPressure? && !o.kind.MemoryMinHeadroom? ==> v.PressureRatio?)
    && (o.dim.Cost? ==> v.CostMicros?)
  }

  lemma UnitExactly(o: Objective, v: Value)
    ensures UnitCompatible(o, v) <==> RightUnit(o, v)
  {}

  /** A record is answered Ok exactly when its id is not zero and known neither to the fabric nor to the
      objective, it is stamped with no epoch or generation or the current ones, its value has the right
      unit, and it is for availability, for costs, or a sample that the window admits. */
  lemma AnsweredExactly(s: State, e: Evidence, def: Objective, t: Stock)
    requires Definition(s.contracts, e.objectiveId) == Some(def)
    requires Stocked(Opened(Slot(s.accs, e.objectiveId), def), t)
    ensures Step(s, IngestEvidence(e)).1 == Answer(Ok)
      <==> Passes(s, def, e) && Welcome(Opened(Slot(s.accs, e.objectiveId), def), def, t.points, e)
  {
    IngestAnswered(s, e, def);
    WelcomeExactly(Opened(Slot(s.accs, e.objectiveId), def), def, t, e);
  }

  /** The fabric lets the record pass: its id is new, and it is of the current epoch and generation or of none. */
  predicate Passes(s: State, def: Objective, e: Evidence) {
    && e.id != 0 && e.id !in s.known
    && (e.epoch == 0 || e.epoch == s.epoch) && (e.objectiveGen == 0 || e.objectiveGen == def.gen)
  }

  /** The objective takes the record: its id is new there, its unit is right, and it is for availability, for
      costs, or a sample that the window admits. */
  predicate Welcome(acc: Accumulator, def: Objective, points: seq<Point>, e: Evidence) {
    && e.id !in acc.recentSet && RightUnit(def, e.value) && !e.dimension.RecoveryTime?
    && (UsesWindow(e.dimension) ==> Admits(Some(acc), points, e.time, ReadingOf(e.value)))
  }

  lemma IngestAnswered(s: State, e: Evidence, def: Objective)
    requires Definition(s.contracts, e.objectiveId) == Some(def)
    ensures Step(s, IngestEvidence(e)).1 == Answer(Ok)
      <==> Passes(s, def, e) && Absorb(Opened(Slot(s.accs, e.objectiveId), def), def, e).1 == Ok
  {
    if NoteStatus(s, e.id) == Ok && FenceStatus(s, e) == Ok {
      IngestApplies(s, e, def);
    }
  }

  lemma WelcomeExactly(acc: Accumulator, def: Objective, t: Stock, e: Evidence)
    requires Stocked(acc, t)
    ensures Absorb(acc, def, e).1 == Ok <==> Welcome(acc, def, t.points, e)
  {
    UnitExactly(def, e.value);
    if e.id !in acc.recentSet {
      RecordTaken(acc, def, t, e);
    }
  }

  /** Why a record that the fabric lets pass is not answered Ok. */
  function Refusal(acc: Accumulator, def: Objective, points: seq<Point>, e: Evidence): Status {
    var reading := ReadingOf(e.value);
    if e.id in acc.recentSet then Status.Cancelled
    else if !RightUnit(def, e.value) then UnitMismatch
    else if e.dimension.RecoveryTime? || !reading.Number? || reading.value > MAX_VALUE then InvalidInput
    else if points != [] && e.time < points[|points| - 1].time then StaleSample
    else InvalidInput
  }

  /** The answer to a record that is not answered Ok: a duplicate is cancelled, another epoch or generation is
      stale, and the rest by the first test that fails. */
  lemma RefusedExactly(s: State, e: Evidence, def: Objective, t: Stock)
    requires Definition(s.contracts, e.objectiveId) == Some(def)
    requires Stocked(Opened(Slot(s.accs, e.objectiveId), def), t) && Step(s, IngestEvidence(e)).1 != Answer(Ok)
    ensures Step(s, IngestEvidence(e)).1 == Answer(
      if e.id == 0 then InvalidInput
      else if e.id in s.known then Status.Cancelled
      else if e.epoch != 0 && e.epoch != s.epoch then StaleAuthority
      else if e.objectiveGen != 0 && e.objectiveGen != def.gen then StaleAuthority
      else Refusal(Opened(Slot(s.accs, e.objectiveId), def), def, t.points, e))
  {
    if NoteStatus(s, e.id) == Ok && FenceStatus(s, e) == Ok {
      IngestApplies(s, e, def);
      RefusalExactly(Opened(Slot(s.accs, e.objectiveId), def), def, t, e);
    }
  }

  lemma RefusalExactly(acc: Accumulator, def: Objective, t: Stock, e: Evidence)
    requires Stocked(acc, t) && Absorb(acc, def, e).1 != Ok
    ensures Absorb(acc, def, e).1 == Refusal(acc, def, t.points, e)
  {
    UnitExactly(def, e.value);
    if e.id !in acc.recentSet && UnitCompatible(def, e.value) && UsesWindow(e.dimension) {
      var kept := Remember(acc, e.id);
      SameStock(acc, kept, t);
      PushRefused(kept, t.points, e.time, ReadingOf(e.value));
    }
  }

  lemma PushRefused(acc: Accumulator, points: seq<Point>, time: int, reading: Reading)
    requires Windowed(acc, points)
    ensures var status := SampleStatus(PushSample(acc, time, reading).1);
      status != Ok ==>
        status == if !reading.Number? || reading.value > MAX_VALUE then InvalidInput
                  else if points != [] && time < points[|points| - 1].time then StaleSample
                  else InvalidInput
  {
    var h :| WindowFrom(acc, h, points);
    if reading.Number? {
      IngestKeepsBatch(acc.window, h, Sample(time, reading.value, acc.nextSeq));
    }
  }

  /** Without a definition nothing is answered Ok. */
  lemma UndefinedIsRefused(s: State, e: Evidence)
    requires Definition(s.contracts, e.objectiveId).None?
    ensures Step(s, IngestEvidence(e)).1 != Answer(Ok) && Step(s, IngestEvidence(e)).0.accs == s.accs
  {}

  // ----- From records to measurements -----

  /** Some point above `x` is to be kept. */
  ghost predicate SomeKeptAbove(o: Objective, points: seq<Point>, x: real) {
    exists i | 0 <= i < |points| :: KeptPoint(o, points, i) && points[i].value > x
  }

  lemma KeptAbove(acc: Accumulator, points: seq<Point>, k: nat, x: real)
    requires KeepsFrom(acc, points, k)
    ensures SomeKeptAbove(acc.def, points, x) <==>
      exists j {:trigger acc.window.samples[j]} :: 0 <= j < |acc.window.samples| && acc.window.samples[j].value > x
  {
    var samples := acc.window.samples;
    assert forall j | 0 <= j < |samples| :: Points(samples)[j] == points[k + j];
    if i :| 0 <= i < |points| && KeptPoint(acc.def, points, i) && points[i].value > x {
      assert Points(samples)[i - k] == points[i];
      assert samples[i - k].value > x;
    }
    if j :| 0 <= j < |samples| && samples[j].value > x {
      assert Points(samples)[j] == points[k + j];
      assert k <= k + j && KeptPoint(acc.def, points, k + j);
    }
  }

  /** A deadline or pressure objective measures more than `x` exactly when a record answered Ok, of those to be
      kept, does. */
  lemma WorstOverRun(s: State, ops: seq<Op>, id: U64, gen: U64, now: int, x: real)
    requires LegalRun(s, ops) && NoLoad(ops) && id !in s.accs
    requires Every(s.contracts, OneGeneration(id, gen)) && AllBring(s, ops, OneGeneration(id, gen))
    requires id in Run(s, ops).accs && ByMaximum(Run(s, ops).accs[id].def)
    ensures var acc, t := Run(s, ops).accs[id], StockAfter(Nothing, s, ops, id);
      Measure(acc, now).Some? ==> (Measure(acc, now).value > x <==> SomeKeptAbove(acc.def, t.points, x))
  {
    var k := GatheredOverRun(s, ops, id, gen);
    KeptAbove(Run(s, ops).accs[id], StockAfter(Nothing, s, ops, id).points, k, x);
    MeasureMeans(Run(s, ops).accs[id], now, x);
  }

  /** The measurement in basis points of what was served, if anything was eligible. */
  predicate IsShare(m: Option<real>, amount: Amount) {
    && (m.Some? <==> amount.eligible > 0)
    && (m.Some? ==> m.value * amount.eligible as real == 10000.0 * amount.served as real)
  }

  /** What an availability objective measures, times everything eligible that was answered Ok in its mode, is
      ten thousand times what was served; it is measured exactly when something was eligible. */
  lemma AvailabilityOverRun(s: State, ops: seq<Op>, id: U64, gen: U64, now: int, amount: Amount)
    requires LegalRun(s, ops) && NoLoad(ops) && id !in s.accs
    requires Every(s.contracts, OneGeneration(id, gen)) && AllBring(s, ops, OneGeneration(id, gen))
    requires id in Run(s, ops).accs && Run(s, ops).accs[id].def.dim.Availability?
    requires var t := StockAfter(Nothing, s, ops, id);
      amount == if Run(s, ops).accs[id].def.availabilityMode.ByTime? then t.overTime else t.overRequests
    ensures IsShare(Measure(Run(s, ops).accs[id], now), amount)
  {
    var k := GatheredOverRun(s, ops, id, gen);
    RatioOfAmounts(Run(s, ops).accs[id], now, amount);
  }

  lemma RatioOfAmounts(acc: Accumulator, now: int, amount: Amount)
    requires acc.def.dim.Availability? && acc.account.mode == acc.def.availabilityMode
    requires amount == if acc.def.availabilityMode.ByTime? then Amount(acc.account.eligibleTime, acc.account.servingTime)
                       else Amount(acc.account.eligible, acc.account.successful)
    ensures IsShare(Measure(acc, now), amount)
  {
    MeasureMeans(acc, now, 0.0);
  }

  // ----- Costs per request and per token -----

  /** Definitions of objective `id` all have generation `gen` and ask for costs per request or per token. */
  ghost function UnitCost(id: U64, gen: U64): Objective -> bool {
    (o: Objective) => o.id == id ==> o.gen == gen && o.dim.Cost? && !o.kind.CostWindowBudget?
  }

  /** Such records go to the window, and never to the list of costs. */
  lemma {:induction false} NoCostsListed(s: State, ops: seq<Op>, id: U64, gen: U64)
    requires LegalRun(s, ops) && Every(s.contracts, UnitCost(id, gen)) && AllBring(s, ops, UnitCost(id, gen))
    ensures StockAfter(Nothing, s, ops, id).cost == []
  {
    if ops != [] {
      var past := ops[..|ops| - 1];
      NoCostsListed(s, past, id, gen);
      EveryRun(s, past, UnitCost(id, gen));
      DefinitionFits(Run(s, past).contracts, id, UnitCost(id, gen));
    }
  }

  lemma DefinitionFits(t: Table<Contract>, id: U64, f: Objective -> bool)
    requires Every(t, f)
    ensures Definition(t, id).Some? ==> Definition(t, id).value.id == id && f(Definition(t, id).value)
  {
    EveryFlat(t, f);
    NewestFits(Objectives(t), id, f);
  }

  ghost predicate DefinedBy(slot: Option<Accumulator>, id: U64, f: Objective -> bool) {
    slot.Some? ==> slot.value.def.id == id && f(slot.value.def)
  }

  lemma DefinedOnce(slot: Option<Accumulator>, u: Update, id: U64, f: Objective -> bool)
    requires DefinedBy(slot, id, f) && (u.Opens() ==> u.o.id == id && f(u.o))
    ensures DefinedBy(Apply(slot, u), id, f)
  {
    if u.Take? {
      AbsorbKeeps(Opened(slot, u.o), u.o, u.e);
    }
  }

  /** The definition of every accumulator is one that some contract had. */
  lemma {:induction false} DefinedOverLife(slot: Option<Accumulator>, us: seq<Update>, id: U64, f: Objective -> bool)
    requires DefinedBy(slot, id, f)
    requires forall i {:trigger us[i]} :: 0 <= i < |us| && us[i].Opens() ==> us[i].o.id == id && f(us[i].o)
    ensures DefinedBy(Life(slot, us), id, f)
  {
    if us != [] {
      var past, u := us[..|us| - 1], us[|us| - 1];
      assert forall i :: 0 <= i < |past| ==> past[i] == us[i];
      DefinedOverLife(slot, past, id, f);
      DefinedOnce(Life(slot, past), u, id, f);
    }
  }

  lemma DefinedOverRun(s: State, ops: seq<Op>, id: U64, f: Objective -> bool)
    requires LegalRun(s, ops) && Every(s.contracts, f) && AllBring(s, ops, f) && DefinedBy(Slot(s.accs, id), id, f)
    ensures DefinedBy(Slot(Run(s, ops).accs, id), id, f)
  {
    RunUpdatesCaused(s, ops, id, f);
    var us := RunUpdates(s, ops, id);
    forall i | 0 <= i < |us| && us[i].Opens() ensures us[i].o.id == id && f(us[i].o) {
      assert CausedBySome(us[i], ops, id, f);
    }
    DefinedOverLife(Slot(s.accs, id), us, id, f);
    RunIsLife(s, ops, id);
  }

  lemma UnlistedIsUndecided(acc: Accumulator, o: Objective, now: I64)
    requires acc.def.dim.Cost? && acc.cost == []
    ensures JudgementOn(acc, o, now).state == InsufficientEvidence
  {}

  /** Objectives for costs per request or per token are never decided, however much evidence is answered Ok:
      freshness is read off the list of costs, where their evidence does not go. */
  lemma UnitCostUndecided(s: State, ops: seq<Op>, id: U64, gen: U64, o: Objective, now: I64)
    requires LegalRun(s, ops) && NoLoad(ops) && id !in s.accs && o.id == id && UnitCost(id, gen)(o)
    requires Every(s.contracts, UnitCost(id, gen)) && AllBring(s, ops, UnitCost(id, gen))
    ensures JudgementOn(Opened(Slot(Run(s, ops).accs, id), o), o, now).state == InsufficientEvidence
  {
    var slot := Slot(Run(s, ops).accs, id);
    WeakerEvery(s.contracts, id, gen);
    WeakerBring(s, ops, id, gen);
    StockOverRun(s, ops, id, gen, Nothing);
    NoCostsListed(s, ops, id, gen);
    DefinedOverRun(s, ops, id, UnitCost(id, gen));
    UnlistedIsUndecided(Opened(slot, o), o, now);
  }

  /** A contract with such an objective gets no verdict and asks for no action, whatever its other objectives
      are at. */
  lemma UnitCostHidesContract(s: State, ops: seq<Op>, op: Op, k: nat, o: Objective, gen: U64)
    requires LegalRun(s, ops) && NoLoad(ops) && op.Evaluate? && Legal(Run(s, ops), op)
    requires Step(Run(s, ops), op).1.Evaluated? && k < |Chosen(Run(s, ops), op).value.objectives|
    requires o == Chosen(Run(s, ops), op).value.objectives[k] && o.id !in s.accs
    requires var os := Chosen(Run(s, ops), op).value.objectives; forall i {:trigger os[i]} :: 0 <= i < k ==> os[i].id != o.id
    requires Every(s.contracts, UnitCost(o.id, gen)) && AllBring(s, ops, UnitCost(o.id, gen))
    ensures var ev := Step(Run(s, ops), op).1.evaluation;
      (ev.compliance.InsufficientEvidence? || ev.compliance.RevalidationRequired?) && ev.intent.action.NoAction?
  {
    var t := Run(s, ops);
    EvaluationParts(t, op);
    var os := Chosen(t, op).value.objectives;
    EveryRun(s, ops, UnitCost(o.id, gen));
    ChosenFits(t, op, UnitCost(o.id, gen));
    UnitCostUndecided(s, ops, o.id, gen, o, op.now);
    JudgedFirst(t.accs, os, op.now, k);
    JudgeAllAt(t.accs, os, op.now, k);
    HiddenVerdict(JudgeAll(t.accs, os, op.now), k);
  }

  lemma HiddenVerdict(js: seq<Judgement>, k: nat)
    requires k < |js| && js[k].state.InsufficientEvidence?
    ensures Decide(js) == Verdict(InsufficientEvidence, None) || Decide(js) == Verdict(RevalidationRequired, None)
  {}

  lemma WeakerIn(os: seq<Objective>, id: U64, gen: U64)
    requires EveryIn(os, UnitCost(id, gen))
    ensures EveryIn(os, OneGeneration(id, gen))
  {
    forall i | 0 <= i < |os| ensures OneGeneration(id, gen)(os[i]) {
      assert UnitCost(id, gen)(os[i]);
    }
  }

  lemma WeakerEvery(t: Table<Contract>, id: U64, gen: U64)
    requires Every(t, UnitCost(id, gen))
    ensures Every(t, OneGeneration(id, gen))
  {
    forall i | 0 <= i < |t| ensures EveryIn(t[i].value.objectives, OneGeneration(id, gen)) {
      WeakerIn(t[i].value.objectives, id, gen);
    }
  }

  lemma WeakerOnce(s: State, op: Op, id: U64, gen: U64)
    requires Brings(s, op, UnitCost(id, gen))
    ensures Brings(s, op, OneGeneration(id, gen))
  {
    match op
    case AddContract(c) => if DoAddContract(s, c).1 == Answer(Ok) { WeakerIn(c.objectives, id, gen); }
    case SupersedeContract(c) => if DoSupersede(s, c).1 == Answer(Ok) { WeakerIn(c.objectives, id, gen); }
    case Load(d) => WeakerEvery(ContractTable(d.contracts), id, gen);
    case _ =>
  }

  lemma {:induction false} WeakerBring(s: State, ops: seq<Op>, id: U64, gen: U64)
    requires LegalRun(s, ops) && AllBring(s, ops, UnitCost(id, gen))
    ensures AllBring(s, ops, OneGeneration(id, gen))
  {
    if ops != [] {
      WeakerBring(s, ops[..|ops| - 1], id, gen);
      WeakerOnce(Run(s, ops[..|ops| - 1]), ops[|ops| - 1], id, gen);
    }
  }

  // ----- Availability in percent -----

  /** A percentage is accepted as availability evidence and taken for basis points: even a full hundred percent
      is credited with no more than a hundredth of its weight. */
  lemma PercentCountsForLittle(t: Stock, slot: Option<Accumulator>, def: Objective, e: Evidence)
    requires e.dimension.Availability? && def.dim.Availability? && e.value.Percentage? && 0.0 <= RealOf(e.value.d) <= 100.0
    ensures UnitCompatible(def, e.value)
    ensures var t' := Received(t, slot, def, e);
      && t'.overTime.served - t.overTime.served <= Hundredth(t'.overTime.eligible - t.overTime.eligible)
      && t'.overRequests.served - t.overRequests.served <= Hundredth(t'.overRequests.eligible - t.overRequests.eligible)
  {
    ServedOfPercent(RealOf(e.value.d), if e.sampleCount < 1 then 1 else e.sampleCount);
  }

  function Hundredth(n: int): int {
    n / 100
  }

  lemma ServedOfPercent(value: real, weight: nat)
    requires 0.0 <= value <= 100.0
    ensures Served(value, weight) <= Hundredth(weight)
  {
    var share := value / 10000.0;
    var units := SmallShare(share, weight as real);
    assert units == value / 10000.0 * weight as real;
    TruncatedExactly(units, Truncated(units));
    assert Truncated(units) as real <= weight as real / 100.0;
  }

  lemma SmallShare(share: real, m: real) returns (units: real)
    requires 0.0 <= share <= 0.01 && m >= 0.0
    ensures units == share * m && 0.0 <= units <= m / 100.0
  {
    units := share * m;
    if m > 0.0 {
      Decisions.NotNegative(share, m);
      Decisions.NotNegative(0.01 - share, m);
      assert (0.01 - share) * m == m / 100.0 - units;
    }
  }
}
