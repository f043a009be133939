/** The layout of the state file body: for every record, the bytes that stand for it, what the
    decoder takes them to be, and which records the decoder accepts. */
module Codec {
  import opened Types
  import opened EnumBytes
  import opened Binary

  const MAGIC: nat := 0x534C_4F46
  const VERSION: nat := 2
  const MAX_BYTES: nat := 256 * 1024 * 1024
  const MAX_ITEMS: nat := 0x10_0000

  // ----- Doubles, by their bits (IEEE 754 binary64) -----

  const INFINITY: U64 := 0x7FF0_0000_0000_0000
  const ONE: U64 := 0x3FF0_0000_0000_0000
  const HUNDRED: U64 := 0x4059_0000_0000_0000
  const TEN_TO_300: U64 := 0x7E37_E43C_8800_759C

  function Magnitude(d: Double): U64 {
    if d.bits < TWO_63 then d.bits else d.bits - TWO_63
  }

  predicate IsNaN(d: Double) {
    Magnitude(d) > INFINITY
  }

  /** d < 0.0, false of both zeros and of every NaN. */
  predicate BelowZero(d: Double) {
    !IsNaN(d) && d.bits > TWO_63
  }

  /** d > the positive double with bits `limit`, false of every NaN. */
  predicate Above(d: Double, limit: U64) {
    !IsNaN(d) && d.bits < TWO_63 && d.bits > limit
  }

  predicate ValidPercentage(d: Double) {
    !IsNaN(d) && !BelowZero(d) && !Above(d, HUNDRED)
  }

  predicate ValidPressure(d: Double) {
    !IsNaN(d) && !BelowZero(d)
  }

  predicate ValidRate(d: Double) {
    !IsNaN(d) && !BelowZero(d) && !Above(d, TEN_TO_300)
  }

  /** The range test on a fraction rejects what lies outside [0, 1]; a NaN passes it. */
  predicate FractionPasses(d: Double) {
    !BelowZero(d) && !Above(d, ONE)
  }

  // ----- Values -----

  function PutValue(v: Value, rest: seq<byte>): seq<byte> {
    match v
    case Nanoseconds(i) => PutByte(0, PutI64(i, rest))
    case ByteCount(i) => PutByte(1, PutI64(i, rest))
    case Count(i) => PutByte(2, PutI64(i, rest))
    case BasisPoints(i) => PutByte(3, PutI64(i, rest))
    case Percentage(d) => PutByte(4, PutDouble(d, rest))
    case PressureRatio(d) => PutByte(5, PutDouble(d, rest))
    case RequestsPerSecond(d) => PutByte(6, PutDouble(d, rest))
    case TokensPerSecond(d) => PutByte(7, PutDouble(d, rest))
    case BytesPerSecond(d) => PutByte(8, PutDouble(d, rest))
    case OperationsPerSecond(d) => PutByte(9, PutDouble(d, rest))
    case CostMicros(i) => PutByte(10, PutI64(i, rest))
    case EnergyJoules(i) => PutByte(11, PutI64(i, rest))
  }

  /** The value that a tag selects, from the eight bytes behind the tag. */
  function ValueOf(tag: byte, word: U64): Option<Value> {
    var i, d := Signed64(word), Double(word);
    if tag == 0 then Some(Nanoseconds(i))
    else if tag == 1 then Some(ByteCount(i))
    else if tag == 2 then Some(Count(i))
    else if tag == 3 then Some(BasisPoints(i))
    else if tag == 4 then (if ValidPercentage(d) then Some(Percentage(d)) else None)
    else if tag == 5 then (if ValidPressure(d) then Some(PressureRatio(d)) else None)
    else if tag == 6 then (if ValidRate(d) then Some(RequestsPerSecond(d)) else None)
    else if tag == 7 then (if ValidRate(d) then Some(TokensPerSecond(d)) else None)
    else if tag == 8 then (if ValidRate(d) then Some(BytesPerSecond(d)) else None)
    else if tag == 9 then (if ValidRate(d) then Some(OperationsPerSecond(d)) else None)
    else if tag == 10 then (if i < 0 then None else Some(CostMicros(i)))
    else if tag == 11 then (if i < 0 then None else Some(EnergyJoules(i)))
    else None
  }

  function GetValue(s: seq<byte>): Option<(Value, seq<byte>)> {
    var (tag, s) :- GetByte(s);
    var (word, s) :- GetU64(s);
    var v :- ValueOf(tag, word);
    Some((v, s))
  }

  predicate GoodValue(v: Value) {
    match v
    case Percentage(d) => ValidPercentage(d)
    case PressureRatio(d) => ValidPressure(d)
    case RequestsPerSecond(d) => ValidRate(d)
    case TokensPerSecond(d) => ValidRate(d)
    case BytesPerSecond(d) => ValidRate(d)
    case OperationsPerSecond(d) => ValidRate(d)
    case CostMicros(i) => i >= 0
    case EnergyJoules(i) => i >= 0
    case _ => true
  }

  function PutOption(v: Option<Value>, rest: seq<byte>): seq<byte> {
    PutBool(v.Some?, if v.Some? then PutValue(v.value, rest) else rest)
  }

  function GetOption(s: seq<byte>): Option<(Option<Value>, seq<byte>)> {
    var (has, s) :- GetBool(s);
    if !has then Some((None, s)) else
    var (v, s) :- GetValue(s);
    Some((Some(v), s))
  }

  predicate GoodOption(v: Option<Value>) {
    v.Some? ==> GoodValue(v.value)
  }

  // ----- Objectives -----

  function PutObjective(o: Objective, rest: seq<byte>): seq<byte> {
    PutU64(o.id, PutU64(o.gen, PutText(o.name,
    PutByte(DimensionByte(o.dim), PutByte(ObjectiveKindByte(o.kind),
    PutByte(ComparisonByte(o.comparison), PutByte(HardSoftByte(o.hard),
    PutByte(EnforcementClassByte(o.enforcement), PutLimits(o, rest)))))))))
  }

  function PutLimits(o: Objective, rest: seq<byte>): seq<byte> {
    PutValue(o.target, PutOption(o.breach, PutOption(o.recovery, PutRequirements(o, rest))))
  }

  function PutRequirements(o: Objective, rest: seq<byte>): seq<byte> {
    PutI64(o.minEvidence, PutDouble(o.uncertainty, PutI64(o.freshnessTtl, PutI64(o.grace, PutWindow(o, rest)))))
  }

  function PutWindow(o: Objective, rest: seq<byte>): seq<byte> {
    PutByte(WindowTypeByte(o.windowType), PutI64(o.windowDuration, PutI64(o.windowCount,
    PutI32(o.priority, PutDouble(o.percentileRank,
    PutByte(AvailabilityModeByte(o.availabilityMode), PutByte(RateTagByte(o.rateTag), rest)))))))
  }

  datatype Head = Head(
    id: U64, gen: U64, name: Text, dim: Dimension, kind: ObjectiveKind, comparison: Comparison,
    hard: HardSoft, enforcement: EnforcementClass)

  datatype Limits = Limits(target: Value, breach: Option<Value>, recovery: Option<Value>)

  datatype Requirements = Requirements(minEvidence: I64, uncertainty: Double, freshnessTtl: I64, grace: I64)

  datatype Tail = Tail(
    windowType: WindowType, windowDuration: I64, windowCount: I64, priority: I32,
    percentileRank: Double, availabilityMode: AvailabilityMode, rateTag: RateTag)

  function Assemble(h: Head, l: Limits, r: Requirements, t: Tail): Objective {
    Objective(h.id, h.gen, h.name, h.dim, h.kind, h.comparison, h.hard, h.enforcement,
              l.target, l.breach, l.recovery, r.minEvidence, r.uncertainty, r.freshnessTtl, r.grace,
              t.windowType, t.windowDuration, t.windowCount, t.priority, t.percentileRank,
              t.availabilityMode, t.rateTag)
  }

  function GetHead(s: seq<byte>): Option<(Head, seq<byte>)> {
    var (id, s) :- GetU64(s);
    var (gen, s) :- GetU64(s);
    var (name, s) :- GetText(s, MAX_BYTES);
    var (b, s) :- GetByte(s);
    var dim :- DimensionOf(b);
    var (b, s) :- GetByte(s);
    var kind :- ObjectiveKindOf(b);
    var (b, s) :- GetByte(s);
    var comparison :- ComparisonOf(b);
    var (b, s) :- GetByte(s);
    var hard :- HardSoftOf(b);
    var (b, s) :- GetByte(s);
    var enforcement :- EnforcementClassOf(b);
    Some((Head(id, gen, name, dim, kind, comparison, hard, enforcement), s))
  }

  function GetLimits(s: seq<byte>): Option<(Limits, seq<byte>)> {
    var (target, s) :- GetValue(s);
    var (breach, s) :- GetOption(s);
    var (recovery, s) :- GetOption(s);
    Some((Limits(target, breach, recovery), s))
  }

  function GetRequirements(s: seq<byte>): Option<(Requirements, seq<byte>)> {
    var (minEvidence, s) :- GetI64(s);
    var _ :- Guard(minEvidence >= 0);
    var (uncertainty, s) :- GetDouble(s);
    var _ :- Guard(FractionPasses(uncertainty));
    var (ttl, s) :- GetI64(s);
    var _ :- Guard(ttl >= 0);
    var (grace, s) :- GetI64(s);
    Some((Requirements(minEvidence, uncertainty, ttl, grace), s))
  }

  function GetTail(s: seq<byte>): Option<(Tail, seq<byte>)> {
    var (b, s) :- GetByte(s);
    var windowType :- WindowTypeOf(b);
    var (duration, s) :- GetI64(s);
    var (count, s) :- GetI64(s);
    var _ :- Guard(count > 0);
    var (priority, s) :- GetI32(s);
    var (rank, s) :- GetDouble(s);
    var _ :- Guard(FractionPasses(rank));
    var (b, s) :- GetByte(s);
    var mode :- AvailabilityModeOf(b);
    var (b, s) :- GetByte(s);
    var rate :- RateTagOf(b);
    Some((Tail(windowType, duration, count, priority, rank, mode, rate), s))
  }

  function GetObjective(s: seq<byte>): Option<(Objective, seq<byte>)> {
    var (head, s) :- GetHead(s);
    var (limits, s) :- GetLimits(s);
    var (requirements, s) :- GetRequirements(s);
    var (tail, s) :- GetTail(s);
    var o := Assemble(head, limits, requirements, tail);
    var _ :- Guard(o.TargetUnitMatches());
    Some((o, s))
  }

  /** What the decoder demands of an objective, which is more than registration demands. */
  predicate GoodObjective(o: Objective) {
    && |o.name| <= 0x1000_0000 && GoodLimits(o) && GoodRequirements(o)
    && o.windowCount > 0 && FractionPasses(o.percentileRank)
    && o.TargetUnitMatches()
  }

  predicate GoodLimits(o: Objective) {
    GoodValue(o.target) && GoodOption(o.breach) && GoodOption(o.recovery)
  }

  predicate GoodRequirements(o: Objective) {
    o.minEvidence >= 0 && FractionPasses(o.uncertainty) && o.freshnessTtl >= 0
  }

  // ----- Contracts -----

  /** The length that the writer puts in front of a list. No list in memory has 2^64 elements. */
  function PutCount(n: nat, rest: seq<byte>): seq<byte> {
    PutU64(if n < TWO_64 then n else TWO_64 - 1, rest)
  }

  function GetCount(s: seq<byte>): Option<(U64, seq<byte>)> {
    var (n, s) :- GetU64(s);
    var _ :- Guard(n <= MAX_ITEMS);
    Some((n, s))
  }

  function PutExpiration(e: Option<I64>, rest: seq<byte>): seq<byte> {
    PutBool(e.Some?, if e.Some? then PutI64(e.value, rest) else rest)
  }

  function GetExpiration(s: seq<byte>): Option<(Option<I64>, seq<byte>)> {
    var (has, s) :- GetBool(s);
    if !has then Some((None, s)) else
    var (e, s) :- GetI64(s);
    Some((Some(e), s))
  }

  function PutContract(c: Contract, rest: seq<byte>): seq<byte> {
    PutU64(c.id, PutU64(c.gen, PutU64(c.service, PutU64(c.workload, PutU64(c.tenant,
    PutCount(|c.objectives|, PutAll(PutObjective, c.objectives, PutTerms(c, rest))))))))
  }

  function PutTerms(c: Contract, rest: seq<byte>): seq<byte> {
    PutU64(c.policyId, PutU64(c.policyGen, PutI64(c.effectiveFrom, PutExpiration(c.expiration,
    PutU64(c.epoch, PutByte(ContractLifecycleByte(c.lifecycle), PutText(c.name, PutText(c.provenance, rest))))))))
  }

  datatype Terms = Terms(
    policyId: U64, policyGen: U64, effectiveFrom: I64, expiration: Option<I64>, epoch: U64,
    lifecycle: ContractLifecycle, name: Text, provenance: Text)

  function GetTerms(s: seq<byte>): Option<(Terms, seq<byte>)> {
    var (policyId, s) :- GetU64(s);
    var (policyGen, s) :- GetU64(s);
    var (effectiveFrom, s) :- GetI64(s);
    var (expiration, s) :- GetExpiration(s);
    var (epoch, s) :- GetU64(s);
    var (b, s) :- GetByte(s);
    var lifecycle :- ContractLifecycleOf(b);
    var (name, s) :- GetText(s, MAX_BYTES);
    var (provenance, s) :- GetText(s, MAX_BYTES);
    Some((Terms(policyId, policyGen, effectiveFrom, expiration, epoch, lifecycle, name, provenance), s))
  }

  function GetContract(s: seq<byte>): Option<(Contract, seq<byte>)> {
    var (id, s) :- GetU64(s);
    var (gen, s) :- GetU64(s);
    var (service, s) :- GetU64(s);
    var (workload, s) :- GetU64(s);
    var (tenant, s) :- GetU64(s);
    var (n, s) :- GetCount(s);
    var (objectives, s) :- GetAll(GetObjective, n, s);
    var (t, s) :- GetTerms(s);
    Some((Contract(id, gen, service, workload, tenant, objectives, t.policyId, t.policyGen,
                   t.effectiveFrom, t.expiration, t.epoch, t.lifecycle, t.name, t.provenance), s))
  }

  ghost predicate GoodContract(c: Contract) {
    && |c.objectives| <= 0x10_0000 && All(GoodObjective, c.objectives)
    && |c.name| <= 0x1000_0000 && |c.provenance| <= 0x1000_0000
  }

  // ----- Policies -----

  function PutPolicy(p: Policy, rest: seq<byte>): seq<byte> {
    PutU64(p.id, PutU64(p.gen, PutByte(PolicyModeByte(p.mode), PutByte(TieBreakByte(p.tieBreak),
    PutText(p.name, PutText(p.description, rest))))))
  }

  function GetPolicy(s: seq<byte>): Option<(Policy, seq<byte>)> {
    var (id, s) :- GetU64(s);
    var (gen, s) :- GetU64(s);
    var (b, s) :- GetByte(s);
    var mode :- PolicyModeOf(b);
    var (b, s) :- GetByte(s);
    var tieBreak :- TieBreakOf(b);
    var (name, s) :- GetText(s, MAX_BYTES);
    var (description, s) :- GetText(s, MAX_BYTES);
    Some((Policy(id, gen, mode, tieBreak, name, description), s))
  }

  predicate GoodPolicy(p: Policy) {
    |p.name| <= 0x1000_0000 && |p.description| <= 0x1000_0000
  }

  // ----- Receipts, snapshots, evaluations -----

  function PutReceipt(r: Receipt, rest: seq<byte>): seq<byte> {
    PutU64(r.id, PutU64(r.gen,
    PutByte(EnforcementActionByte(r.action), PutByte(EnforcementLifecycleByte(r.lifecycle),
    PutU64(r.epoch, PutU64(r.contractGen, PutU64(r.policyGen, PutSubject(r, rest))))))))
  }

  function PutSubject(r: Receipt, rest: seq<byte>): seq<byte> {
    PutU64(r.evaluationId, PutU64(r.evaluationGen, PutU64(r.workloadGen, PutU64(r.service, PutU64(r.workload,
    PutU64(r.objectiveId, PutU64(r.objectiveGen, PutText(r.reason, rest))))))))
  }

  datatype Subject = Subject(
    evaluationId: U64, evaluationGen: U64, workloadGen: U64, service: U64, workload: U64,
    objectiveId: U64, objectiveGen: U64, reason: Text)

  function GetSubject(s: seq<byte>): Option<(Subject, seq<byte>)> {
    var (evaluationId, s) :- GetU64(s);
    var (evaluationGen, s) :- GetU64(s);
    var (workloadGen, s) :- GetU64(s);
    var (service, s) :- GetU64(s);
    var (workload, s) :- GetU64(s);
    var (objectiveId, s) :- GetU64(s);
    var (objectiveGen, s) :- GetU64(s);
    var (reason, s) :- GetText(s, MAX_BYTES);
    Some((Subject(evaluationId, evaluationGen, workloadGen, service, workload, objectiveId, objectiveGen, reason), s))
  }

  function GetReceipt(s: seq<byte>): Option<(Receipt, seq<byte>)> {
    var (id, s) :- GetU64(s);
    var (gen, s) :- GetU64(s);
    var (b, s) :- GetByte(s);
    var action :- EnforcementActionOf(b);
    var (b, s) :- GetByte(s);
    var lifecycle :- EnforcementLifecycleOf(b);
    var (epoch, s) :- GetU64(s);
    var (contractGen, s) :- GetU64(s);
    var (policyGen, s) :- GetU64(s);
    var (t, s) :- GetSubject(s);
    Some((Receipt(id, gen, action, lifecycle, epoch, contractGen, policyGen, t.evaluationId, t.evaluationGen,
                  t.workloadGen, t.service, t.workload, t.objectiveId, t.objectiveGen, t.reason), s))
  }

  predicate GoodReceipt(r: Receipt) {
    |r.reason| <= 0x1000_0000
  }

  function PutSnapshot(p: ObjectiveSnapshot, rest: seq<byte>): seq<byte> {
    PutU64(p.objectiveId, PutU64(p.objectiveGen, PutI64(p.budgetTotal, PutI64(p.budgetConsumed,
    PutI64(p.budgetWindow, PutI64(p.budgetWindowStart, PutByte(ComplianceStateByte(p.lastState),
    PutI64(p.lastStateTime, PutI64(p.cooldownUntil, rest)))))))))
  }

  function GetSnapshot(s: seq<byte>): Option<(ObjectiveSnapshot, seq<byte>)> {
    var (id, s) :- GetU64(s);
    var (gen, s) :- GetU64(s);
    var (total, s) :- GetI64(s);
    var _ :- Guard(total >= 0);
    var (consumed, s) :- GetI64(s);
    var _ :- Guard(consumed >= 0);
    var (window, s) :- GetI64(s);
    var (start, s) :- GetI64(s);
    var (b, s) :- GetByte(s);
    var lastState :- ComplianceStateOf(b);
    var (lastStateTime, s) :- GetI64(s);
    var (cooldownUntil, s) :- GetI64(s);
    Some((ObjectiveSnapshot(id, gen, total, consumed, window, start, lastState, lastStateTime, cooldownUntil), s))
  }

  predicate GoodSnapshot(p: ObjectiveSnapshot) {
    p.budgetTotal >= 0 && p.budgetConsumed >= 0
  }

  function PutEvaluation(e: EvaluationRecord, rest: seq<byte>): seq<byte> {
    PutU64(e.evaluationId, PutU64(e.evaluationGen, PutU64(e.contractGen, PutU64(e.policyGen,
    PutU64(e.evidenceGen, PutU64(e.epoch, PutVerdict(e, rest)))))))
  }

  function PutVerdict(e: EvaluationRecord, rest: seq<byte>): seq<byte> {
    PutI64(e.time, PutByte(ComplianceStateByte(e.compliance), PutByte(DimensionByte(e.bindingDimension),
    PutU64(e.bindingObjective, PutByte(EnforcementActionByte(e.selectedAction), PutU64(e.digest, rest))))))
  }

  datatype Verdict = Verdict(
    time: I64, compliance: ComplianceState, dimension: Dimension, objective: U64,
    action: EnforcementAction, digest: U64)

  function GetVerdict(s: seq<byte>): Option<(Verdict, seq<byte>)> {
    var (time, s) :- GetI64(s);
    var (b, s) :- GetByte(s);
    var compliance :- ComplianceStateOf(b);
    var (b, s) :- GetByte(s);
    var dimension :- DimensionOf(b);
    var (objective, s) :- GetU64(s);
    var (b, s) :- GetByte(s);
    var action :- EnforcementActionOf(b);
    var (digest, s) :- GetU64(s);
    Some((Verdict(time, compliance, dimension, objective, action, digest), s))
  }

  function GetEvaluation(s: seq<byte>): Option<(EvaluationRecord, seq<byte>)> {
    var (evaluationId, s) :- GetU64(s);
    var (evaluationGen, s) :- GetU64(s);
    var (contractGen, s) :- GetU64(s);
    var (policyGen, s) :- GetU64(s);
    var (evidenceGen, s) :- GetU64(s);
    var (epoch, s) :- GetU64(s);
    var (v, s) :- GetVerdict(s);
    Some((EvaluationRecord(evaluationId, evaluationGen, contractGen, policyGen, evidenceGen, epoch,
                           v.time, v.compliance, v.dimension, v.objective, v.action, v.digest), s))
  }

  // ----- The whole state -----

  function PutList<T>(put: (T, seq<byte>) -> seq<byte>, xs: seq<T>, rest: seq<byte>): seq<byte> {
    PutCount(|xs|, PutAll(put, xs, rest))
  }

  function GetList<T>(get: seq<byte> -> Option<(T, seq<byte>)>, s: seq<byte>): Option<(seq<T>, seq<byte>)> {
    var (n, s) :- GetCount(s);
    GetAll(get, n, s)
  }

  function PutState(st: DurableState, rest: seq<byte>): seq<byte> {
    PutU32(MAGIC, PutU32(VERSION, PutU64(st.epoch,
    PutList(PutPolicy, st.policies, PutList(PutContract, st.contracts, PutRecords(st, rest))))))
  }

  /** The lists that a run of the fabric writes, behind those it was configured with. */
  function PutRecords(st: DurableState, rest: seq<byte>): seq<byte> {
    PutList(PutSnapshot, st.snapshots, PutList(PutReceipt, st.receipts, PutList(PutEvaluation, st.evaluations, rest)))
  }

  function GetState(s: seq<byte>): Option<(DurableState, seq<byte>)> {
    var (magic, s) :- GetU32(s);
    var _ :- Guard(magic == MAGIC);
    var (version, s) :- GetU32(s);
    var _ :- Guard(version == VERSION);
    var (epoch, s) :- GetU64(s);
    var (policies, s) :- GetList(GetPolicy, s);
    var (contracts, s) :- GetList(GetContract, s);
    var (snapshots, s) :- GetList(GetSnapshot, s);
    var (receipts, s) :- GetList(GetReceipt, s);
    var (evaluations, s) :- GetList(GetEvaluation, s);
    Some((DurableState(epoch, policies, contracts, snapshots, receipts, evaluations), s))
  }

  /** The body of a state file. */
  function Serialize(st: DurableState): seq<byte> {
    PutState(st, [])
  }

  function Deserialize(s: seq<byte>): Option<DurableState> {
    if |s| > MAX_BYTES then None else
    var (st, rest) :- GetState(s);
    if rest == [] then Some(st) else None
  }

  ghost predicate GoodList<T>(good: T -> bool, xs: seq<T>) {
    |xs| <= 0x10_0000 && All(good, xs)
  }

  ghost predicate GoodContracts(cs: seq<Contract>) {
    |cs| <= 0x10_0000 && forall i {:trigger cs[i]} :: 0 <= i < |cs| ==> GoodContract(cs[i])
  }

  /** What the decoder demands of a state beyond its size. */
  ghost predicate GoodState(st: DurableState) {
    && GoodList(GoodPolicy, st.policies) && GoodContracts(st.contracts)
    && GoodList(GoodSnapshot, st.snapshots) && GoodList(GoodReceipt, st.receipts)
    && |st.evaluations| <= 0x10_0000
  }
}
