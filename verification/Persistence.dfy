/** Saving and loading the state: the encoders and decoders record by record, and the file image
    with its checksum footer. */
module Persistence {
  import opened Types
  import opened EnumBytes
  import opened Binary
  import opened Codec
  import opened ByteStreams
  import CodecProofs
  import Crc32
  import ShiftRegister

  // ----- Encoders -----

  method EncodeValue(w: ByteWriter, v: Value)
    modifies w
    ensures forall rest {:trigger w.buf + rest} :: w.buf + rest == old(w.buf) + PutValue(v, rest)
  {
    match v
    case Nanoseconds(i) => EncodeInteger(w, 0, i);
    case ByteCount(i) => EncodeInteger(w, 1, i);
    case Count(i) => EncodeInteger(w, 2, i);
    case BasisPoints(i) => EncodeInteger(w, 3, i);
    case Percentage(d) => EncodeReal(w, 4, d);
    case PressureRatio(d) => EncodeReal(w, 5, d);
    case RequestsPerSecond(d) => EncodeReal(w, 6, d);
    case TokensPerSecond(d) => EncodeReal(w, 7, d);
    case BytesPerSecond(d) => EncodeReal(w, 8, d);
    case OperationsPerSecond(d) => EncodeReal(w, 9, d);
    case CostMicros(i) => EncodeInteger(w, 10, i);
    case EnergyJoules(i) => EncodeInteger(w, 11, i);
  }

  method EncodeInteger(w: ByteWriter, tag: byte, i: I64)
    modifies w
    ensures forall rest {:trigger w.buf + rest} :: w.buf + rest == old(w.buf) + PutByte(tag, PutI64(i, rest))
  {
    w.WriteByte(tag);
    w.WriteI64(i);
  }

  method EncodeReal(w: ByteWriter, tag: byte, d: Double)
    modifies w
    ensures forall rest {:trigger w.buf + rest} :: w.buf + rest == old(w.buf) + PutByte(tag, PutDouble(d, rest))
  {
    w.WriteByte(tag);
    w.WriteDouble(d);
  }

  method EncodeOption(w: ByteWriter, v: Option<Value>)
    modifies w
    ensures forall rest {:trigger w.buf + rest} :: w.buf + rest == old(w.buf) + PutOption(v, rest)
  {
    w.WriteBool(v.Some?);
    if v.Some? {
      EncodeValue(w, v.value);
    }
  }

  method EncodeObjective(w: ByteWriter, o: Objective)
    modifies w
    ensures forall rest {:trigger w.buf + rest} :: w.buf + rest == old(w.buf) + PutObjective(o, rest)
  {
    w.WriteU64(o.id);
    w.WriteU64(o.gen);
    w.WriteText(o.name);
    w.WriteByte(DimensionByte(o.dim));
    w.WriteByte(ObjectiveKindByte(o.kind));
    w.WriteByte(ComparisonByte(o.comparison));
    w.WriteByte(HardSoftByte(o.hard));
    w.WriteByte(EnforcementClassByte(o.enforcement));
    EncodeLimits(w, o);
  }

  method EncodeLimits(w: ByteWriter, o: Objective)
    modifies w
    ensures forall rest {:trigger w.buf + rest} :: w.buf + rest == old(w.buf) + PutLimits(o, rest)
  {
    EncodeValue(w, o.target);
    EncodeOption(w, o.breach);
    EncodeOption(w, o.recovery);
    w.WriteI64(o.minEvidence);
    w.WriteDouble(o.uncertainty);
    w.WriteI64(o.freshnessTtl);
    w.WriteI64(o.grace);
    EncodeWindow(w, o);
  }

  method EncodeWindow(w: ByteWriter, o: Objective)
    modifies w
    ensures forall rest {:trigger w.buf + rest} :: w.buf + rest == old(w.buf) + PutWindow(o, rest)
  {
    w.WriteByte(WindowTypeByte(o.windowType));
    w.WriteI64(o.windowDuration);
    w.WriteI64(o.windowCount);
    w.WriteI32(o.priority);
    w.WriteDouble(o.percentileRank);
    w.WriteByte(AvailabilityModeByte(o.availabilityMode));
    w.WriteByte(RateTagByte(o.rateTag));
  }

  method EncodeCount(w: ByteWriter, n: nat)
    modifies w
    ensures forall rest {:trigger w.buf + rest} :: w.buf + rest == old(w.buf) + PutCount(n, rest)
  {
    w.WriteU64(if n < TWO_64 then n else TWO_64 - 1);
  }

  method EncodeContract(w: ByteWriter, c: Contract)
    modifies w
    ensures forall rest {:trigger w.buf + rest} :: w.buf + rest == old(w.buf) + PutContract(c, rest)
  {
    w.WriteU64(c.id);
    w.WriteU64(c.gen);
    w.WriteU64(c.service);
    w.WriteU64(c.workload);
    w.WriteU64(c.tenant);
    EncodeObjectives(w, c.objectives);
    EncodeTerms(w, c);
  }

  method EncodeTerms(w: ByteWriter, c: Contract)
    modifies w
    ensures forall rest {:trigger w.buf + rest} :: w.buf + rest == old(w.buf) + PutTerms(c, rest)
  {
    w.WriteU64(c.policyId);
    w.WriteU64(c.policyGen);
    w.WriteI64(c.effectiveFrom);
    w.WriteBool(c.expiration.Some?);
    if c.expiration.Some? {
      w.WriteI64(c.expiration.value);
    }
    w.WriteU64(c.epoch);
    w.WriteByte(ContractLifecycleByte(c.lifecycle));
    w.WriteText(c.name);
    w.WriteText(c.provenance);
  }

  method EncodePolicy(w: ByteWriter, p: Policy)
    modifies w
    ensures forall rest {:trigger w.buf + rest} :: w.buf + rest == old(w.buf) + PutPolicy(p, rest)
  {
    w.WriteU64(p.id);
    w.WriteU64(p.gen);
    w.WriteByte(PolicyModeByte(p.mode));
    w.WriteByte(TieBreakByte(p.tieBreak));
    w.WriteText(p.name);
    w.WriteText(p.description);
  }

  method EncodeReceipt(w: ByteWriter, x: Receipt)
    modifies w
    ensures forall rest {:trigger w.buf + rest} :: w.buf + rest == old(w.buf) + PutReceipt(x, rest)
  {
    w.WriteU64(x.id);
    w.WriteU64(x.gen);
    w.WriteByte(EnforcementActionByte(x.action));
    w.WriteByte(EnforcementLifecycleByte(x.lifecycle));
    w.WriteU64(x.epoch);
    w.WriteU64(x.contractGen);
    w.WriteU64(x.policyGen);
    w.WriteU64(x.evaluationId);
    w.WriteU64(x.evaluationGen);
    w.WriteU64(x.workloadGen);
    w.WriteU64(x.service);
    w.WriteU64(x.workload);
    w.WriteU64(x.objectiveId);
    w.WriteU64(x.objectiveGen);
    w.WriteText(x.reason);
  }

  method EncodeSnapshot(w: ByteWriter, p: ObjectiveSnapshot)
    modifies w
    ensures forall rest {:trigger w.buf + rest} :: w.buf + rest == old(w.buf) + PutSnapshot(p, rest)
  {
    w.WriteU64(p.objectiveId);
    w.WriteU64(p.objectiveGen);
    w.WriteI64(p.budgetTotal);
    w.WriteI64(p.budgetConsumed);
    w.WriteI64(p.budgetWindow);
    w.WriteI64(p.budgetWindowStart);
    w.WriteByte(ComplianceStateByte(p.lastState));
    w.WriteI64(p.lastStateTime);
    w.WriteI64(p.cooldownUntil);
  }

  method EncodeEvaluation(w: ByteWriter, e: EvaluationRecord)
    modifies w
    ensures forall rest {:trigger w.buf + rest} :: w.buf + rest == old(w.buf) + PutEvaluation(e, rest)
  {
    w.WriteU64(e.evaluationId);
    w.WriteU64(e.evaluationGen);
    w.WriteU64(e.contractGen);
    w.WriteU64(e.policyGen);
    w.WriteU64(e.evidenceGen);
    w.WriteU64(e.epoch);
    w.WriteI64(e.time);
    w.WriteByte(ComplianceStateByte(e.compliance));
    w.WriteByte(DimensionByte(e.bindingDimension));
    w.WriteU64(e.bindingObjective);
    w.WriteByte(EnforcementActionByte(e.selectedAction));
    w.WriteU64(e.digest);
  }

  method EncodePolicies(w: ByteWriter, xs: seq<Policy>)
    modifies w
    ensures forall rest {:trigger w.buf + rest} :: w.buf + rest == old(w.buf) + PutList(PutPolicy, xs, rest)
  {
    EncodeCount(w, |xs|);
    ghost var counted := w.buf;
    assert xs[0..] == xs;
    for i := 0 to |xs|
      invariant forall rest {:trigger PutAll(PutPolicy, xs, rest)} ::
        w.buf + PutAll(PutPolicy, xs[i..], rest) == counted + PutAll(PutPolicy, xs, rest)
    {
      assert xs[i..][0] == xs[i] && xs[i..][1..] == xs[i + 1..];
      EncodePolicy(w, xs[i]);
    }
  }

  method EncodeContracts(w: ByteWriter, xs: seq<Contract>)
    modifies w
    ensures forall rest {:trigger w.buf + rest} :: w.buf + rest == old(w.buf) + PutList(PutContract, xs, rest)
  {
    EncodeCount(w, |xs|);
    ghost var counted := w.buf;
    assert xs[0..] == xs;
    for i := 0 to |xs|
      invariant forall rest {:trigger PutAll(PutContract, xs, rest)} ::
        w.buf + PutAll(PutContract, xs[i..], rest) == counted + PutAll(PutContract, xs, rest)
    {
      assert xs[i..][0] == xs[i] && xs[i..][1..] == xs[i + 1..];
      EncodeContract(w, xs[i]);
    }
  }

  method EncodeObjectives(w: ByteWriter, xs: seq<Objective>)
    modifies w
    ensures forall rest {:trigger w.buf + rest} :: w.buf + rest == old(w.buf) + PutList(PutObjective, xs, rest)
  {
    EncodeCount(w, |xs|);
    ghost var counted := w.buf;
    assert xs[0..] == xs;
    for i := 0 to |xs|
      invariant forall rest {:trigger PutAll(PutObjective, xs, rest)} ::
        w.buf + PutAll(PutObjective, xs[i..], rest) == counted + PutAll(PutObjective, xs, rest)
    {
      assert xs[i..][0] == xs[i] && xs[i..][1..] == xs[i + 1..];
      EncodeObjective(w, xs[i]);
    }
  }

  method EncodeSnapshots(w: ByteWriter, xs: seq<ObjectiveSnapshot>)
    modifies w
    ensures forall rest {:trigger w.buf + rest} :: w.buf + rest == old(w.buf) + PutList(PutSnapshot, xs, rest)
  {
    EncodeCount(w, |xs|);
    ghost var counted := w.buf;
    assert xs[0..] == xs;
    for i := 0 to |xs|
      invariant forall rest {:trigger PutAll(PutSnapshot, xs, rest)} ::
        w.buf + PutAll(PutSnapshot, xs[i..], rest) == counted + PutAll(PutSnapshot, xs, rest)
    {
      assert xs[i..][0] == xs[i] && xs[i..][1..] == xs[i + 1..];
      EncodeSnapshot(w, xs[i]);
    }
  }

  method EncodeReceipts(w: ByteWriter, xs: seq<Receipt>)
    modifies w
    ensures forall rest {:trigger w.buf + rest} :: w.buf + rest == old(w.buf) + PutList(PutReceipt, xs, rest)
  {
    EncodeCount(w, |xs|);
    ghost var counted := w.buf;
    assert xs[0..] == xs;
    for i := 0 to |xs|
      invariant forall rest {:trigger PutAll(PutReceipt, xs, rest)} ::
        w.buf + PutAll(PutReceipt, xs[i..], rest) == counted + PutAll(PutReceipt, xs, rest)
    {
      assert xs[i..][0] == xs[i] && xs[i..][1..] == xs[i + 1..];
      EncodeReceipt(w, xs[i]);
    }
  }

  method EncodeEvaluations(w: ByteWriter, xs: seq<EvaluationRecord>)
    modifies w
    ensures forall rest {:trigger w.buf + rest} :: w.buf + rest == old(w.buf) + PutList(PutEvaluation, xs, rest)
  {
    EncodeCount(w, |xs|);
    ghost var counted := w.buf;
    assert xs[0..] == xs;
    for i := 0 to |xs|
      invariant forall rest {:trigger PutAll(PutEvaluation, xs, rest)} ::
        w.buf + PutAll(PutEvaluation, xs[i..], rest) == counted + PutAll(PutEvaluation, xs, rest)
    {
      assert xs[i..][0] == xs[i] && xs[i..][1..] == xs[i + 1..];
      EncodeEvaluation(w, xs[i]);
    }
  }

  method EncodeRecords(w: ByteWriter, st: DurableState)
    modifies w
    ensures forall rest {:trigger w.buf + rest} :: w.buf + rest == old(w.buf) + PutRecords(st, rest)
  {
    ghost var b0 := w.buf;
    EncodeSnapshots(w, st.snapshots);
    ghost var b1 := w.buf;
    EncodeReceipts(w, st.receipts);
    ghost var b2 := w.buf;
    EncodeEvaluations(w, st.evaluations);
    forall rest ensures w.buf + rest == b0 + PutRecords(st, rest) {
      ghost var s2 := PutList(PutEvaluation, st.evaluations, rest);
      ghost var s1 := PutList(PutReceipt, st.receipts, s2);
      assert w.buf + rest == b2 + s2;
      assert b2 + s2 == b1 + s1;
      assert b1 + s1 == b0 + PutRecords(st, rest);
    }
  }

  method EncodePreamble(w: ByteWriter, epoch: U64)
    modifies w
    ensures forall rest {:trigger w.buf + rest} ::
      w.buf + rest == old(w.buf) + PutU32(MAGIC, PutU32(VERSION, PutU64(epoch, rest)))
  {
    w.WriteU32(MAGIC);
    w.WriteU32(VERSION);
    w.WriteU64(epoch);
  }

  method EncodeState(w: ByteWriter, st: DurableState)
    modifies w
    ensures forall rest {:trigger w.buf + rest} :: w.buf + rest == old(w.buf) + PutState(st, rest)
  {
    ghost var b0 := w.buf;
    EncodePreamble(w, st.epoch);
    ghost var b1 := w.buf;
    EncodePolicies(w, st.policies);
    ghost var b2 := w.buf;
    EncodeContracts(w, st.contracts);
    ghost var b3 := w.buf;
    EncodeRecords(w, st);
    forall rest ensures w.buf + rest == b0 + PutState(st, rest) {
      ghost var s3 := PutRecords(st, rest);
      ghost var s2 := PutList(PutContract, st.contracts, s3);
      ghost var s1 := PutList(PutPolicy, st.policies, s2);
      assert w.buf + rest == b3 + s3;
      assert b3 + s3 == b2 + s2;
      assert b2 + s2 == b1 + s1;
      assert b1 + s1 == b0 + PutU32(MAGIC, PutU32(VERSION, PutU64(st.epoch, s1)));
    }
  }

  method SerializeState(st: DurableState) returns (bytes: seq<byte>)
    ensures bytes == Serialize(st)
  {
    var w := new ByteWriter();
    EncodeState(w, st);
    bytes := w.buf;
    OnlyThis(bytes, PutState(st, []));
  }

  lemma OnlyThis(b: seq<byte>, x: seq<byte>)
    requires b + [] == [] + x
    ensures b == x
  {
    assert b + [] == b && [] + x == x;
  }

  // ----- Decoders -----

  method DecodeValue(r: ByteReader) returns (res: Option<Value>)
    requires r.Valid()
    modifies r
    ensures r.Valid() && Takes(res, r.Rest(), GetValue(old(r.Rest())))
  {
    var tag :- r.ReadByte();
    var word :- r.ReadU64();
    var v :- ValueOf(tag, word);
    res := Some(v);
  }

  method DecodeOption(r: ByteReader) returns (res: Option<Option<Value>>)
    requires r.Valid()
    modifies r
    ensures r.Valid() && Takes(res, r.Rest(), GetOption(old(r.Rest())))
  {
    var has :- r.ReadBool();
    if !has {
      return Some(None);
    }
    var v :- DecodeValue(r);
    res := Some(Some(v));
  }

  method DecodeHead(r: ByteReader) returns (res: Option<Head>)
    requires r.Valid()
    modifies r
    ensures r.Valid() && Takes(res, r.Rest(), GetHead(old(r.Rest())))
  {
    var id :- r.ReadU64();
    var gen :- r.ReadU64();
    var name :- r.ReadText(MAX_BYTES);
    var b :- r.ReadByte();
    var dim :- DimensionOf(b);
    b :- r.ReadByte();
    var kind :- ObjectiveKindOf(b);
    b :- r.ReadByte();
    var comparison :- ComparisonOf(b);
    b :- r.ReadByte();
    var hard :- HardSoftOf(b);
    b :- r.ReadByte();
    var enforcement :- EnforcementClassOf(b);
    res := Some(Head(id, gen, name, dim, kind, comparison, hard, enforcement));
  }

  method DecodeLimits(r: ByteReader) returns (res: Option<Limits>)
    requires r.Valid()
    modifies r
    ensures r.Valid() && Takes(res, r.Rest(), GetLimits(old(r.Rest())))
  {
    var target :- DecodeValue(r);
    var breach :- DecodeOption(r);
    var recovery :- DecodeOption(r);
    res := Some(Limits(target, breach, recovery));
  }

  method DecodeRequirements(r: ByteReader) returns (res: Option<Requirements>)
    requires r.Valid()
    modifies r
    ensures r.Valid() && Takes(res, r.Rest(), GetRequirements(old(r.Rest())))
  {
    var minEvidence :- r.ReadI64();
    if minEvidence < 0 {
      return None;
    }
    var uncertainty :- r.ReadDouble();
    if !FractionPasses(uncertainty) {
      return None;
    }
    var ttl :- r.ReadI64();
    if ttl < 0 {
      return None;
    }
    var grace :- r.ReadI64();
    res := Some(Requirements(minEvidence, uncertainty, ttl, grace));
  }

  method DecodeTail(r: ByteReader) returns (res: Option<Tail>)
    requires r.Valid()
    modifies r
    ensures r.Valid() && Takes(res, r.Rest(), GetTail(old(r.Rest())))
  {
    var b :- r.ReadByte();
    var windowType :- WindowTypeOf(b);
    var duration :- r.ReadI64();
    var count :- r.ReadI64();
    if count <= 0 {
      return None;
    }
    var priority :- r.ReadI32();
    var rank :- r.ReadDouble();
    if !FractionPasses(rank) {
      return None;
    }
    b :- r.ReadByte();
    var mode :- AvailabilityModeOf(b);
    b :- r.ReadByte();
    var rate :- RateTagOf(b);
    res := Some(Tail(windowType, duration, count, priority, rank, mode, rate));
  }

  method DecodeObjective(r: ByteReader) returns (res: Option<Objective>)
    requires r.Valid()
    modifies r
    ensures r.Valid() && Takes(res, r.Rest(), GetObjective(old(r.Rest())))
  {
    var head :- DecodeHead(r);
    var limits :- DecodeLimits(r);
    var requirements :- DecodeRequirements(r);
    var tail :- DecodeTail(r);
    var o := Assemble(head, limits, requirements, tail);
    if !o.TargetUnitMatches() {
      return None;
    }
    res := Some(o);
  }

  method DecodeCount(r: ByteReader) returns (res: Option<U64>)
    requires r.Valid()
    modifies r
    ensures r.Valid() && Takes(res, r.Rest(), GetCount(old(r.Rest())))
  {
    var n :- r.ReadU64();
    if n > MAX_ITEMS {
      return None;
    }
    res := Some(n);
  }

  method DecodeTerms(r: ByteReader) returns (res: Option<Terms>)
    requires r.Valid()
    modifies r
    ensures r.Valid() && Takes(res, r.Rest(), GetTerms(old(r.Rest())))
  {
    var policyId :- r.ReadU64();
    var policyGen :- r.ReadU64();
    var effectiveFrom :- r.ReadI64();
    var expiration :- DecodeExpiration(r);
    var epoch :- r.ReadU64();
    var b :- r.ReadByte();
    var lifecycle :- ContractLifecycleOf(b);
    var name :- r.ReadText(MAX_BYTES);
    var provenance :- r.ReadText(MAX_BYTES);
    res := Some(Terms(policyId, policyGen, effectiveFrom, expiration, epoch, lifecycle, name, provenance));
  }

  method DecodeExpiration(r: ByteReader) returns (res: Option<Option<I64>>)
    requires r.Valid()
    modifies r
    ensures r.Valid() && Takes(res, r.Rest(), GetExpiration(old(r.Rest())))
  {
    var has :- r.ReadBool();
    if !has {
      return Some(None);
    }
    var e :- r.ReadI64();
    res := Some(Some(e));
  }

  method DecodeContract(r: ByteReader) returns (res: Option<Contract>)
    requires r.Valid()
    modifies r
    ensures r.Valid() && Takes(res, r.Rest(), GetContract(old(r.Rest())))
  {
    var id :- r.ReadU64();
    var gen :- r.ReadU64();
    var service :- r.ReadU64();
    var workload :- r.ReadU64();
    var tenant :- r.ReadU64();
    var objectives :- DecodeObjectives(r);
    var t :- DecodeTerms(r);
    res := Some(Contract(id, gen, service, workload, tenant, objectives, t.policyId, t.policyGen,
                         t.effectiveFrom, t.expiration, t.epoch, t.lifecycle, t.name, t.provenance));
  }

  method DecodePolicy(r: ByteReader) returns (res: Option<Policy>)
    requires r.Valid()
    modifies r
    ensures r.Valid() && Takes(res, r.Rest(), GetPolicy(old(r.Rest())))
  {
    var id :- r.ReadU64();
    var gen :- r.ReadU64();
    var b :- r.ReadByte();
    var mode :- PolicyModeOf(b);
    b :- r.ReadByte();
    var tieBreak :- TieBreakOf(b);
    var name :- r.ReadText(MAX_BYTES);
    var description :- r.ReadText(MAX_BYTES);
    res := Some(Policy(id, gen, mode, tieBreak, name, description));
  }

  method DecodeReceipt(r: ByteReader) returns (res: Option<Receipt>)
    requires r.Valid()
    modifies r
    ensures r.Valid() && Takes(res, r.Rest(), GetReceipt(old(r.Rest())))
  {
    var id :- r.ReadU64();
    var gen :- r.ReadU64();
    var b :- r.ReadByte();
    var action :- EnforcementActionOf(b);
    b :- r.ReadByte();
    var lifecycle :- EnforcementLifecycleOf(b);
    var epoch :- r.ReadU64();
    var contractGen :- r.ReadU64();
    var policyGen :- r.ReadU64();
    var t :- DecodeSubject(r);
    res := Some(Receipt(id, gen, action, lifecycle, epoch, contractGen, policyGen, t.evaluationId, t.evaluationGen,
                        t.workloadGen, t.service, t.workload, t.objectiveId, t.objectiveGen, t.reason));
  }

  method DecodeSubject(r: ByteReader) returns (res: Option<Subject>)
    requires r.Valid()
    modifies r
    ensures r.Valid() && Takes(res, r.Rest(), GetSubject(old(r.Rest())))
  {
    var evaluationId :- r.ReadU64();
    var evaluationGen :- r.ReadU64();
    var workloadGen :- r.ReadU64();
    var service :- r.ReadU64();
    var workload :- r.ReadU64();
    var objectiveId :- r.ReadU64();
    var objectiveGen :- r.ReadU64();
    var reason :- r.ReadText(MAX_BYTES);
    res := Some(Subject(evaluationId, evaluationGen, workloadGen, service, workload, objectiveId, objectiveGen, reason));
  }

  method DecodeSnapshot(r: ByteReader) returns (res: Option<ObjectiveSnapshot>)
    requires r.Valid()
    modifies r
    ensures r.Valid() && Takes(res, r.Rest(), GetSnapshot(old(r.Rest())))
  {
    var id :- r.ReadU64();
    var gen :- r.ReadU64();
    var total :- r.ReadI64();
    if total < 0 {
      return None;
    }
    var consumed :- r.ReadI64();
    if consumed < 0 {
      return None;
    }
    var window :- r.ReadI64();
    var start :- r.ReadI64();
    var b :- r.ReadByte();
    var lastState :- ComplianceStateOf(b);
    var lastStateTime :- r.ReadI64();
    var cooldownUntil :- r.ReadI64();
    res := Some(ObjectiveSnapshot(id, gen, total, consumed, window, start, lastState, lastStateTime, cooldownUntil));
  }

  method DecodeEvaluation(r: ByteReader) returns (res: Option<EvaluationRecord>)
    requires r.Valid()
    modifies r
    ensures r.Valid() && Takes(res, r.Rest(), GetEvaluation(old(r.Rest())))
  {
    var evaluationId :- r.ReadU64();
    var evaluationGen :- r.ReadU64();
    var contractGen :- r.ReadU64();
    var policyGen :- r.ReadU64();
    var evidenceGen :- r.ReadU64();
    var epoch :- r.ReadU64();
    var v :- DecodeVerdict(r);
    res := Some(EvaluationRecord(evaluationId, evaluationGen, contractGen, policyGen, evidenceGen, epoch,
                                 v.time, v.compliance, v.dimension, v.objective, v.action, v.digest));
  }

  method DecodeVerdict(r: ByteReader) returns (res: Option<Verdict>)
    requires r.Valid()
    modifies r
    ensures r.Valid() && Takes(res, r.Rest(), GetVerdict(old(r.Rest())))
  {
    var time :- r.ReadI64();
    var b :- r.ReadByte();
    var compliance :- ComplianceStateOf(b);
    b :- r.ReadByte();
    var dimension :- DimensionOf(b);
    var objective :- r.ReadU64();
    b :- r.ReadByte();
    var action :- EnforcementActionOf(b);
    var digest :- r.ReadU64();
    res := Some(Verdict(time, compliance, dimension, objective, action, digest));
  }

  /** One more element of a counted list is taken off, or the list turns out not to be there. */
  lemma NextTaken<T>(
    get: seq<byte> -> Option<(T, seq<byte>)>, xs: seq<T>, left: nat, before: seq<byte>,
    got: Option<(T, seq<byte>)>, coming: Option<(seq<T>, seq<byte>)>, x: Option<T>, after: seq<byte>)
    returns (next: Option<(seq<T>, seq<byte>)>)
    requires left > 0 && coming == GetAll(get, left, before) && got == get(before) && Takes(x, after, got)
    ensures x.None? ==> Prepend(xs, coming).None?
    ensures x.Some? ==> next == GetAll(get, left - 1, after) && Prepend(xs, coming) == Prepend(xs + [x.value], next)
  {
    PrependNext(get, xs, left, before);
    next := if x.Some? then GetAll(get, left - 1, after) else None;
  }

  lemma AllTaken<T>(
    all: Option<(seq<T>, seq<byte>)>, xs: seq<T>, coming: Option<(seq<T>, seq<byte>)>, after: seq<byte>)
    requires all == Prepend(xs, coming) && coming == Some(([], after))
    ensures all == Some((xs, after))
  {
    assert xs + [] == xs;
  }

  method DecodePolicies(r: ByteReader) returns (res: Option<seq<Policy>>)
    requires r.Valid()
    modifies r
    ensures r.Valid() && Takes(res, r.Rest(), GetList(GetPolicy, old(r.Rest())))
  {
    var n :- DecodeCount(r);
    ghost var all := GetAll(GetPolicy, n, r.Rest());
    var xs, left := [], n;
    PrependNothing(all);
    ghost var coming := all;
    while left > 0
      invariant r.Valid() && all == Prepend(xs, coming) && coming == GetAll(GetPolicy, left, r.Rest())
    {
      ghost var before := r.Rest();
      var x := DecodePolicy(r);
      coming := NextTaken(GetPolicy, xs, left, before, GetPolicy(before), coming, x, r.Rest());
      if x.None? {
        return None;
      }
      xs, left := xs + [x.value], left - 1;
    }
    AllTaken(all, xs, coming, r.Rest());
    res := Some(xs);
  }

  method DecodeContracts(r: ByteReader) returns (res: Option<seq<Contract>>)
    requires r.Valid()
    modifies r
    ensures r.Valid() && Takes(res, r.Rest(), GetList(GetContract, old(r.Rest())))
  {
    var n :- DecodeCount(r);
    ghost var all := GetAll(GetContract, n, r.Rest());
    var xs, left := [], n;
    PrependNothing(all);
    ghost var coming := all;
    while left > 0
      invariant r.Valid() && all == Prepend(xs, coming) && coming == GetAll(GetContract, left, r.Rest())
    {
      ghost var before := r.Rest();
      var x := DecodeContract(r);
      coming := NextTaken(GetContract, xs, left, before, GetContract(before), coming, x, r.Rest());
      if x.None? {
        return None;
      }
      xs, left := xs + [x.value], left - 1;
    }
    AllTaken(all, xs, coming, r.Rest());
    res := Some(xs);
  }

  method DecodeObjectives(r: ByteReader) returns (res: Option<seq<Objective>>)
    requires r.Valid()
    modifies r
    ensures r.Valid() && Takes(res, r.Rest(), GetList(GetObjective, old(r.Rest())))
  {
    var n :- DecodeCount(r);
    ghost var all := GetAll(GetObjective, n, r.Rest());
    var xs, left := [], n;
    PrependNothing(all);
    ghost var coming := all;
    while left > 0
      invariant r.Valid() && all == Prepend(xs, coming) && coming == GetAll(GetObjective, left, r.Rest())
    {
      ghost var before := r.Rest();
      var x := DecodeObjective(r);
      coming := NextTaken(GetObjective, xs, left, before, GetObjective(before), coming, x, r.Rest());
      if x.None? {
        return None;
      }
      xs, left := xs + [x.value], left - 1;
    }
    AllTaken(all, xs, coming, r.Rest());
    res := Some(xs);
  }

  method DecodeSnapshots(r: ByteReader) returns (res: Option<seq<ObjectiveSnapshot>>)
    requires r.Valid()
    modifies r
    ensures r.Valid() && Takes(res, r.Rest(), GetList(GetSnapshot, old(r.Rest())))
  {
    var n :- DecodeCount(r);
    ghost var all := GetAll(GetSnapshot, n, r.Rest());
    var xs, left := [], n;
    PrependNothing(all);
    ghost var coming := all;
    while left > 0
      invariant r.Valid() && all == Prepend(xs, coming) && coming == GetAll(GetSnapshot, left, r.Rest())
    {
      ghost var before := r.Rest();
      var x := DecodeSnapshot(r);
      coming := NextTaken(GetSnapshot, xs, left, before, GetSnapshot(before), coming, x, r.Rest());
      if x.None? {
        return None;
      }
      xs, left := xs + [x.value], left - 1;
    }
    AllTaken(all, xs, coming, r.Rest());
    res := Some(xs);
  }

  method DecodeReceipts(r: ByteReader) returns (res: Option<seq<Receipt>>)
    requires r.Valid()
    modifies r
    ensures r.Valid() && Takes(res, r.Rest(), GetList(GetReceipt, old(r.Rest())))
  {
    var n :- DecodeCount(r);
    ghost var all := GetAll(GetReceipt, n, r.Rest());
    var xs, left := [], n;
    PrependNothing(all);
    ghost var coming := all;
    while left > 0
      invariant r.Valid() && all == Prepend(xs, coming) && coming == GetAll(GetReceipt, left, r.Rest())
    {
      ghost var before := r.Rest();
      var x := DecodeReceipt(r);
      coming := NextTaken(GetReceipt, xs, left, before, GetReceipt(before), coming, x, r.Rest());
      if x.None? {
        return None;
      }
      xs, left := xs + [x.value], left - 1;
    }
    AllTaken(all, xs, coming, r.Rest());
    res := Some(xs);
  }

  method DecodeEvaluations(r: ByteReader) returns (res: Option<seq<EvaluationRecord>>)
    requires r.Valid()
    modifies r
    ensures r.Valid() && Takes(res, r.Rest(), GetList(GetEvaluation, old(r.Rest())))
  {
    var n :- DecodeCount(r);
    ghost var all := GetAll(GetEvaluation, n, r.Rest());
    var xs, left := [], n;
    PrependNothing(all);
    ghost var coming := all;
    while left > 0
      invariant r.Valid() && all == Prepend(xs, coming) && coming == GetAll(GetEvaluation, left, r.Rest())
    {
      ghost var before := r.Rest();
      var x := DecodeEvaluation(r);
      coming := NextTaken(GetEvaluation, xs, left, before, GetEvaluation(before), coming, x, r.Rest());
      if x.None? {
        return None;
      }
      xs, left := xs + [x.value], left - 1;
    }
    AllTaken(all, xs, coming, r.Rest());
    res := Some(xs);
  }

  method DeserializeState(bytes: seq<byte>) returns (res: Option<DurableState>)
    ensures res == Deserialize(bytes)
  {
    if |bytes| > MAX_BYTES {
      return None;
    }
    var r := new ByteReader(bytes);
    var magic :- r.ReadU32();
    if magic != MAGIC {
      return None;
    }
    var version :- r.ReadU32();
    if version != VERSION {
      return None;
    }
    var epoch :- r.ReadU64();
    var policies :- DecodePolicies(r);
    var contracts :- DecodeContracts(r);
    var snapshots :- DecodeSnapshots(r);
    var receipts :- DecodeReceipts(r);
    var evaluations :- DecodeEvaluations(r);
    var done := r.Exhausted();
    if !done {
      return None;
    }
    res := Some(DurableState(epoch, policies, contracts, snapshots, receipts, evaluations));
  }

  // ----- The file image -----

  /** What a load makes of the bytes of a file. */
  function Load(image: seq<byte>): Option<DurableState> {
    if |image| < 4 || |image| > MAX_BYTES + 4 || !Crc32.Sealed(image) then None
    else Deserialize(image[..|image| - 4])
  }

  method SaveImage(st: DurableState) returns (image: seq<byte>)
    ensures image == Crc32.Seal(Serialize(st))
  {
    var body := SerializeState(st);
    var crc := Crc32.Compute(body);
    image := body + Crc32.WordBytes(crc);
  }

  method LoadImage(image: seq<byte>) returns (res: Option<DurableState>)
    ensures res == Load(image)
  {
    if |image| < 4 || |image| > MAX_BYTES + 4 {
      return None;
    }
    var n := |image| - 4;
    var stored := Crc32.Word(image[n..]);
    var computed := Crc32.Compute(image[..n]);
    if stored != computed {
      return None;
    }
    res := DeserializeState(image[..n]);
  }

  /** The checksum of a sealed body never stands in the way. */
  lemma LoadOfSealed(body: seq<byte>)
    ensures Load(Crc32.Seal(body)) == Deserialize(body)
  {
    Crc32.SealSeals(body);
    assert Crc32.Seal(body)[..|body|] == body;
  }

  /** A saved file loads to the state that was saved exactly when the decoder's demands are met. */
  lemma LoadUndoesSave(st: DurableState)
    ensures Load(Crc32.Seal(Serialize(st))) ==
      if GoodState(st) && |Serialize(st)| <= 0x1000_0000 then Some(st) else None
  {
    LoadOfSealed(Serialize(st));
    CodecProofs.DeserializeUndoesSerialize(st);
  }

  /** Damage to at most four consecutive bytes of a file that passes the checksum, whether or not it
      decodes and wherever the damage falls, makes the file fail to load. */
  lemma DamagedFileIsRejected(image: seq<byte>, damaged: seq<byte>, start: nat, width: nat)
    requires Crc32.Sealed(image)
    requires ShiftRegister.BurstApart(image, damaged, start, width) && damaged != image
    ensures Load(damaged).None?
  {
    Crc32.SealBreaks(image, damaged, start, width);
  }
}
