/** Where every field stands: frames and state files byte by byte, at offsets. */
module Layout {
  import opened Types
  import opened Binary
  import opened EnumBytes
  import opened Codec
  import Net
  import Crc32

  // ----- Fields at offsets -----

  /** Bytes as a number, the low one first. */
  function Number(d: seq<byte>): nat {
    if d == [] then 0 else d[0] + 256 * Number(d[1..])
  }

  /** `n` bytes at offset `k` are the number `v`. */
  predicate WordAt(s: seq<byte>, k: nat, n: nat, v: int) {
    k + n <= |s| && Number(s[k..k + n]) == v
  }

  predicate ByteAt(s: seq<byte>, k: nat, b: int) {
    k < |s| && s[k] == b
  }

  predicate U64At(s: seq<byte>, k: nat, v: int) {
    WordAt(s, k, 8, v)
  }

  /** Eight bytes in two's complement. */
  predicate I64At(s: seq<byte>, k: nat, v: int) {
    WordAt(s, k, 8, if v < 0 then v + 0x1_0000_0000_0000_0000 else v)
  }

  predicate I32At(s: seq<byte>, k: nat, v: int) {
    WordAt(s, k, 4, if v < 0 then v + 0x1_0000_0000 else v)
  }

  /** A length in eight bytes and then the text. */
  predicate TextAt(s: seq<byte>, k: nat, t: Text) {
    U64At(s, k, |t|) && k + 8 + |t| <= |s| && s[k + 8..k + 8 + |t|] == t
  }

  /** From offset `k` on there is `rest`. */
  predicate Rest(s: seq<byte>, k: nat, rest: seq<byte>) {
    k <= |s| && s[k..] == rest
  }

  lemma {:induction false} PutWordSplits(n: nat, v: nat, rest: seq<byte>)
    requires v < Power(n)
    ensures var s := PutWord(n, v, rest);
      |s| == n + |rest| && Number(s[..n]) == v && s[n..] == rest
    decreases n
  {
    if n > 0 {
      PutWordSplits(n - 1, v / 256, rest);
      var s, t := PutWord(n, v, rest), PutWord(n - 1, v / 256, rest);
      assert s[..n][1..] == t[..n - 1] && s[n..] == t[n - 1..];
    }
  }

  lemma WordLaid(s: seq<byte>, k: nat, n: nat, v: nat, rest: seq<byte>)
    requires Rest(s, k, PutWord(n, v, rest)) && v < Power(n)
    ensures WordAt(s, k, n, v) && s[k + n..] == rest
  {
    PutWordSplits(n, v, rest);
    assert s[k..k + n] == s[k..][..n] && s[k + n..] == s[k..][n..];
  }

  lemma ByteLaid(s: seq<byte>, k: nat, b: byte, rest: seq<byte>)
    requires Rest(s, k, PutByte(b, rest))
    ensures ByteAt(s, k, b) && Rest(s, k + 1, rest)
  {
    Powers();
    WordLaid(s, k, 1, b, rest);
    assert Number(s[k..k + 1]) == s[k] by {
      assert s[k..k + 1][1..] == [];
    }
  }

  lemma U32Laid(s: seq<byte>, k: nat, v: nat, rest: seq<byte>)
    requires v < TWO_32 && Rest(s, k, PutU32(v, rest))
    ensures WordAt(s, k, 4, v) && Rest(s, k + 4, rest)
  {
    Powers();
    WordLaid(s, k, 4, v, rest);
  }

  lemma U64Laid(s: seq<byte>, k: nat, v: U64, rest: seq<byte>)
    requires Rest(s, k, PutU64(v, rest))
    ensures U64At(s, k, v) && Rest(s, k + 8, rest)
  {
    Powers();
    WordLaid(s, k, 8, v, rest);
  }

  lemma I64Laid(s: seq<byte>, k: nat, v: I64, rest: seq<byte>)
    requires Rest(s, k, PutI64(v, rest))
    ensures I64At(s, k, v) && Rest(s, k + 8, rest)
  {
    U64Laid(s, k, Unsigned64(v), rest);
  }

  lemma I32Laid(s: seq<byte>, k: nat, v: I32, rest: seq<byte>)
    requires Rest(s, k, PutI32(v, rest))
    ensures I32At(s, k, v) && Rest(s, k + 4, rest)
  {
    U32Laid(s, k, Unsigned32(v), rest);
  }

  lemma DoubleLaid(s: seq<byte>, k: nat, d: Double, rest: seq<byte>)
    requires Rest(s, k, PutDouble(d, rest))
    ensures U64At(s, k, d.bits) && Rest(s, k + 8, rest)
  {
    U64Laid(s, k, d.bits, rest);
  }

  lemma TextLaid(s: seq<byte>, k: nat, t: Text, rest: seq<byte>)
    requires Rest(s, k, PutText(t, rest))
    ensures TextAt(s, k, t) && Rest(s, k + 8 + |t|, rest)
  {
    U64Laid(s, k, |t|, t + rest);
    assert s[k + 8..] == t + rest;
    assert s[k + 8..][..|t|] == t && s[k + 8..][|t|..] == rest;
    assert s[k + 8..k + 8 + |t|] == s[k + 8..][..|t|] && s[k + 8 + |t|..] == s[k + 8..][|t|..];
  }

  // ----- Records -----

  /** A snapshot takes 65 bytes. */
  lemma SnapshotLayout(p: ObjectiveSnapshot, rest: seq<byte>, s: seq<byte>)
    requires s == PutSnapshot(p, rest)
    ensures U64At(s, 0, p.objectiveId) && U64At(s, 8, p.objectiveGen) && I64At(s, 16, p.budgetTotal)
    ensures I64At(s, 24, p.budgetConsumed) && I64At(s, 32, p.budgetWindow) && I64At(s, 40, p.budgetWindowStart)
    ensures ByteAt(s, 48, ComplianceStateByte(p.lastState)) && I64At(s, 49, p.lastStateTime)
    ensures I64At(s, 57, p.cooldownUntil)
    ensures Rest(s, 65, rest)
  {
    var t8 := PutI64(p.cooldownUntil, rest);
    var t7 := PutI64(p.lastStateTime, t8);
    var t6 := PutByte(ComplianceStateByte(p.lastState), t7);
    var t5 := PutI64(p.budgetWindowStart, t6);
    var t4 := PutI64(p.budgetWindow, t5);
    var t3 := PutI64(p.budgetConsumed, t4);
    var t2 := PutI64(p.budgetTotal, t3);
    var t1 := PutU64(p.objectiveGen, t2);
    assert Rest(s, 0, s);
    U64Laid(s, 0, p.objectiveId, t1);
    U64Laid(s, 8, p.objectiveGen, t2);
    I64Laid(s, 16, p.budgetTotal, t3);
    I64Laid(s, 24, p.budgetConsumed, t4);
    I64Laid(s, 32, p.budgetWindow, t5);
    I64Laid(s, 40, p.budgetWindowStart, t6);
    ByteLaid(s, 48, ComplianceStateByte(p.lastState), t7);
    I64Laid(s, 49, p.lastStateTime, t8);
    I64Laid(s, 57, p.cooldownUntil, rest);
  }

  /** An evaluation record takes 75 bytes. */
  lemma EvaluationLayout(e: EvaluationRecord, rest: seq<byte>, s: seq<byte>)
    requires s == PutEvaluation(e, rest)
    ensures U64At(s, 0, e.evaluationId) && U64At(s, 8, e.evaluationGen) && U64At(s, 16, e.contractGen)
    ensures U64At(s, 24, e.policyGen) && U64At(s, 32, e.evidenceGen) && U64At(s, 40, e.epoch) && I64At(s, 48, e.time)
    ensures ByteAt(s, 56, ComplianceStateByte(e.compliance)) && ByteAt(s, 57, DimensionByte(e.bindingDimension))
    ensures U64At(s, 58, e.bindingObjective) && ByteAt(s, 66, EnforcementActionByte(e.selectedAction))
    ensures U64At(s, 67, e.digest)
    ensures Rest(s, 75, rest)
  {
    var t11 := PutU64(e.digest, rest);
    var t10 := PutByte(EnforcementActionByte(e.selectedAction), t11);
    var t9 := PutU64(e.bindingObjective, t10);
    var t8 := PutByte(DimensionByte(e.bindingDimension), t9);
    var t7 := PutByte(ComplianceStateByte(e.compliance), t8);
    var t6 := PutI64(e.time, t7);
    var t5 := PutU64(e.epoch, t6);
    var t4 := PutU64(e.evidenceGen, t5);
    var t3 := PutU64(e.policyGen, t4);
    var t2 := PutU64(e.contractGen, t3);
    var t1 := PutU64(e.evaluationGen, t2);
    assert Rest(s, 0, s);
    U64Laid(s, 0, e.evaluationId, t1);
    U64Laid(s, 8, e.evaluationGen, t2);
    U64Laid(s, 16, e.contractGen, t3);
    U64Laid(s, 24, e.policyGen, t4);
    U64Laid(s, 32, e.evidenceGen, t5);
    U64Laid(s, 40, e.epoch, t6);
    I64Laid(s, 48, e.time, t7);
    ByteLaid(s, 56, ComplianceStateByte(e.compliance), t8);
    ByteLaid(s, 57, DimensionByte(e.bindingDimension), t9);
    U64Laid(s, 58, e.bindingObjective, t10);
    ByteLaid(s, 66, EnforcementActionByte(e.selectedAction), t11);
    U64Laid(s, 67, e.digest, rest);
  }

  /** A receipt takes 106 bytes and its reason. */
  lemma ReceiptLayout(r: Receipt, rest: seq<byte>, s: seq<byte>)
    requires s == PutReceipt(r, rest)
    ensures U64At(s, 0, r.id) && U64At(s, 8, r.gen) && ByteAt(s, 16, EnforcementActionByte(r.action))
    ensures ByteAt(s, 17, EnforcementLifecycleByte(r.lifecycle)) && U64At(s, 18, r.epoch)
    ensures U64At(s, 26, r.contractGen) && U64At(s, 34, r.policyGen) && U64At(s, 42, r.evaluationId)
    ensures U64At(s, 50, r.evaluationGen) && U64At(s, 58, r.workloadGen) && U64At(s, 66, r.service)
    ensures U64At(s, 74, r.workload) && U64At(s, 82, r.objectiveId) && U64At(s, 90, r.objectiveGen)
    ensures TextAt(s, 98, r.reason)
    ensures Rest(s, 106 + |r.reason|, rest)
  {
    var t14 := PutText(r.reason, rest);
    var t13 := PutU64(r.objectiveGen, t14);
    var t12 := PutU64(r.objectiveId, t13);
    var t11 := PutU64(r.workload, t12);
    var t10 := PutU64(r.service, t11);
    var t9 := PutU64(r.workloadGen, t10);
    var t8 := PutU64(r.evaluationGen, t9);
    var t7 := PutU64(r.evaluationId, t8);
    var t6 := PutU64(r.policyGen, t7);
    var t5 := PutU64(r.contractGen, t6);
    var t4 := PutU64(r.epoch, t5);
    var t3 := PutByte(EnforcementLifecycleByte(r.lifecycle), t4);
    var t2 := PutByte(EnforcementActionByte(r.action), t3);
    var t1 := PutU64(r.gen, t2);
    assert Rest(s, 0, s);
    U64Laid(s, 0, r.id, t1);
    U64Laid(s, 8, r.gen, t2);
    ByteLaid(s, 16, EnforcementActionByte(r.action), t3);
    ByteLaid(s, 17, EnforcementLifecycleByte(r.lifecycle), t4);
    U64Laid(s, 18, r.epoch, t5);
    U64Laid(s, 26, r.contractGen, t6);
    U64Laid(s, 34, r.policyGen, t7);
    U64Laid(s, 42, r.evaluationId, t8);
    U64Laid(s, 50, r.evaluationGen, t9);
    U64Laid(s, 58, r.workloadGen, t10);
    U64Laid(s, 66, r.service, t11);
    U64Laid(s, 74, r.workload, t12);
    U64Laid(s, 82, r.objectiveId, t13);
    U64Laid(s, 90, r.objectiveGen, t14);
    TextLaid(s, 98, r.reason, rest);
  }

  /** A policy takes 34 bytes, its name and its description. */
  lemma PolicyLayout(p: Policy, rest: seq<byte>, s: seq<byte>)
    requires s == PutPolicy(p, rest)
    ensures U64At(s, 0, p.id) && U64At(s, 8, p.gen) && ByteAt(s, 16, PolicyModeByte(p.mode))
    ensures ByteAt(s, 17, TieBreakByte(p.tieBreak)) && TextAt(s, 18, p.name)
    ensures TextAt(s, 26 + |p.name|, p.description)
    ensures Rest(s, 34 + |p.name| + |p.description|, rest)
  {
    var t5 := PutText(p.description, rest);
    var t4 := PutText(p.name, t5);
    var t3 := PutByte(TieBreakByte(p.tieBreak), t4);
    var t2 := PutByte(PolicyModeByte(p.mode), t3);
    var t1 := PutU64(p.gen, t2);
    assert Rest(s, 0, s);
    U64Laid(s, 0, p.id, t1);
    U64Laid(s, 8, p.gen, t2);
    ByteLaid(s, 16, PolicyModeByte(p.mode), t3);
    ByteLaid(s, 17, TieBreakByte(p.tieBreak), t4);
    TextLaid(s, 18, p.name, t5);
    TextLaid(s, 26 + |p.name|, p.description, rest);
  }

  /** A contract starts with its ids and the number of its objectives, which follow. */
  lemma ContractLayout(c: Contract, rest: seq<byte>, s: seq<byte>)
    requires s == PutContract(c, rest)
    requires |c.objectives| < TWO_64
    ensures U64At(s, 0, c.id) && U64At(s, 8, c.gen) && U64At(s, 16, c.service) && U64At(s, 24, c.workload)
    ensures U64At(s, 32, c.tenant) && U64At(s, 40, |c.objectives|)
    ensures Rest(s, 48, PutAll(PutObjective, c.objectives, PutTerms(c, rest)))
  {
    var t6 := PutAll(PutObjective, c.objectives, PutTerms(c, rest));
    var t5 := PutU64(|c.objectives|, t6);
    var t4 := PutU64(c.tenant, t5);
    var t3 := PutU64(c.workload, t4);
    var t2 := PutU64(c.service, t3);
    var t1 := PutU64(c.gen, t2);
    assert Rest(s, 0, s);
    U64Laid(s, 0, c.id, t1);
    U64Laid(s, 8, c.gen, t2);
    U64Laid(s, 16, c.service, t3);
    U64Laid(s, 24, c.workload, t4);
    U64Laid(s, 32, c.tenant, t5);
    U64Laid(s, 40, |c.objectives|, t6);
  }

  /** Behind its objectives a contract has its terms; the expiration date takes eight bytes where there is one. */
  lemma TermsLayout(c: Contract, rest: seq<byte>, s: seq<byte>)
    requires s == PutTerms(c, rest)
    ensures U64At(s, 0, c.policyId) && U64At(s, 8, c.policyGen) && I64At(s, 16, c.effectiveFrom)
    ensures ByteAt(s, 24, if c.expiration.Some? then 1 else 0)
    ensures 25 <= |s|
    ensures s[25..] == if c.expiration.Some? then PutI64(c.expiration.value, PutOwner(c, rest)) else PutOwner(c, rest)
  {
    var t4 := (if c.expiration.Some? then PutI64(c.expiration.value, PutOwner(c, rest)) else PutOwner(c, rest));
    var t3 := PutByte(if c.expiration.Some? then 1 else 0, t4);
    var t2 := PutI64(c.effectiveFrom, t3);
    var t1 := PutU64(c.policyGen, t2);
    assert Rest(s, 0, s);
    U64Laid(s, 0, c.policyId, t1);
    U64Laid(s, 8, c.policyGen, t2);
    I64Laid(s, 16, c.effectiveFrom, t3);
    ByteLaid(s, 24, if c.expiration.Some? then 1 else 0, t4);
  }

  function PutOwner(c: Contract, rest: seq<byte>): seq<byte> {
    PutU64(c.epoch, PutByte(ContractLifecycleByte(c.lifecycle), PutText(c.name, PutText(c.provenance, rest))))
  }

  /** The end of a contract. */
  lemma OwnerLayout(c: Contract, rest: seq<byte>, s: seq<byte>)
    requires s == PutOwner(c, rest)
    ensures U64At(s, 0, c.epoch) && ByteAt(s, 8, ContractLifecycleByte(c.lifecycle)) && TextAt(s, 9, c.name)
    ensures TextAt(s, 17 + |c.name|, c.provenance)
    ensures Rest(s, 25 + |c.name| + |c.provenance|, rest)
  {
    var t3 := PutText(c.provenance, rest);
    var t2 := PutText(c.name, t3);
    var t1 := PutByte(ContractLifecycleByte(c.lifecycle), t2);
    assert Rest(s, 0, s);
    U64Laid(s, 0, c.epoch, t1);
    ByteLaid(s, 8, ContractLifecycleByte(c.lifecycle), t2);
    TextLaid(s, 9, c.name, t3);
    TextLaid(s, 17 + |c.name|, c.provenance, rest);
  }

  /** An objective starts with its ids, its name and five bytes of classes. */
  lemma ObjectiveLayout(o: Objective, rest: seq<byte>, s: seq<byte>)
    requires s == PutObjective(o, rest)
    ensures U64At(s, 0, o.id) && U64At(s, 8, o.gen) && TextAt(s, 16, o.name)
    ensures ByteAt(s, 24 + |o.name|, DimensionByte(o.dim)) && ByteAt(s, 25 + |o.name|, ObjectiveKindByte(o.kind))
    ensures ByteAt(s, 26 + |o.name|, ComparisonByte(o.comparison)) && ByteAt(s, 27 + |o.name|, HardSoftByte(o.hard))
    ensures ByteAt(s, 28 + |o.name|, EnforcementClassByte(o.enforcement))
    ensures Rest(s, 29 + |o.name|, PutLimits(o, rest))
  {
    var t8 := PutLimits(o, rest);
    var t7 := PutByte(EnforcementClassByte(o.enforcement), t8);
    var t6 := PutByte(HardSoftByte(o.hard), t7);
    var t5 := PutByte(ComparisonByte(o.comparison), t6);
    var t4 := PutByte(ObjectiveKindByte(o.kind), t5);
    var t3 := PutByte(DimensionByte(o.dim), t4);
    var t2 := PutText(o.name, t3);
    var t1 := PutU64(o.gen, t2);
    assert Rest(s, 0, s);
    U64Laid(s, 0, o.id, t1);
    U64Laid(s, 8, o.gen, t2);
    TextLaid(s, 16, o.name, t3);
    ByteLaid(s, 24 + |o.name|, DimensionByte(o.dim), t4);
    ByteLaid(s, 25 + |o.name|, ObjectiveKindByte(o.kind), t5);
    ByteLaid(s, 26 + |o.name|, ComparisonByte(o.comparison), t6);
    ByteLaid(s, 27 + |o.name|, HardSoftByte(o.hard), t7);
    ByteLaid(s, 28 + |o.name|, EnforcementClassByte(o.enforcement), t8);
  }

  /** Behind its limits an objective has 32 bytes of requirements and 31 of its window. */
  lemma RequirementsLayout(o: Objective, rest: seq<byte>, s: seq<byte>)
    requires s == PutRequirements(o, rest)
    ensures I64At(s, 0, o.minEvidence) && U64At(s, 8, o.uncertainty.bits) && I64At(s, 16, o.freshnessTtl)
    ensures I64At(s, 24, o.grace) && ByteAt(s, 32, WindowTypeByte(o.windowType)) && I64At(s, 33, o.windowDuration)
    ensures I64At(s, 41, o.windowCount) && I32At(s, 49, o.priority) && U64At(s, 53, o.percentileRank.bits)
    ensures ByteAt(s, 61, AvailabilityModeByte(o.availabilityMode)) && ByteAt(s, 62, RateTagByte(o.rateTag))
    ensures Rest(s, 63, rest)
  {
    var t10 := PutByte(RateTagByte(o.rateTag), rest);
    var t9 := PutByte(AvailabilityModeByte(o.availabilityMode), t10);
    var t8 := PutDouble(o.percentileRank, t9);
    var t7 := PutI32(o.priority, t8);
    var t6 := PutI64(o.windowCount, t7);
    var t5 := PutI64(o.windowDuration, t6);
    var t4 := PutByte(WindowTypeByte(o.windowType), t5);
    var t3 := PutI64(o.grace, t4);
    var t2 := PutI64(o.freshnessTtl, t3);
    var t1 := PutDouble(o.uncertainty, t2);
    assert Rest(s, 0, s);
    I64Laid(s, 0, o.minEvidence, t1);
    DoubleLaid(s, 8, o.uncertainty, t2);
    I64Laid(s, 16, o.freshnessTtl, t3);
    I64Laid(s, 24, o.grace, t4);
    ByteLaid(s, 32, WindowTypeByte(o.windowType), t5);
    I64Laid(s, 33, o.windowDuration, t6);
    I64Laid(s, 41, o.windowCount, t7);
    I32Laid(s, 49, o.priority, t8);
    DoubleLaid(s, 53, o.percentileRank, t9);
    ByteLaid(s, 61, AvailabilityModeByte(o.availabilityMode), t10);
    ByteLaid(s, 62, RateTagByte(o.rateTag), rest);
  }

  /** The number that the unit of a value has in front of it. */
  function UnitByte(v: Value): byte {
    match v
    case Nanoseconds(_) => 0 case ByteCount(_) => 1 case Count(_) => 2 case BasisPoints(_) => 3
    case Percentage(_) => 4 case PressureRatio(_) => 5 case RequestsPerSecond(_) => 6 case TokensPerSecond(_) => 7
    case BytesPerSecond(_) => 8 case OperationsPerSecond(_) => 9 case CostMicros(_) => 10 case EnergyJoules(_) => 11
  }

  /** The units whose values are doubles. */
  predicate InDoubles(v: Value) {
    4 <= UnitByte(v) <= 9
  }

  /** The eight bytes of a value, as a number: a double by its bits, an integer in two's complement. */
  function ValueBits(v: Value): (w: U64) {
    if InDoubles(v) then v.d.bits else if v.i < 0 then v.i + 0x1_0000_0000_0000_0000 else v.i
  }

  /** A value takes nine bytes, of which the first is its unit. */
  predicate ValueAt(s: seq<byte>, k: nat, v: Value) {
    ByteAt(s, k, UnitByte(v)) && U64At(s, k + 1, ValueBits(v))
  }

  lemma ValueParts(v: Value, rest: seq<byte>)
    ensures PutValue(v, rest) == PutByte(UnitByte(v), PutU64(ValueBits(v), rest))
  {}

  lemma ValueLaid(s: seq<byte>, k: nat, v: Value, rest: seq<byte>)
    requires Rest(s, k, PutValue(v, rest))
    ensures ValueAt(s, k, v) && Rest(s, k + 9, rest)
  {
    ValueParts(v, rest);
    TagLaid(s, k, UnitByte(v), ValueBits(v), rest);
  }

  lemma TagLaid(s: seq<byte>, k: nat, tag: byte, w: U64, rest: seq<byte>)
    requires Rest(s, k, PutByte(tag, PutU64(w, rest)))
    ensures ByteAt(s, k, tag) && U64At(s, k + 1, w) && Rest(s, k + 9, rest)
  {
    ByteLaid(s, k, tag, PutU64(w, rest));
    U64Laid(s, k + 1, w, rest);
  }

  /** A flag, and the value behind it where there is one. */
  predicate OptionAt(s: seq<byte>, k: nat, v: Option<Value>) {
    ByteAt(s, k, if v.Some? then 1 else 0) && (v.Some? ==> ValueAt(s, k + 1, v.value))
  }

  function OptionSize(v: Option<Value>): nat {
    if v.Some? then 10 else 1
  }

  lemma OptionLaid(s: seq<byte>, k: nat, v: Option<Value>, rest: seq<byte>)
    requires Rest(s, k, PutOption(v, rest))
    ensures OptionAt(s, k, v) && Rest(s, k + OptionSize(v), rest)
  {
    if v.Some? {
      SomeLaid(s, k, v.value, rest, PutValue(v.value, rest));
    } else {
      ByteLaid(s, k, 0, rest);
    }
  }

  lemma SomeLaid(s: seq<byte>, k: nat, v: Value, rest: seq<byte>, behind: seq<byte>)
    requires Rest(s, k, PutByte(1, behind)) && behind == PutValue(v, rest)
    ensures ByteAt(s, k, 1) && ValueAt(s, k + 1, v) && Rest(s, k + 10, rest)
  {
    ByteLaid(s, k, 1, behind);
    ValueLaid(s, k + 1, v, rest);
  }

  /** The target comes first, then the breach and the recovery threshold. */
  lemma LimitsLayout(o: Objective, rest: seq<byte>, s: seq<byte>, k: nat)
    requires s == PutLimits(o, rest) && k == 9 + OptionSize(o.breach)
    ensures ValueAt(s, 0, o.target) && OptionAt(s, 9, o.breach) && OptionAt(s, k, o.recovery)
    ensures Rest(s, k + OptionSize(o.recovery), PutRequirements(o, rest))
  {
    var last := PutRequirements(o, rest);
    TargetLaid(s, o.target, PutOption(o.breach, PutOption(o.recovery, last)));
    ThresholdsLaid(s, o.breach, o.recovery, last, k);
  }

  lemma TargetLaid(s: seq<byte>, v: Value, rest: seq<byte>)
    requires s == PutValue(v, rest)
    ensures ValueAt(s, 0, v) && Rest(s, 9, rest)
  {
    assert Rest(s, 0, s);
    ValueLaid(s, 0, v, rest);
  }

  lemma ThresholdsLaid(s: seq<byte>, breach: Option<Value>, recovery: Option<Value>, rest: seq<byte>, k: nat)
    requires Rest(s, 9, PutOption(breach, PutOption(recovery, rest))) && k == 9 + OptionSize(breach)
    ensures OptionAt(s, 9, breach) && OptionAt(s, k, recovery) && Rest(s, k + OptionSize(recovery), rest)
  {
    OptionLaid(s, 9, breach, PutOption(recovery, rest));
    OptionLaid(s, k, recovery, rest);
  }

  // ----- Files and frames -----

  /** A state file starts with its magic number, its version, the epoch and the number of policies, which
      follow. */
  lemma StateLayout(st: DurableState, s: seq<byte>)
    requires s == Serialize(st) && |st.policies| < TWO_64
    ensures WordAt(s, 0, 4, 0x534C_4F46) && WordAt(s, 4, 4, 2) && U64At(s, 8, st.epoch) && U64At(s, 16, |st.policies|)
    ensures s[24..] == PutAll(PutPolicy, st.policies, PutList(PutContract, st.contracts, PutRecords(st, [])))
  {
    var lists := PutList(PutContract, st.contracts, PutRecords(st, []));
    var policies := PutAll(PutPolicy, st.policies, lists);
    var epoch := PutU64(st.epoch, PutU64(|st.policies|, policies));
    assert Rest(s, 0, s);
    U32Laid(s, 0, 0x534C_4F46, PutU32(2, epoch));
    U32Laid(s, 4, 2, epoch);
    U64Laid(s, 8, st.epoch, PutU64(|st.policies|, policies));
    U64Laid(s, 16, |st.policies|, policies);
  }

  /** A frame: four bytes of magic number, its kind, its flags, the length of its payload, the payload, and
      the checksum of all that, each number with the low byte first. */
  lemma FrameLayout(f: Net.Frame)
    ensures var s, n := Net.Encode(f), |f.payload|;
      && WordAt(s, 0, 4, 0x534C_4631) && s[4] == f.kind && s[5] == f.flags && WordAt(s, 6, 4, n % 0x1_0000_0000)
      && s[10..10 + n] == f.payload && |s| == n + 14 && Crc32.Word(s[10 + n..]) == Crc32.Checksum(s[..10 + n])
  {
    var s, n := Net.Encode(f), |f.payload|;
    var body := Net.Body(f);
    Crc32.SealSeals(body);
    assert s[..10 + n] == body && s[10..10 + n] == f.payload;
    assert s[0..4] == Net.Le32(0x534C_4631) && s[6..10] == Net.Le32(n % 0x1_0000_0000);
    NumberOfFour(0x534C_4631);
    NumberOfFour(n % 0x1_0000_0000);
  }

  lemma NumberOfFour(x: nat)
    requires x < TWO_32
    ensures Number(Net.Le32(x)) == x
  {
    var d := Net.Le32(x);
    FourDigits(d);
  }

  lemma FourDigits(d: seq<byte>)
    requires |d| == 4
    ensures Number(d) == Net.Num32(d[0], d[1], d[2], d[3])
  {
    assert d[1..][1..] == d[2..] && d[2..][1..] == d[3..] && d[3..][1..] == [];
    assert Number(d[3..]) == d[3] && Number(d[2..]) == d[2] as int + 256 * Number(d[3..]);
    assert Number(d[1..]) == d[1] as int + 256 * Number(d[2..]);
  }

  /** A frame comes back exactly when its payload has no more than 4194304 bytes. */
  lemma FrameLimit(f: Net.Frame)
    ensures Net.Decode(Net.Encode(f)) == Net.Good(f) <==> |f.payload| <= 4194304
  {
    Net.DecodeUndoesEncode(f);
  }
}
