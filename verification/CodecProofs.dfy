/** The decoder undoes the encoder on exactly the records it accepts, and never looks past the
    bytes it takes, so no accepted body is a prefix of another. */
module CodecProofs {
  import opened Types
  import opened EnumBytes
  import opened Binary
  import opened Codec

  // ----- Round trips -----

  lemma ValueRoundTrip(v: Value, rest: seq<byte>)
    ensures GetValue(PutValue(v, rest)) == if GoodValue(v) then Some((v, rest)) else None
  {
    if v.Nanoseconds? || v.ByteCount? || v.Count? || v.BasisPoints? || v.CostMicros? || v.EnergyJoules? {
      assert GetU64(PutI64(v.i, rest)) == Some((Unsigned64(v.i), rest));
    } else {
      assert GetU64(PutDouble(v.d, rest)) == Some((v.d.bits, rest));
    }
  }

  lemma OptionRoundTrip(v: Option<Value>, rest: seq<byte>)
    ensures GetOption(PutOption(v, rest)) == if GoodOption(v) then Some((v, rest)) else None
  {
    if v.Some? {
      ValueRoundTrip(v.value, rest);
    }
  }

  function HeadOf(o: Objective): Head {
    Head(o.id, o.gen, o.name, o.dim, o.kind, o.comparison, o.hard, o.enforcement)
  }

  function LimitsOf(o: Objective): Limits {
    Limits(o.target, o.breach, o.recovery)
  }

  function RequirementsOf(o: Objective): Requirements {
    Requirements(o.minEvidence, o.uncertainty, o.freshnessTtl, o.grace)
  }

  function TailOf(o: Objective): Tail {
    Tail(o.windowType, o.windowDuration, o.windowCount, o.priority, o.percentileRank,
         o.availabilityMode, o.rateTag)
  }

  lemma HeadRoundTrip(o: Objective, rest: seq<byte>)
    ensures GetHead(PutObjective(o, rest)) ==
      if |o.name| <= MAX_BYTES then Some((HeadOf(o), PutLimits(o, rest))) else None
  {
    var s5 := PutByte(EnforcementClassByte(o.enforcement), PutLimits(o, rest));
    var s4 := PutByte(HardSoftByte(o.hard), s5);
    var s3 := PutByte(ComparisonByte(o.comparison), s4);
    var s2 := PutByte(ObjectiveKindByte(o.kind), s3);
    var s1 := PutByte(DimensionByte(o.dim), s2);
    assert GetByte(s1) == Some((DimensionByte(o.dim), s2)) && GetByte(s2) == Some((ObjectiveKindByte(o.kind), s3));
    assert GetByte(s3) == Some((ComparisonByte(o.comparison), s4)) && GetByte(s4) == Some((HardSoftByte(o.hard), s5));
    assert PutObjective(o, rest) == PutU64(o.id, PutU64(o.gen, PutText(o.name, s1)));
  }

  lemma LimitsRoundTrip(o: Objective, rest: seq<byte>)
    ensures GetLimits(PutLimits(o, rest)) ==
      if GoodLimits(o) then Some((LimitsOf(o), PutRequirements(o, rest))) else None
  {
    var s3 := PutRequirements(o, rest);
    var s2 := PutOption(o.recovery, s3);
    var s1 := PutOption(o.breach, s2);
    ValueRoundTrip(o.target, s1);
    OptionRoundTrip(o.breach, s2);
    OptionRoundTrip(o.recovery, s3);
  }

  lemma RequirementsRoundTrip(o: Objective, rest: seq<byte>)
    ensures GetRequirements(PutRequirements(o, rest)) ==
      if GoodRequirements(o) then Some((RequirementsOf(o), PutWindow(o, rest))) else None
  {}

  lemma TailRoundTrip(o: Objective, rest: seq<byte>)
    ensures GetTail(PutWindow(o, rest)) ==
      if o.windowCount > 0 && FractionPasses(o.percentileRank) then Some((TailOf(o), rest)) else None
  {}

  lemma ObjectiveRoundTrip(o: Objective, rest: seq<byte>)
    ensures GetObjective(PutObjective(o, rest)) == if GoodObjective(o) then Some((o, rest)) else None
  {
    HeadRoundTrip(o, rest);
    LimitsRoundTrip(o, rest);
    RequirementsRoundTrip(o, rest);
    TailRoundTrip(o, rest);
    assert Assemble(HeadOf(o), LimitsOf(o), RequirementsOf(o), TailOf(o)) == o;
  }

  lemma ObjectivesRoundTrip(xs: seq<Objective>, rest: seq<byte>)
    ensures GetAll(GetObjective, |xs|, PutAll(PutObjective, xs, rest)) ==
      if All(GoodObjective, xs) then Some((xs, rest)) else None
  {
    forall o, r ensures GetObjective(PutObjective(o, r)) == if GoodObjective(o) then Some((o, r)) else None {
      ObjectiveRoundTrip(o, r);
    }
    ListRoundTrip(PutObjective, GetObjective, GoodObjective, xs, rest);
  }

  lemma ExpirationRoundTrip(e: Option<I64>, rest: seq<byte>)
    ensures GetExpiration(PutExpiration(e, rest)) == Some((e, rest))
  {}

  lemma TermsRoundTrip(c: Contract, rest: seq<byte>)
    ensures GetTerms(PutTerms(c, rest)) ==
      if |c.name| <= MAX_BYTES && |c.provenance| <= MAX_BYTES then
        Some((Terms(c.policyId, c.policyGen, c.effectiveFrom, c.expiration, c.epoch, c.lifecycle, c.name,
                    c.provenance), rest))
      else None
  {
    ExpirationRoundTrip(c.expiration,
      PutU64(c.epoch, PutByte(ContractLifecycleByte(c.lifecycle), PutText(c.name, PutText(c.provenance, rest)))));
  }

  lemma CountRoundTrip(n: nat, rest: seq<byte>)
    ensures GetCount(PutCount(n, rest)) == if n <= MAX_ITEMS then Some((n, rest)) else None
  {}

  lemma ContractRoundTrip(c: Contract, rest: seq<byte>)
    ensures GetContract(PutContract(c, rest)) == if GoodContract(c) then Some((c, rest)) else None
  {
    var terms := PutTerms(c, rest);
    var listed := PutAll(PutObjective, c.objectives, terms);
    var counted := PutCount(|c.objectives|, listed);
    CountRoundTrip(|c.objectives|, listed);
    ObjectivesRoundTrip(c.objectives, terms);
    TermsRoundTrip(c, rest);
    var s1 := PutU64(c.tenant, counted);
    var s2 := PutU64(c.workload, s1);
    var s3 := PutU64(c.service, s2);
    var s4 := PutU64(c.gen, s3);
    var s5 := PutU64(c.id, s4);
    ContractFromParts(c, rest, terms, listed, counted, s1, s2, s3, s4, s5);
  }

  /** A contract is read when its parts are. */
  lemma ContractFromParts(
    c: Contract, rest: seq<byte>, terms: seq<byte>, listed: seq<byte>, counted: seq<byte>,
    s1: seq<byte>, s2: seq<byte>, s3: seq<byte>, s4: seq<byte>, s5: seq<byte>)
    requires GetU64(s5) == Some((c.id, s4)) && GetU64(s4) == Some((c.gen, s3)) && GetU64(s3) == Some((c.service, s2))
    requires GetU64(s2) == Some((c.workload, s1)) && GetU64(s1) == Some((c.tenant, counted))
    requires GetCount(counted) == if |c.objectives| <= MAX_ITEMS then Some((|c.objectives|, listed)) else None
    requires GetAll(GetObjective, |c.objectives|, listed) == if All(GoodObjective, c.objectives) then Some((c.objectives, terms)) else None
    requires GetTerms(terms) ==
      if |c.name| <= MAX_BYTES && |c.provenance| <= MAX_BYTES then
        Some((Terms(c.policyId, c.policyGen, c.effectiveFrom, c.expiration, c.epoch, c.lifecycle, c.name,
                    c.provenance), rest))
      else None
    ensures GetContract(s5) == if GoodContract(c) then Some((c, rest)) else None
  {}

  lemma PolicyRoundTrip(p: Policy, rest: seq<byte>)
    ensures GetPolicy(PutPolicy(p, rest)) == if GoodPolicy(p) then Some((p, rest)) else None
  {}

  lemma SubjectRoundTrip(r: Receipt, rest: seq<byte>)
    ensures GetSubject(PutSubject(r, rest)) ==
      if GoodReceipt(r) then
        Some((Subject(r.evaluationId, r.evaluationGen, r.workloadGen, r.service, r.workload,
                      r.objectiveId, r.objectiveGen, r.reason), rest))
      else None
  {}

  lemma ReceiptRoundTrip(r: Receipt, rest: seq<byte>)
    ensures GetReceipt(PutReceipt(r, rest)) == if GoodReceipt(r) then Some((r, rest)) else None
  {
    SubjectRoundTrip(r, rest);
  }

  lemma SnapshotRoundTrip(p: ObjectiveSnapshot, rest: seq<byte>)
    ensures GetSnapshot(PutSnapshot(p, rest)) == if GoodSnapshot(p) then Some((p, rest)) else None
  {}

  lemma VerdictRoundTrip(e: EvaluationRecord, rest: seq<byte>)
    ensures GetVerdict(PutVerdict(e, rest)) ==
      Some((Verdict(e.time, e.compliance, e.bindingDimension, e.bindingObjective, e.selectedAction, e.digest), rest))
  {}

  lemma EvaluationRoundTrip(e: EvaluationRecord, rest: seq<byte>)
    ensures GetEvaluation(PutEvaluation(e, rest)) == Some((e, rest))
  {
    VerdictRoundTrip(e, rest);
  }

  lemma CountedRoundTrip<T(!new)>(
    put: (T, seq<byte>) -> seq<byte>, get: seq<byte> -> Option<(T, seq<byte>)>, good: T -> bool,
    xs: seq<T>, rest: seq<byte>)
    requires Inverse(put, get, good)
    ensures GetList(get, PutList(put, xs, rest)) == if GoodList(good, xs) then Some((xs, rest)) else None
  {
    ListRoundTrip(put, get, good, xs, rest);
  }

  lemma PoliciesRoundTrip(xs: seq<Policy>, rest: seq<byte>)
    ensures GetList(GetPolicy, PutList(PutPolicy, xs, rest)) ==
      if GoodList(GoodPolicy, xs) then Some((xs, rest)) else None
  {
    forall x, r ensures GetPolicy(PutPolicy(x, r)) == if GoodPolicy(x) then Some((x, r)) else None {
      PolicyRoundTrip(x, r);
    }
    CountedRoundTrip(PutPolicy, GetPolicy, GoodPolicy, xs, rest);
  }

  lemma ContractsRoundTrip(xs: seq<Contract>, rest: seq<byte>)
    ensures GetList(GetContract, PutList(PutContract, xs, rest)) ==
      if GoodContracts(xs) then Some((xs, rest)) else None
  {
    ghost var good := c => GoodContract(c);
    forall x, r ensures GetContract(PutContract(x, r)) == if good(x) then Some((x, r)) else None {
      ContractRoundTrip(x, r);
    }
    CountedRoundTrip(PutContract, GetContract, good, xs, rest);
  }

  lemma SnapshotsRoundTrip(xs: seq<ObjectiveSnapshot>, rest: seq<byte>)
    ensures GetList(GetSnapshot, PutList(PutSnapshot, xs, rest)) ==
      if GoodList(GoodSnapshot, xs) then Some((xs, rest)) else None
  {
    forall x, r ensures GetSnapshot(PutSnapshot(x, r)) == if GoodSnapshot(x) then Some((x, r)) else None {
      SnapshotRoundTrip(x, r);
    }
    CountedRoundTrip(PutSnapshot, GetSnapshot, GoodSnapshot, xs, rest);
  }

  lemma ReceiptsRoundTrip(xs: seq<Receipt>, rest: seq<byte>)
    ensures GetList(GetReceipt, PutList(PutReceipt, xs, rest)) ==
      if GoodList(GoodReceipt, xs) then Some((xs, rest)) else None
  {
    forall x, r ensures GetReceipt(PutReceipt(x, r)) == if GoodReceipt(x) then Some((x, r)) else None {
      ReceiptRoundTrip(x, r);
    }
    CountedRoundTrip(PutReceipt, GetReceipt, GoodReceipt, xs, rest);
  }

  lemma EvaluationsRoundTrip(xs: seq<EvaluationRecord>, rest: seq<byte>)
    ensures GetList(GetEvaluation, PutList(PutEvaluation, xs, rest)) ==
      if |xs| <= MAX_ITEMS then Some((xs, rest)) else None
  {
    ghost var good := (e: EvaluationRecord) => true;
    forall x, r ensures GetEvaluation(PutEvaluation(x, r)) == if good(x) then Some((x, r)) else None {
      EvaluationRoundTrip(x, r);
    }
    CountedRoundTrip(PutEvaluation, GetEvaluation, good, xs, rest);
  }

  lemma StateRoundTrip(st: DurableState, rest: seq<byte>)
    ensures GetState(PutState(st, rest)) == if GoodState(st) then Some((st, rest)) else None
  {
    var s4 := PutList(PutEvaluation, st.evaluations, rest);
    var s3 := PutList(PutReceipt, st.receipts, s4);
    var s2 := PutList(PutSnapshot, st.snapshots, s3);
    var s1 := PutList(PutContract, st.contracts, s2);
    PoliciesRoundTrip(st.policies, s1);
    ContractsRoundTrip(st.contracts, s2);
    SnapshotsRoundTrip(st.snapshots, s3);
    ReceiptsRoundTrip(st.receipts, s4);
    EvaluationsRoundTrip(st.evaluations, rest);
  }

  /** Decoding an encoded state gives that state back exactly when the decoder's demands on
      records, list lengths and total size are met, and nothing at all otherwise. */
  lemma DeserializeUndoesSerialize(st: DurableState)
    ensures Deserialize(Serialize(st)) ==
      if GoodState(st) && |Serialize(st)| <= 0x1000_0000 then Some(st) else None
  {
    StateRoundTrip(st, []);
  }

  // ----- Accepted bodies are prefix free -----

  lemma ValueReadsAreStable()
    ensures forall s, t {:trigger GetValue(s + t)} :: GetValue(s).Some? ==> GetValue(s + t) == Extend(GetValue(s), t)
    ensures forall s, t {:trigger GetOption(s + t)} :: GetOption(s).Some? ==> GetOption(s + t) == Extend(GetOption(s), t)
    ensures forall s, t {:trigger GetExpiration(s + t)} :: GetExpiration(s).Some? ==> GetExpiration(s + t) == Extend(GetExpiration(s), t)
    ensures forall s, t {:trigger GetCount(s + t)} :: GetCount(s).Some? ==> GetCount(s + t) == Extend(GetCount(s), t)
  {
    ReadsAreStable();
    forall s, t | GetValue(s).Some? ensures GetValue(s + t) == Extend(GetValue(s), t) {}
    forall s, t | GetOption(s).Some? ensures GetOption(s + t) == Extend(GetOption(s), t) {}
    forall s, t | GetExpiration(s).Some? ensures GetExpiration(s + t) == Extend(GetExpiration(s), t) {}
    forall s, t | GetCount(s).Some? ensures GetCount(s + t) == Extend(GetCount(s), t) {}
  }

  lemma HeadReadIsStable()
    ensures forall s, t {:trigger GetHead(s + t)} :: GetHead(s).Some? ==> GetHead(s + t) == Extend(GetHead(s), t)
  {
    ReadsAreStable();
    forall s, t | GetHead(s).Some? ensures GetHead(s + t) == Extend(GetHead(s), t) {}
  }

  lemma LimitsReadIsStable()
    ensures forall s, t {:trigger GetLimits(s + t)} :: GetLimits(s).Some? ==> GetLimits(s + t) == Extend(GetLimits(s), t)
  {
    ValueReadsAreStable();
    forall s, t | GetLimits(s).Some? ensures GetLimits(s + t) == Extend(GetLimits(s), t) {}
  }

  lemma RequirementsReadIsStable()
    ensures forall s, t {:trigger GetRequirements(s + t)} :: GetRequirements(s).Some? ==> GetRequirements(s + t) == Extend(GetRequirements(s), t)
  {
    ReadsAreStable();
    forall s, t | GetRequirements(s).Some? ensures GetRequirements(s + t) == Extend(GetRequirements(s), t) {}
  }

  lemma TailReadIsStable()
    ensures forall s, t {:trigger GetTail(s + t)} :: GetTail(s).Some? ==> GetTail(s + t) == Extend(GetTail(s), t)
  {
    ReadsAreStable();
    forall s, t | GetTail(s).Some? ensures GetTail(s + t) == Extend(GetTail(s), t) {}
  }

  lemma ObjectiveReadIsStable()
    ensures forall s, t {:trigger GetObjective(s + t)} :: GetObjective(s).Some? ==> GetObjective(s + t) == Extend(GetObjective(s), t)
  {
    HeadReadIsStable();
    LimitsReadIsStable();
    RequirementsReadIsStable();
    TailReadIsStable();
    forall s, t | GetObjective(s).Some? ensures GetObjective(s + t) == Extend(GetObjective(s), t) {}
  }

  lemma TermsReadIsStable()
    ensures forall s, t {:trigger GetTerms(s + t)} :: GetTerms(s).Some? ==> GetTerms(s + t) == Extend(GetTerms(s), t)
  {
    ReadsAreStable();
    ValueReadsAreStable();
    forall s, t | GetTerms(s).Some? ensures GetTerms(s + t) == Extend(GetTerms(s), t) {}
  }

  lemma AllReadsAreStable<T(!new)>(get: seq<byte> -> Option<(T, seq<byte>)>)
    requires Stable(get)
    ensures forall n: nat, s, t {:trigger GetAll(get, n, s + t)} ::
      GetAll(get, n, s).Some? ==> GetAll(get, n, s + t) == Extend(GetAll(get, n, s), t)
  {
    forall n: nat, s, t | GetAll(get, n, s).Some? ensures GetAll(get, n, s + t) == Extend(GetAll(get, n, s), t) {
      ListReadIsStable(get, n, s, t);
    }
  }

  lemma ContractReadIsStable()
    ensures forall s, t {:trigger GetContract(s + t)} :: GetContract(s).Some? ==> GetContract(s + t) == Extend(GetContract(s), t)
  {
    ReadsAreStable();
    ValueReadsAreStable();
    ObjectiveReadIsStable();
    AllReadsAreStable(GetObjective);
    TermsReadIsStable();
    forall s, t | GetContract(s).Some? ensures GetContract(s + t) == Extend(GetContract(s), t) {}
  }

  lemma PolicyReadIsStable()
    ensures forall s, t {:trigger GetPolicy(s + t)} :: GetPolicy(s).Some? ==> GetPolicy(s + t) == Extend(GetPolicy(s), t)
  {
    ReadsAreStable();
    forall s, t | GetPolicy(s).Some? ensures GetPolicy(s + t) == Extend(GetPolicy(s), t) {}
  }

  lemma SnapshotReadIsStable()
    ensures forall s, t {:trigger GetSnapshot(s + t)} :: GetSnapshot(s).Some? ==> GetSnapshot(s + t) == Extend(GetSnapshot(s), t)
  {
    ReadsAreStable();
    forall s, t | GetSnapshot(s).Some? ensures GetSnapshot(s + t) == Extend(GetSnapshot(s), t) {}
  }

  lemma SubjectReadIsStable()
    ensures forall s, t {:trigger GetSubject(s + t)} :: GetSubject(s).Some? ==> GetSubject(s + t) == Extend(GetSubject(s), t)
  {
    ReadsAreStable();
    forall s, t | GetSubject(s).Some? ensures GetSubject(s + t) == Extend(GetSubject(s), t) {}
  }

  lemma ReceiptReadIsStable()
    ensures forall s, t {:trigger GetReceipt(s + t)} :: GetReceipt(s).Some? ==> GetReceipt(s + t) == Extend(GetReceipt(s), t)
  {
    ReadsAreStable();
    SubjectReadIsStable();
    forall s, t | GetReceipt(s).Some? ensures GetReceipt(s + t) == Extend(GetReceipt(s), t) {}
  }

  lemma VerdictReadIsStable()
    ensures forall s, t {:trigger GetVerdict(s + t)} :: GetVerdict(s).Some? ==> GetVerdict(s + t) == Extend(GetVerdict(s), t)
  {
    ReadsAreStable();
    forall s, t | GetVerdict(s).Some? ensures GetVerdict(s + t) == Extend(GetVerdict(s), t) {}
  }

  lemma EvaluationReadIsStable()
    ensures forall s, t {:trigger GetEvaluation(s + t)} :: GetEvaluation(s).Some? ==> GetEvaluation(s + t) == Extend(GetEvaluation(s), t)
  {
    ReadsAreStable();
    VerdictReadIsStable();
    forall s, t | GetEvaluation(s).Some? ensures GetEvaluation(s + t) == Extend(GetEvaluation(s), t) {}
  }

  lemma CountedReadIsStable<T(!new)>(get: seq<byte> -> Option<(T, seq<byte>)>)
    requires Stable(get)
    ensures forall s, t {:trigger GetList(get, s + t)} ::
      GetList(get, s).Some? ==> GetList(get, s + t) == Extend(GetList(get, s), t)
  {
    ValueReadsAreStable();
    AllReadsAreStable(get);
  }

  lemma StateReadIsStable()
    ensures forall s, t {:trigger GetState(s + t)} :: GetState(s).Some? ==> GetState(s + t) == Extend(GetState(s), t)
  {
    ReadsAreStable();
    PolicyReadIsStable();
    ContractReadIsStable();
    SnapshotReadIsStable();
    ReceiptReadIsStable();
    EvaluationReadIsStable();
    CountedReadIsStable(GetPolicy);
    CountedReadIsStable(GetContract);
    CountedReadIsStable(GetSnapshot);
    CountedReadIsStable(GetReceipt);
    CountedReadIsStable(GetEvaluation);
    forall s, t | GetState(s).Some? ensures GetState(s + t) == Extend(GetState(s), t) {}
  }

  /** No accepted body is a proper prefix of another, so every truncation and every extension of
      an accepted body is rejected. */
  lemma AcceptedBodiesArePrefixFree(s: seq<byte>, t: seq<byte>)
    requires Deserialize(s).Some? && Deserialize(s + t).Some?
    ensures t == []
  {
    StateReadIsStable();
    assert GetState(s + t).value.1 == [] + t;
  }

  // ----- What a decoder lets through -----

  lemma ValueIsGood(s: seq<byte>)
    ensures GetValue(s).Some? ==> GoodValue(GetValue(s).value.0)
  {}

  lemma OptionIsGood(s: seq<byte>)
    ensures GetOption(s).Some? ==> GoodOption(GetOption(s).value.0)
  {
    var has := GetBool(s);
    if has.Some? && has.value.0 {
      ValueIsGood(has.value.1);
    }
  }

  lemma LimitsAreGood(s: seq<byte>)
    ensures GetLimits(s).Some? ==>
      var l := GetLimits(s).value.0; GoodValue(l.target) && GoodOption(l.breach) && GoodOption(l.recovery)
  {
    ValueIsGood(s);
    if GetValue(s).Some? {
      var s1 := GetValue(s).value.1;
      OptionIsGood(s1);
      if GetOption(s1).Some? {
        OptionIsGood(GetOption(s1).value.1);
      }
    }
  }

  lemma HeadIsGood(s: seq<byte>)
    ensures GetHead(s).Some? ==> |GetHead(s).value.0.name| <= MAX_BYTES
  {}

  lemma RequirementsAreGood(s: seq<byte>)
    ensures GetRequirements(s).Some? ==>
      var r := GetRequirements(s).value.0; r.minEvidence >= 0 && FractionPasses(r.uncertainty) && r.freshnessTtl >= 0
  {}

  lemma TailIsGood(s: seq<byte>)
    ensures GetTail(s).Some? ==> var t := GetTail(s).value.0; t.windowCount > 0 && FractionPasses(t.percentileRank)
  {}

  lemma ObjectiveIsGood(s: seq<byte>)
    ensures GetObjective(s).Some? ==> GoodObjective(GetObjective(s).value.0)
  {
    HeadIsGood(s);
    if GetHead(s).Some? {
      var s1 := GetHead(s).value.1;
      LimitsAreGood(s1);
      if GetLimits(s1).Some? {
        var s2 := GetLimits(s1).value.1;
        RequirementsAreGood(s2);
        if GetRequirements(s2).Some? {
          TailIsGood(GetRequirements(s2).value.1);
        }
      }
    }
  }

  lemma {:induction false} ListIsGood<T(!new)>(get: seq<byte> -> Option<(T, seq<byte>)>, good: T -> bool, n: nat, s: seq<byte>)
    requires forall r {:trigger get(r)} :: get(r).Some? ==> good(get(r).value.0)
    ensures GetAll(get, n, s).Some? ==> |GetAll(get, n, s).value.0| == n && All(good, GetAll(get, n, s).value.0)
    decreases n
  {
    if n > 0 && get(s).Some? {
      ListIsGood(get, good, n - 1, get(s).value.1);
    }
  }

  lemma CountedIsGood<T(!new)>(get: seq<byte> -> Option<(T, seq<byte>)>, good: T -> bool, s: seq<byte>)
    requires forall r {:trigger get(r)} :: get(r).Some? ==> good(get(r).value.0)
    ensures GetList(get, s).Some? ==> GoodList(good, GetList(get, s).value.0)
  {
    if GetCount(s).Some? {
      ListIsGood(get, good, GetCount(s).value.0, GetCount(s).value.1);
    }
  }

  lemma TermsAreGood(s: seq<byte>)
    ensures GetTerms(s).Some? ==>
      |GetTerms(s).value.0.name| <= MAX_BYTES && |GetTerms(s).value.0.provenance| <= MAX_BYTES
  {}

  lemma ObjectivesAreGood(n: nat, s: seq<byte>)
    ensures GetAll(GetObjective, n, s).Some? ==>
      |GetAll(GetObjective, n, s).value.0| == n && All(GoodObjective, GetAll(GetObjective, n, s).value.0)
  {
    forall r ensures GetObjective(r).Some? ==> GoodObjective(GetObjective(r).value.0) {
      ObjectiveIsGood(r);
    }
    ListIsGood(GetObjective, GoodObjective, n, s);
  }

  lemma ContractIsGood(s: seq<byte>)
    ensures GetContract(s).Some? ==> GoodContract(GetContract(s).value.0)
  {
    if GetContract(s).Some? {
      var s1 := GetU64(s).value.1;
      var s2 := GetU64(s1).value.1;
      var s3 := GetU64(s2).value.1;
      var s4 := GetU64(s3).value.1;
      var (n, s6) := GetCount(GetU64(s4).value.1).value;
      ObjectivesAreGood(n, s6);
      TermsAreGood(GetAll(GetObjective, n, s6).value.1);
    }
  }

  lemma PolicyIsGood(s: seq<byte>)
    ensures GetPolicy(s).Some? ==> GoodPolicy(GetPolicy(s).value.0)
  {}

  lemma SnapshotIsGood(s: seq<byte>)
    ensures GetSnapshot(s).Some? ==> GoodSnapshot(GetSnapshot(s).value.0)
  {}

  lemma SubjectIsGood(s: seq<byte>)
    ensures GetSubject(s).Some? ==> |GetSubject(s).value.0.reason| <= MAX_BYTES
  {}

  lemma ReceiptIsGood(s: seq<byte>)
    ensures GetReceipt(s).Some? ==> GoodReceipt(GetReceipt(s).value.0)
  {
    if GetReceipt(s).Some? {
      var s1 := GetU64(GetU64(s).value.1).value.1;
      var s2 := GetByte(GetByte(s1).value.1).value.1;
      SubjectIsGood(GetU64(GetU64(GetU64(s2).value.1).value.1).value.1);
    }
  }

  lemma PoliciesAreGood(s: seq<byte>)
    ensures GetList(GetPolicy, s).Some? ==> GoodList(GoodPolicy, GetList(GetPolicy, s).value.0)
  {
    forall r ensures GetPolicy(r).Some? ==> GoodPolicy(GetPolicy(r).value.0) {
      PolicyIsGood(r);
    }
    CountedIsGood(GetPolicy, GoodPolicy, s);
  }

  lemma ContractsAreGood(s: seq<byte>)
    ensures GetList(GetContract, s).Some? ==> GoodContracts(GetList(GetContract, s).value.0)
  {
    ghost var good := c => GoodContract(c);
    forall r ensures GetContract(r).Some? ==> good(GetContract(r).value.0) {
      ContractIsGood(r);
    }
    CountedIsGood(GetContract, good, s);
  }

  lemma SnapshotsAreGood(s: seq<byte>)
    ensures GetList(GetSnapshot, s).Some? ==> GoodList(GoodSnapshot, GetList(GetSnapshot, s).value.0)
  {
    forall r ensures GetSnapshot(r).Some? ==> GoodSnapshot(GetSnapshot(r).value.0) {
      SnapshotIsGood(r);
    }
    CountedIsGood(GetSnapshot, GoodSnapshot, s);
  }

  lemma ReceiptsAreGood(s: seq<byte>)
    ensures GetList(GetReceipt, s).Some? ==> GoodList(GoodReceipt, GetList(GetReceipt, s).value.0)
  {
    forall r ensures GetReceipt(r).Some? ==> GoodReceipt(GetReceipt(r).value.0) {
      ReceiptIsGood(r);
    }
    CountedIsGood(GetReceipt, GoodReceipt, s);
  }

  lemma EvaluationsAreBounded(s: seq<byte>)
    ensures GetList(GetEvaluation, s).Some? ==> |GetList(GetEvaluation, s).value.0| <= MAX_ITEMS
  {
    ghost var good := (e: EvaluationRecord) => true;
    CountedIsGood(GetEvaluation, good, s);
  }

  /** Whatever the bytes, a state that the decoder delivers meets all its demands. */
  lemma DecodedIsGood(s: seq<byte>)
    ensures Deserialize(s).Some? ==> GoodState(Deserialize(s).value)
  {
    if Deserialize(s).Some? {
      var s1 := GetU32(GetU32(s).value.1).value.1;
      ListsAreGood(GetU64(s1).value.1);
    }
  }

  /** The five lists that are read one behind the other. */
  ghost predicate GoodLists(s: seq<byte>) {
    && GetList(GetPolicy, s).Some? && GoodList(GoodPolicy, GetList(GetPolicy, s).value.0)
    && var s1 := GetList(GetPolicy, s).value.1;
    && GetList(GetContract, s1).Some? && GoodContracts(GetList(GetContract, s1).value.0)
    && var s2 := GetList(GetContract, s1).value.1;
    && GetList(GetSnapshot, s2).Some? && GoodList(GoodSnapshot, GetList(GetSnapshot, s2).value.0)
    && var s3 := GetList(GetSnapshot, s2).value.1;
    && GetList(GetReceipt, s3).Some? && GoodList(GoodReceipt, GetList(GetReceipt, s3).value.0)
    && var s4 := GetList(GetReceipt, s3).value.1;
    && GetList(GetEvaluation, s4).Some? && |GetList(GetEvaluation, s4).value.0| <= MAX_ITEMS
  }

  lemma ListsAreGood(s: seq<byte>)
    requires GetList(GetPolicy, s).Some?
    requires var s1 := GetList(GetPolicy, s).value.1;
      && GetList(GetContract, s1).Some?
      && var s2 := GetList(GetContract, s1).value.1;
      && GetList(GetSnapshot, s2).Some?
      && var s3 := GetList(GetSnapshot, s2).value.1;
      && GetList(GetReceipt, s3).Some?
      && var s4 := GetList(GetReceipt, s3).value.1;
      GetList(GetEvaluation, s4).Some?
    ensures GoodLists(s)
  {
    var s1 := GetList(GetPolicy, s).value.1;
    var s2 := GetList(GetContract, s1).value.1;
    var s3 := GetList(GetSnapshot, s2).value.1;
    var s4 := GetList(GetReceipt, s3).value.1;
    PoliciesAreGood(s);
    ContractsAreGood(s1);
    SnapshotsAreGood(s2);
    ReceiptsAreGood(s3);
    EvaluationsAreBounded(s4);
  }
}
