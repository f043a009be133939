/** What the answers of the fabric say: verdicts, actions, records and receipts, field by field. */
module Reports {
  import opened Types
  import opened Trends
  import opened Decisions
  import opened Binding
  import opened Accumulators
  import opened Lives
  import opened Tables
  import opened Engine
  import opened Runs
  import opened Fencing
  import opened Intents
  import opened Precedence
  import opened Measures
  import opened Histories

  /** The answer to an evaluation, the state it leaves and what they are made from. */
  lemma AnswerParts(s: State, op: Op) returns (c: Contract, p: Policy, judged: State, js: seq<Judgement>)
    requires Legal(s, op) && op.Evaluate? && Step(s, op).1.Evaluated?
    ensures Chosen(s, op) == Some(c) && PolicyFor(s, c) == Some(p)
    ensures judged == s.(accs := Step(s, op).0.accs) && js == JudgeAll(s.accs, c.objectives, op.now) && js != []
    ensures Step(s, op).1.evaluation == EvaluationOf(judged, c, p, js, op)
    ensures Step(s, op).0 == Recorded(judged, RecordOf(judged, c, Step(s, op).1.evaluation, op))
  {
    assert Step(s, op) == DoEvaluate(s, op);
    c := Chosen(s, op).value;
    p := PolicyFor(s, c).value;
    judged := s.(accs := Step(s, op).0.accs);
    js := JudgeAll(s.accs, c.objectives, op.now);
  }

  // ----- Verdicts -----

  /** The overall state and the binding objective, as an evaluation reports them. */
  ghost predicate ReportsVerdict(ev: Evaluation, js: seq<Judgement>) {
    if AnyState(js, RevalidationRequired) then ev.compliance.RevalidationRequired? && ev.bindingObjective == 0
    else if AnyState(js, InsufficientEvidence) then ev.compliance.InsufficientEvidence? && ev.bindingObjective == 0
    else exists k {:trigger js[k]} :: 0 <= k < |js| && ReportsBinding(ev, js, k)
  }

  /** Judgement `k` is reported as binding: it is the first of all where all are compliant, and otherwise
      it is out of compliance and precedes every other one that is. */
  ghost predicate ReportsBinding(ev: Evaluation, js: seq<Judgement>, k: nat)
    requires k < |js|
  {
    && ev.compliance == js[k].state && ev.bindingObjective == js[k].objective.id
    && ev.bindingDimension == js[k].objective.dim
    && (ComesFirst(js[k], js)
        || (k == 0 && forall i {:trigger js[i]} :: 0 <= i < |js| ==> js[i].state.Compliant?))
  }

  lemma VerdictReported(judged: State, c: Contract, p: Policy, js: seq<Judgement>, op: Op, ev: Evaluation)
    requires op.Evaluate? && js != [] && ev == EvaluationOf(judged, c, p, js, op)
    requires DistinctNames(js) && (AllUsable(js) ==> RankedByState(js))
    ensures ReportsVerdict(ev, js)
  {
    if !AnyState(js, RevalidationRequired) && !AnyState(js, InsufficientEvidence) {
      assert AllUsable(js);
      var b := Decide(js).binding.value;
      if exists i {:trigger js[i]} :: 0 <= i < |js| && !js[i].state.Compliant? {
        BindingSpelledOut(js, b);
        var k :| 0 <= k < |js| && js[k] == b;
        assert ReportsBinding(ev, js, k);
      } else {
        AllCompliantNone(js);
        assert Candidates(js) == [js[0]];
        assert ReportsBinding(ev, js, 0);
      }
    }
  }

  /** What every evaluation of a contract whose objectives have distinct names reports. */
  lemma VerdictOnStep(s: State, op: Op)
    requires Legal(s, op) && op.Evaluate? && Step(s, op).1.Evaluated?
    requires DistinctNames(Step(s, op).1.evaluation.judgements)
    ensures ReportsVerdict(Step(s, op).1.evaluation, Step(s, op).1.evaluation.judgements)
  {
    var c, p, judged, js := AnswerParts(s, op);
    if AllUsable(js) {
      UsableIsRanked(s.accs, c.objectives, op.now, js);
    }
    VerdictReported(judged, c, p, js, op, Step(s, op).1.evaluation);
  }

  // ----- Actions -----

  /** What is done about an objective out of compliance, by its dimension and how severe it is. */
  predicate Remedy(dim: Dimension, state: ComplianceState, action: EnforcementAction) {
    var urgent := state.Violating? || state.Recovering?;
    && (urgent || state.AtRisk? || state.NearLimit?)
    && (dim.Latency? ==> action == if urgent then IncreaseCapacity else PromoteWarmCapacity)
    && (dim.Availability? ==> action == Replicate)
    && (dim.Throughput? ==> action == if urgent then IncreaseCapacity else IncreaseBatchSize)
    && (dim.RecoveryTime? ==> action == if urgent then Failover else ReplanRecovery)
    && (dim.MemoryPressure? ==> action == if urgent then ReclaimMemory else ReduceResidency)
    && (dim.Cost? ==> action == ManualInterventionRequired)
  }

  lemma ActionIsRemedy(dim: Dimension, state: ComplianceState, action: EnforcementAction)
    ensures !action.NoAction? ==> (action == ActionFor(dim, state) <==> Remedy(dim, state, action))
  {}

  /** The intent is about judgement `k`, the one reported as binding, and asks for its remedy. */
  ghost predicate AsksRemedy(ev: Evaluation, js: seq<Judgement>, k: nat)
    requires k < |js|
  {
    var i, o := ev.intent, js[k].objective;
    && ev.compliance == js[k].state && ev.bindingObjective == o.id && ev.bindingDimension == o.dim
    && i.objectiveId == o.id && i.objectiveGen == o.gen && i.dimension == o.dim && i.class_ == o.enforcement
    && !o.enforcement.NoEnforcement? && Remedy(o.dim, js[k].state, i.action)
  }

  lemma ActionReported(judged: State, c: Contract, p: Policy, js: seq<Judgement>, op: Op, ev: Evaluation) returns (k: nat)
    requires op.Evaluate? && js != [] && ev == EvaluationOf(judged, c, p, js, op) && !ev.intent.action.NoAction?
    ensures k < |js| && AsksRemedy(ev, js, k)
  {
    BindingNeedsEvidence(js);
    k :| 0 <= k < |js| && js[k] == Decide(js).binding.value;
    ActionIsRemedy(js[k].objective.dim, js[k].state, ev.intent.action);
  }

  /** An intent that asks for an action names the binding objective, and the action is the remedy for its
      dimension and severity. */
  lemma ActionOnStep(s: State, op: Op)
    requires Legal(s, op) && op.Evaluate? && Step(s, op).1.Evaluated?
    requires !Step(s, op).1.evaluation.intent.action.NoAction?
    ensures var ev := Step(s, op).1.evaluation;
      exists k {:trigger ev.judgements[k]} :: 0 <= k < |ev.judgements| && AsksRemedy(ev, ev.judgements, k)
  {
    var c, p, judged, js := AnswerParts(s, op);
    var k := ActionReported(judged, c, p, js, op, Step(s, op).1.evaluation);
  }

  // ----- Records of evaluations -----

  /** The record that an evaluation leaves repeats its answer and numbers it. */
  predicate Repeats(r: EvaluationRecord, number: int, epoch: U64, ev: Evaluation, op: Op)
    requires op.Evaluate?
  {
    && r.evaluationId == number && r.evaluationGen == number && r.evidenceGen == number
    && r.contractGen == ev.contractGen && r.policyGen == ev.policyGen && r.epoch == epoch && r.time == op.now
    && r.compliance == ev.compliance && r.bindingDimension == ev.bindingDimension
    && r.bindingObjective == ev.bindingObjective && r.selectedAction == ev.intent.action && r.digest == op.notes.digest
  }

  /** The fields of an intent that do not depend on the verdict. */
  predicate Stamped(i: Intent, number: int, epoch: U64, ev: Evaluation, op: Op)
    requires op.Evaluate?
  {
    && i.service == op.service && i.workload == op.workload && i.epoch == epoch
    && i.contractGen == ev.contractGen && i.policyGen == ev.policyGen && i.workloadGen == 1
    && i.evidenceGen == number && i.evaluationId == number && i.evaluationGen == number && i.cooldown == 5_000_000_000
  }

  lemma RecordReported(judged: State, c: Contract, p: Policy, js: seq<Judgement>, op: Op, ev: Evaluation)
    requires op.Evaluate? && js != [] && ev == EvaluationOf(judged, c, p, js, op) && c.policyGen == p.gen
    ensures var number := if judged.evaluationCount < 0xFFFF_FFFF_FFFF_FFFF then judged.evaluationCount + 1 else 0;
      && Successor(judged.evaluationCount) == number && Stamped(ev.intent, number, judged.epoch, ev, op)
      && Repeats(RecordOf(judged, c, ev, op), number, judged.epoch, ev, op)
  {}

  /** Every evaluation numbers itself, stamps its intent, and leaves a record that repeats its answer behind
      the earlier ones, of which the last 1024 are kept. */
  lemma RecordOnStep(s: State, op: Op)
    requires Legal(s, op) && op.Evaluate? && Step(s, op).1.Evaluated?
    ensures var ev, s' := Step(s, op).1.evaluation, Step(s, op).0;
      var number := if s.evaluationCount < 0xFFFF_FFFF_FFFF_FFFF then s.evaluationCount + 1 else 0;
      && s'.evaluationCount == number && Stamped(ev.intent, number, s.epoch, ev, op)
      && exists r :: Repeats(r, number, s.epoch, ev, op)
                     && s'.evaluations == (if |s.evaluations| < 1024 then s.evaluations else s.evaluations[1..]) + [r]
  {
    var c, p, judged, js := AnswerParts(s, op);
    RecordReported(judged, c, p, js, op, Step(s, op).1.evaluation);
  }

  /** The ranked intents are the remedies for the objectives out of compliance, marked where binding. */
  lemma {:induction false} RankedExactly(js: seq<Judgement>, bindingId: U64, r: RankedIntent)
    ensures r in RankedIntents(js, bindingId) <==>
      exists k {:trigger js[k]} :: 0 <= k < |js|
        && Remedy(js[k].objective.dim, js[k].state, r.action) && r.selected == (js[k].objective.id == bindingId)
  {
    if js != [] {
      var past, j := js[..|js| - 1], js[|js| - 1];
      assert forall i :: 0 <= i < |past| ==> past[i] == js[i];
      RankedExactly(past, bindingId, r);
      ActionIsRemedy(j.objective.dim, j.state, r.action);
    }
  }

  // ----- Which contract an evaluation decides on -----

  /** Active, in effect, not expired and for the scope. */
  predicate InScope(c: Contract, op: Op)
    requires op.Evaluate?
  {
    && c.service == op.service && c.workload == op.workload && c.lifecycle == ContractLifecycle.Active
    && c.effectiveFrom <= op.now && (c.expiration.None? || op.now < c.expiration.value)
  }

  /** Entry `k` is in scope; every other one in scope has a lower generation, or the same and comes later. */
  ghost predicate Decides(t: Table<Contract>, op: Op, k: nat)
    requires op.Evaluate?
  {
    && k < |t| && InScope(t[k].value, op)
    && forall j {:trigger t[j]} :: 0 <= j < |t| && InScope(t[j].value, op) ==>
         t[j].value.gen < t[k].value.gen || (t[j].value.gen == t[k].value.gen && k <= j)
  }

  lemma {:induction false} ScopedDecides(t: Table<Contract>, op: Op) returns (k: nat)
    requires op.Evaluate?
    ensures var c := Scoped(t, op.service, op.workload, op.now);
      if c.Some? then Decides(t, op, k) && t[k].value == c.value
      else forall j {:trigger t[j]} :: 0 <= j < |t| ==> !InScope(t[j].value, op)
  {
    k := 0;
    if t != [] {
      var past, last := t[..|t| - 1], t[|t| - 1].value;
      assert forall i :: 0 <= i < |past| ==> past[i] == t[i];
      k := ScopedDecides(past, op);
      var before := Scoped(past, op.service, op.workload, op.now);
      if InScope(last, op) && (before.None? || last.gen > before.value.gen) {
        k := |t| - 1;
      }
    }
  }

  /** An evaluation is carried out exactly when some contract is in scope and the one that decides is under
      the current generation of its policy; the answer names that contract and that policy, and has one
      judgement for each of its objectives. */
  lemma EvaluatedExactly(s: State, op: Op)
    requires Legal(s, op) && op.Evaluate?
    ensures Step(s, op).1.Evaluated? <==> exists k: nat :: Carries(s, op, k)
    ensures Step(s, op).1.Evaluated? ==>
      var ev := Step(s, op).1.evaluation;
      exists k: nat :: Carries(s, op, k) && Names(ev, s.contracts[k].value)
    ensures !Step(s, op).1.Evaluated? ==> Step(s, op).0 == s
  {
    var k := ScopedDecides(s.contracts, op);
    var c := Scoped(s.contracts, op.service, op.workload, op.now);
    assert Step(s, op) == DoEvaluate(s, op);
    assert Step(s, op).1.Evaluated? <==> c.Some? && PolicyFor(s, c.value).Some?;
    OneDecides(s, op, k);
    if Step(s, op).1.Evaluated? {
      AnswerNames(s, op, c.value);
      assert Carries(s, op, k);
    }
  }

  /** Entry `k` decides, under the current generation of its policy. */
  ghost predicate Carries(s: State, op: Op, k: nat)
    requires op.Evaluate?
  {
    && Decides(s.contracts, op, k)
    && var c := s.contracts[k].value;
       Lookup(s.policies, c.policyId).Some? && Lookup(s.policies, c.policyId).value.gen == c.policyGen
  }

  /** The evaluation is one of the contract under its policy. */
  predicate Names(ev: Evaluation, c: Contract) {
    && ev.contractId == c.id && ev.contractGen == c.gen && ev.policyGen == c.policyGen
    && |ev.judgements| == |c.objectives|
    && forall i {:trigger ev.judgements[i]} :: 0 <= i < |c.objectives| ==> ev.judgements[i].objective == c.objectives[i]
  }

  lemma OneDecides(s: State, op: Op, k: nat)
    requires op.Evaluate?
    ensures forall j: nat {:trigger Carries(s, op, j)} :: Carries(s, op, j) && Decides(s.contracts, op, k) ==> j == k
    ensures (forall j {:trigger s.contracts[j]} :: 0 <= j < |s.contracts| ==> !InScope(s.contracts[j].value, op))
      ==> forall j: nat {:trigger Carries(s, op, j)} :: !Carries(s, op, j)
  {}

  lemma AnswerNames(s: State, op: Op, c: Contract)
    requires Legal(s, op) && op.Evaluate? && Step(s, op).1.Evaluated? && Chosen(s, op) == Some(c)
    ensures Names(Step(s, op).1.evaluation, c)
  {
    var c', p, judged, js := AnswerParts(s, op);
    forall k | 0 <= k < |js| ensures js[k].objective == c.objectives[k] {
      JudgedStateAt(s.accs, c.objectives, op.now, k);
    }
  }

  // ----- Authorization -----

  /** Entry `k` is the last with the service and the objective. */
  ghost predicate LastServing(t: Table<Contract>, k: nat, id: U64, service: U64) {
    && k < |t| && HasObjective(t[k].value, id, service)
    && forall j {:trigger t[j]} :: k < j < |t| ==> !HasObjective(t[j].value, id, service)
  }

  ghost predicate HasObjective(c: Contract, id: U64, service: U64) {
    c.service == service && exists j {:trigger c.objectives[j]} :: 0 <= j < |c.objectives| && c.objectives[j].id == id
  }

  lemma {:induction false} TargetIsLast(t: Table<Contract>, id: U64, service: U64) returns (k: nat)
    ensures var c := Target(t, id, service);
      if c.Some? then LastServing(t, k, id, service) && t[k].value == c.value
      else forall j {:trigger t[j]} :: 0 <= j < |t| ==> !HasObjective(t[j].value, id, service)
  {
    k := 0;
    if t != [] {
      var past, last := t[..|t| - 1], t[|t| - 1].value;
      assert forall i :: 0 <= i < |past| ==> past[i] == t[i];
      FirstInMember(last.objectives, id);
      if FirstIn(last.objectives, id).Some? && last.service == service {
        k := |t| - 1;
      } else {
        k := TargetIsLast(past, id, service);
      }
    }
  }

  /** The contract may authorize at `now` what the intent asks for, under its policy's current generation. */
  predicate Backs(s: State, c: Contract, i: Intent, now: I64) {
    && c.gen == i.contractGen && c.lifecycle == ContractLifecycle.Active && c.effectiveFrom <= now
    && (c.expiration.None? || now < c.expiration.value)
    && Lookup(s.policies, c.policyId).Some? && Lookup(s.policies, c.policyId).value.gen == i.policyGen
  }

  /** An intent is authorized exactly when it is of this epoch, asks for an action, and the last contract
      with its service and objective is of its generation, active, in effect, not expired and under a policy
      of its generation. A refusal changes nothing. */
  lemma AuthorizedExactly(s: State, i: Intent, now: I64)
    ensures Step(s, Authorize(i, now)).1.Receipted? <==>
      && i.epoch == s.epoch && !i.action.NoAction?
      && exists k: nat :: LastServing(s.contracts, k, i.objectiveId, i.service) && Backs(s, s.contracts[k].value, i, now)
    ensures !Step(s, Authorize(i, now)).1.Receipted? ==> Step(s, Authorize(i, now)).0 == s
  {
    var k := TargetIsLast(s.contracts, i.objectiveId, i.service);
    var c := Target(s.contracts, i.objectiveId, i.service);
    assert Step(s, Authorize(i, now)).1.Receipted? <==> AuthorizeStatus(s, i, now) == Ok;
    OneServing(s.contracts, k, i.objectiveId, i.service);
    if c.Some? {
      assert AuthorizeStatus(s, i, now) == Ok <==> i.epoch == s.epoch && !i.action.NoAction? && Backs(s, c.value, i, now);
    }
  }

  lemma OneServing(t: Table<Contract>, k: nat, id: U64, service: U64)
    ensures LastServing(t, k, id, service) ==>
      forall j: nat {:trigger LastServing(t, j, id, service)} :: LastServing(t, j, id, service) ==> j == k
  {}

  /** The receipt repeats the intent and is numbered. */
  predicate Carried(r: Receipt, number: int, i: Intent) {
    && r.id == number && r.gen == number && r.action == i.action && r.lifecycle == AuthorizedReceipt && r.epoch == i.epoch
    && r.contractGen == i.contractGen && r.policyGen == i.policyGen && r.evaluationId == i.evaluationId
    && r.evaluationGen == i.evaluationGen && r.workloadGen == i.workloadGen && r.service == i.service
    && r.workload == i.workload && r.objectiveId == i.objectiveId && r.objectiveGen == i.objectiveGen && r.reason == i.reason
  }

  /** An authorization numbers and keeps a receipt that repeats the intent, behind the earlier ones, of which
      the last 1024 are kept, and makes the objective's accumulator cool down from now on; nothing else
      changes. */
  lemma ReceiptOnStep(s: State, i: Intent, now: I64)
    requires Step(s, Authorize(i, now)).1.Receipted?
    ensures var r, s' := Step(s, Authorize(i, now)).1.receipt, Step(s, Authorize(i, now)).0;
      var number := if s.enforcementCount < 0xFFFF_FFFF_FFFF_FFFF then s.enforcementCount + 1 else 0;
      && Carried(r, number, i)
      && s' == s.(enforcementCount := number, accs := s'.accs,
                  receipts := (if |s.receipts| < 1024 then s.receipts else s.receipts[1..]) + [r])
      && CooledOnly(s.accs, s'.accs, i.objectiveId, Wrapped(now + i.cooldown))
  {
    var touches := [Touch(i.objectiveId, Cool(Wrapped(now + i.cooldown)))];
    OneTouch(s.accs, touches[0]);
    CooledTouch(s.accs, i.objectiveId, Wrapped(now + i.cooldown));
  }

  /** The accumulator of the objective, if there is one, gets the cooldown; all else is as before. */
  ghost predicate CooledOnly(accs: map<U64, Accumulator>, accs': map<U64, Accumulator>, id: U64, until: I64) {
    accs' == if id in accs then accs[id := accs[id].(cooldownUntil := until)] else accs
  }

  lemma OneTouch(accs: map<U64, Accumulator>, t: Touch)
    ensures TouchAll(accs, [t]) == Touched(accs, t)
  {
    assert [t][..0] == [];
  }

  lemma CooledTouch(accs: map<U64, Accumulator>, id: U64, until: I64)
    ensures CooledOnly(accs, Touched(accs, Touch(id, Cool(until))), id, until)
  {
    if id !in accs {
      assert accs - {id} == accs;
    }
  }

  /** A cooldown that ends within the range of time ends exactly its length from now. */
  lemma WrapWithin(x: int)
    ensures -0x8000_0000_0000_0000 <= x <= 0x7FFF_FFFF_FFFF_FFFF ==> Wrapped(x) == x
  {}

  // ----- Lifecycle -----

  /** What the lifecycle calls make of the contract that they name. */
  predicate BecomesBy(c: Contract, c': Contract, op: Op) {
    match op
    case ActivateContract(_, now) =>
      && c'.lifecycle == ContractLifecycle.Active && c'.effectiveFrom <= now && c'.effectiveFrom <= c.effectiveFrom
      && (c'.effectiveFrom == now || c'.effectiveFrom == c.effectiveFrom) && c'.expiration == c.expiration
    case ExpireContract(_, now) =>
      && c'.lifecycle == ContractLifecycle.Expired && c'.effectiveFrom == c.effectiveFrom
      && c'.expiration.Some? && (c.expiration.Some? ==> c'.expiration == c.expiration)
      && (c.expiration.None? ==> c'.expiration.value == now)
    case SuspendContract(_) =>
      && c'.lifecycle == ContractLifecycle.Suspended && c'.effectiveFrom == c.effectiveFrom && c'.expiration == c.expiration
    case RetireContract(_) =>
      && c'.lifecycle == ContractLifecycle.Retired && c'.effectiveFrom == c.effectiveFrom && c'.expiration == c.expiration
    case _ => false
  }

  /** A lifecycle call changes the lifecycle and dates of the contract that it names, and nothing else; it is
      refused exactly when there is no such contract. Only an activated contract can authorize, from now on
      and until it expires. */
  lemma LifecycleOnStep(s: State, op: Op, k: U64)
    requires op.ActivateContract? || op.SuspendContract? || op.ExpireContract? || op.RetireContract?
    ensures Step(s, op).1 == if Lookup(s.contracts, op.id).Some? then Answer(Ok) else Answer(NotFound)
    ensures var s' := Step(s, op).0; s' == s.(contracts := s'.contracts)
    ensures var c, c' := Lookup(s.contracts, k), Lookup(Step(s, op).0.contracts, k);
      if k == op.id && c.Some? then
        && c'.Some? && BecomesBy(c.value, c'.value, op)
        && c'.value.(lifecycle := c.value.lifecycle, effectiveFrom := c.value.effectiveFrom, expiration := c.value.expiration)
           == c.value
        && forall now: int :: c'.value.CanAuthorize(now) ==> op.ActivateContract?
      else c' == c
  {
    var c := Lookup(s.contracts, op.id);
    if c.Some? {
      LookupPut(s.contracts, op.id, Amended(c.value, op), k);
    }
  }

  // ----- Judgements -----

  lemma {:induction false} NoAssessments(os: seq<Objective>, now: I64, id: U64)
    requires forall i {:trigger os[i]} :: 0 <= i < |os| ==> os[i].id != id
    ensures Of(Assessments(os, now), id) == []
  {
    if os != [] {
      var past, o := os[..|os| - 1], os[|os| - 1];
      assert forall i :: 0 <= i < |past| ==> past[i] == os[i];
      NoAssessments(past, now, id);
      OfSnoc(Assessments(past, now), Touch(o.id, Assess(o, now)), id);
    }
  }

  /** The first judgement on an objective looks at the accumulator that the fabric has for it. */
  lemma JudgedFirst(accs: map<U64, Accumulator>, os: seq<Objective>, now: I64, k: nat)
    requires k < |os| && forall i {:trigger os[i]} :: 0 <= i < k ==> os[i].id != os[k].id
    ensures JudgedAt(accs, os, now, k) == Opened(Slot(accs, os[k].id), os[k])
  {
    TouchAllAt(accs, Assessments(os[..k], now), os[k].id);
    NoAssessments(os[..k], now, os[k].id);
  }

  /** What an evaluation finds out about an objective with current evidence that measures `m`: its state by the
      numbers alone, from what is noted of it and what is left of its budget. Without such evidence it is
      undecided. */
  lemma JudgementOnStep(s: State, op: Op, k: nat, o: Objective, acc: Accumulator, m: real)
    requires Legal(s, op) && op.Evaluate? && Step(s, op).1.Evaluated? && k < |Chosen(s, op).value.objectives|
    requires o == Chosen(s, op).value.objectives[k] && acc == Opened(Slot(s.accs, o.id), o)
    requires var os := Chosen(s, op).value.objectives; forall i {:trigger os[i]} :: 0 <= i < k ==> os[i].id != o.id
    ensures k < |Step(s, op).1.evaluation.judgements|
    ensures var j := Step(s, op).1.evaluation.judgements[k];
      && j.objective == o
      && (Measurable(acc) && FreshnessOf(acc, op.now).Current? && Measure(acc, op.now) == Some(m) ==>
            j.state == StateByNumbers(o, m, SpentAt(acc.budget, op.now), acc.lastState))
      && (!Measurable(acc) || !FreshnessOf(acc, op.now).Current? ==>
            j.state == if FreshnessOf(acc, op.now).StaleEvidence? then RevalidationRequired else InsufficientEvidence)
  {
    var c, p, judged, js := AnswerParts(s, op);
    JudgedFirst(s.accs, c.objectives, op.now, k);
    JudgeAllAt(s.accs, c.objectives, op.now, k);
    JudgementNumbers(acc, o, op.now, m);
  }

  lemma JudgementNumbers(acc: Accumulator, o: Objective, now: I64, m: real)
    ensures var j := JudgementOn(acc, o, now);
      && j.objective == o
      && (Measurable(acc) && FreshnessOf(acc, now).Current? && Measure(acc, now) == Some(m) ==>
            j.state == StateByNumbers(o, m, SpentAt(acc.budget, now), acc.lastState))
      && (!Measurable(acc) || !FreshnessOf(acc, now).Current? ==>
            j.state == if FreshnessOf(acc, now).StaleEvidence? then RevalidationRequired else InsufficientEvidence)
  {
    if !Measurable(acc) || !FreshnessOf(acc, now).Current? {
      JudgedWithout(acc, o, now);
    } else if Measure(acc, now) == Some(m) {
      JudgedByNumbers(acc, o, now, m);
    } else {
      MeasurableExactly(acc, now);
      JudgedByNumbers(acc, o, now, Measure(acc, now).value);
    }
  }

  // ----- Lists of an evaluation -----

  lemma {:induction false} RisksExactly(js: seq<Judgement>, r: Risk)
    ensures r in Risks(js) <==> !r.NoRisk? && exists k {:trigger js[k]} :: 0 <= k < |js| && js[k].risk == r
  {
    if js != [] {
      var past := js[..|js| - 1];
      assert forall i :: 0 <= i < |past| ==> past[i] == js[i];
      RisksExactly(past, r);
    }
  }

  /** The lists that an evaluation with a verdict reports: the other objectives out of compliance, the remedies
      for all of them, and every risk predicted. */
  ghost predicate ReportsLists(ev: Evaluation, js: seq<Judgement>, other: U64, r: RankedIntent, risk: Risk)
    requires js != []
  {
    && (Decide(js).binding.Some? ==>
          && (other in ev.secondaries <==> OtherNonCompliant(js, ev.bindingObjective, other))
          && (r in ev.ranked <==>
                exists k {:trigger js[k]} :: 0 <= k < |js| && Remedy(js[k].objective.dim, js[k].state, r.action)
                                             && r.selected == (js[k].objective.id == ev.bindingObjective)))
    && (Decide(js).binding.None? ==> ev.secondaries == [] && ev.ranked == [])
    && (risk in ev.risks <==> !risk.NoRisk? && exists k {:trigger js[k]} :: 0 <= k < |js| && js[k].risk == risk)
  }

  lemma ListsReported(judged: State, c: Contract, p: Policy, js: seq<Judgement>, op: Op, ev: Evaluation,
                      other: U64, r: RankedIntent, risk: Risk)
    requires op.Evaluate? && js != [] && ev == EvaluationOf(judged, c, p, js, op) && DistinctIds(js)
    ensures ReportsLists(ev, js, other, r, risk)
  {
    SecondariesExactly(js, ev.bindingObjective);
    RankedExactly(js, ev.bindingObjective, r);
    RisksExactly(js, risk);
  }

  lemma ListsOnStep(s: State, op: Op, other: U64, r: RankedIntent, risk: Risk)
    requires Legal(s, op) && op.Evaluate? && Step(s, op).1.Evaluated?
    requires DistinctIds(Step(s, op).1.evaluation.judgements)
    ensures Step(s, op).1.evaluation.judgements != []
    ensures ReportsLists(Step(s, op).1.evaluation, Step(s, op).1.evaluation.judgements, other, r, risk)
  {
    var c, p, judged, js := AnswerParts(s, op);
    ListsReported(judged, c, p, js, op, Step(s, op).1.evaluation, other, r, risk);
  }

  // ----- Answers to the other calls -----

  /** Some contract has the objective. */
  ghost predicate Defined(t: Table<Contract>, id: U64) {
    exists i, j {:trigger t[i].value.objectives[j]} ::
      0 <= i < |t| && 0 <= j < |t[i].value.objectives| && t[i].value.objectives[j].id == id
  }

  ghost predicate HasId(os: seq<Objective>, id: U64) {
    exists k {:trigger os[k]} :: 0 <= k < |os| && os[k].id == id
  }

  lemma DefinitionExactly(t: Table<Contract>, id: U64)
    ensures Definition(t, id).Some? <==> Defined(t, id)
  {
    NewestIsHighest(Objectives(t), id);
    FlatDefined(t, id);
    assert Definition(t, id).Some? <==> HasId(Objectives(t), id);
  }

  lemma {:induction false} FlatDefined(t: Table<Contract>, id: U64)
    ensures HasId(Objectives(t), id) <==> Defined(t, id)
  {
    if t != [] {
      var past, last := t[..|t| - 1], t[|t| - 1].value.objectives;
      FlatDefined(past, id);
      DefinedSnoc(t, past, last, id);
      FlatSnoc(Objectives(past), last, id);
      assert Objectives(t) == Objectives(past) + last;
    }
  }

  lemma FlatSnoc(a: seq<Objective>, b: seq<Objective>, id: U64)
    ensures HasId(a + b, id) <==> HasId(a, id) || HasId(b, id)
  {
    if k :| 0 <= k < |a| && a[k].id == id {
      assert (a + b)[k] == a[k];
    }
    if k :| 0 <= k < |b| && b[k].id == id {
      assert (a + b)[|a| + k] == b[k];
    }
  }

  lemma DefinedSnoc(t: Table<Contract>, past: Table<Contract>, last: seq<Objective>, id: U64)
    requires t != [] && past == t[..|t| - 1] && last == t[|t| - 1].value.objectives
    ensures Defined(t, id) <==> Defined(past, id) || HasId(last, id)
  {
    assert forall i :: 0 <= i < |past| ==> past[i] == t[i];
    if k :| 0 <= k < |last| && last[k].id == id {
      assert t[|t| - 1].value.objectives[k].id == id;
    }
    if i, j :| 0 <= i < |past| && 0 <= j < |past[i].value.objectives| && past[i].value.objectives[j].id == id {
      assert t[i].value.objectives[j].id == id;
    }
    if i, j :| 0 <= i < |t| && 0 <= j < |t[i].value.objectives| && t[i].value.objectives[j].id == id {
      if i < |past| {
        assert past[i].value.objectives[j].id == id;
      }
    }
  }

  lemma {:induction false} LookupsDefined(t: Table<Contract>, id: U64)
    ensures Lookups(t, id) != [] <==> Defined(t, id)
  {
    if t != [] {
      var past, last := t[..|t| - 1], t[|t| - 1].value.objectives;
      LookupsDefined(past, id);
      DefinedSnoc(t, past, last, id);
      FirstInMember(last, id);
      assert FirstIn(last, id).Some? <==> HasId(last, id);
    }
  }

  /** Recovery events are taken for every objective that some contract has, budgets too unless the total is
      negative, and violation events where a budget was set. */
  lemma EventsAnswered(s: State, id: U64, phase: Phase, now: I64, total: I64, window: I64)
    ensures Step(s, RecoveryEvent(id, phase, now)).1 == Answer(Ok) <==> Defined(s.contracts, id)
    ensures Step(s, SetBudget(id, total, window)).1 == Answer(Ok) <==> Defined(s.contracts, id) && total >= 0
    ensures Step(s, ViolationEvent(id)).1 == Answer(Ok)
      <==> Defined(s.contracts, id) && id in s.accs && s.accs[id].budget.Some?
  {
    DefinitionExactly(s.contracts, id);
    LookupsDefined(s.contracts, id);
    ViolationAnswered(s, id);
  }

  /** A policy or a superseding contract is accepted exactly when none of its id has its generation or a higher
      one, and then it is the one filed; everything else stays. */
  lemma ReplacedExactly(s: State, p: Policy, c: Contract, k: U64)
    ensures Step(s, SetPolicy(p)).1 == Answer(Ok)
      <==> (Lookup(s.policies, p.id).Some? ==> Lookup(s.policies, p.id).value.gen < p.gen)
    ensures var s' := Step(s, SetPolicy(p)).0;
      && s' == s.(policies := s'.policies)
      && Lookup(s'.policies, k)
         == if k == p.id && Step(s, SetPolicy(p)).1 == Answer(Ok) then Some(p) else Lookup(s.policies, k)
    ensures Step(s, SupersedeContract(c)).1 == Answer(Ok)
      <==> (Lookup(s.contracts, c.id).Some? ==> Lookup(s.contracts, c.id).value.gen < c.gen)
    ensures var s' := Step(s, SupersedeContract(c)).0;
      && s' == s.(contracts := s'.contracts)
      && Lookup(s'.contracts, k)
         == if k == c.id && Step(s, SupersedeContract(c)).1 == Answer(Ok) then Some(c) else Lookup(s.contracts, k)
  {
    LookupPut(s.policies, p.id, p, k);
    LookupPut(s.contracts, c.id, c, k);
  }

  /** An objective that a contract may be added with: an id, a generation, and a target in the unit of its
      dimension. */
  predicate Addable(o: Objective) {
    && o.id != 0 && o.gen != 0
    && (o.dim.Latency? || o.dim.RecoveryTime? ==> o.target.Nanoseconds?)
    && (o.dim.Availability? ==> o.target.BasisPoints?)
    && (o.dim.MemoryPressure? ==> o.target.PressureRatio?)
    && (o.dim.Cost? ==> o.target.CostMicros?)
    && (o.dim.Throughput? && o.rateTag.RequestRate? ==> o.target.RequestsPerSecond?)
    && (o.dim.Throughput? && o.rateTag.TokenRate? ==> o.target.TokensPerSecond?)
    && (o.dim.Throughput? && o.rateTag.ByteRate? ==> o.target.BytesPerSecond?)
    && (o.dim.Throughput? && o.rateTag.OperationRate? ==> o.target.OperationsPerSecond?)
  }

  lemma AddableExactly(o: Objective)
    ensures Addable(o) <==> o.id != 0 && o.gen != 0 && o.TargetUnitMatches()
  {}

  /** A contract is added exactly when it has objectives, all of them addable, and a generation above that of any
      contract of its id; then it is the one filed, and otherwise nothing changes. */
  lemma AddedOnStep(s: State, c: Contract, k: U64)
    ensures Step(s, AddContract(c)).1 == Answer(Ok) <==>
      && c.objectives != [] && (forall i {:trigger c.objectives[i]} :: 0 <= i < |c.objectives| ==> Addable(c.objectives[i]))
      && (Lookup(s.contracts, c.id).Some? ==> Lookup(s.contracts, c.id).value.gen < c.gen)
    ensures var s' := Step(s, AddContract(c)).0;
      && s' == s.(contracts := s'.contracts)
      && Lookup(s'.contracts, k)
         == if k == c.id && Step(s, AddContract(c)).1 == Answer(Ok) then Some(c) else Lookup(s.contracts, k)
  {
    AddedExactly(s, c);
    forall i | 0 <= i < |c.objectives|
      ensures Addable(c.objectives[i])
        <==> c.objectives[i].id != 0 && c.objectives[i].gen != 0 && c.objectives[i].TargetUnitMatches()
    {
      AddableExactly(c.objectives[i]);
    }
    LookupPut(s.contracts, c.id, c, k);
  }
}
