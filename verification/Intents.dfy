/** What an intent stands for, and how a cooldown holds further ones back. */
module Intents {
  import opened Types
  import opened Decisions
  import opened Binding
  import opened Accumulators
  import opened Lives
  import opened Tables
  import opened Engine
  import opened Runs
  import opened Fencing

  /** The judgements on the objectives in front are the same without the last objective. */
  lemma JudgeAllGrows(accs: map<U64, Accumulator>, os: seq<Objective>, now: I64) returns (past: seq<Judgement>, j: Judgement)
    requires os != []
    ensures past == JudgeAll(accs, os[..|os| - 1], now) && JudgeAll(accs, os, now) == past + [j]
    ensures j == JudgementOn(JudgedAt(accs, os, now, |os| - 1), os[|os| - 1], now)
  {
    past := JudgeAll(accs, os[..|os| - 1], now);
    j := JudgementOn(JudgedAt(accs, os, now, |os| - 1), os[|os| - 1], now);
  }

  lemma {:induction false} JudgeAllAt(accs: map<U64, Accumulator>, os: seq<Objective>, now: I64, k: nat)
    requires k < |os|
    ensures JudgeAll(accs, os, now)[k] == JudgementOn(JudgedAt(accs, os, now, k), os[k], now)
  {
    var past, j := JudgeAllGrows(accs, os, now);
    if k < |os| - 1 {
      JudgeAllAt(accs, os[..|os| - 1], now, k);
      SameFront(accs, os, os[..|os| - 1], now, k);
      assert JudgeAll(accs, os, now)[k] == past[k];
    }
  }

  lemma SameFront(accs: map<U64, Accumulator>, os: seq<Objective>, front: seq<Objective>, now: I64, k: nat)
    requires k < |front| <= |os| && front == os[..|front|]
    ensures JudgedAt(accs, front, now, k) == JudgedAt(accs, os, now, k) && front[k] == os[k]
  {
    assert front[..k] == os[..k];
  }

  lemma JudgedStateAt(accs: map<U64, Accumulator>, os: seq<Objective>, now: I64, k: nat)
    requires k < |os|
    ensures var j := JudgeAll(accs, os, now)[k];
      && j.objective == os[k]
      && (j.state.RevalidationRequired? || j.state.InsufficientEvidence?
          <==> Observe(JudgedAt(accs, os, now, k), now).Unusable?)
  {
    JudgeAllAt(accs, os, now, k);
    JudgedStates(JudgedAt(accs, os, now, k), os[k], now);
  }

  /** All evidence is usable in the judgements that lead to a verdict with a binding objective. */
  lemma BindingNeedsEvidence(js: seq<Judgement>)
    requires js != [] && Decide(js).binding.Some?
    ensures forall k {:trigger js[k]} :: 0 <= k < |js| ==> !js[k].state.RevalidationRequired? && !js[k].state.InsufficientEvidence?
    ensures Decide(js).binding.value in js && Decide(js).overall == Decide(js).binding.value.state
  {
    LeastIn(Candidates(js));
    NonCompliantMembers(js);
  }

  /** The intent of an evaluation, said of the evaluation's parts. */
  lemma EvaluationParts(s: State, op: Op)
    requires Legal(s, op) && op.Evaluate? && Step(s, op).1.Evaluated?
    ensures Chosen(s, op).Some?
    ensures var c, s' := Chosen(s, op).value, Step(s, op).0;
      var js := JudgeAll(s.accs, c.objectives, op.now);
      && js != [] && s'.accs == TouchAll(s.accs, Assessments(c.objectives, op.now))
      && s'.contracts == s.contracts && s'.policies == s.policies && s'.epoch == s.epoch
      && Step(s, op).1.evaluation.judgements == js && Step(s, op).1.evaluation.contractId == c.id
      && Step(s, op).1.evaluation.compliance == Decide(js).overall
      && Step(s, op).1.evaluation.intent
         == IntentOf(s.(accs := s'.accs), c, Decide(js), op.service, op.workload, op.now, op.notes.reason)
  {
    assert Step(s, op) == DoEvaluate(s, op);
  }

  /** An intent that asks for an action means: an authorizing contract under its current policy,
      usable evidence for every objective, a binding objective out of compliance that may be
      enforced, and a cooldown that has passed. */
  lemma IntentMeans(s: State, op: Op)
    requires Legal(s, op) && op.Evaluate? && Step(s, op).1.Evaluated?
    requires !Step(s, op).1.evaluation.intent.action.NoAction?
    ensures Chosen(s, op).Some?
    ensures var c, i := Chosen(s, op).value, Step(s, op).1.evaluation.intent;
      && c.CanAuthorize(op.now) && c.service == op.service == i.service && c.workload == op.workload == i.workload
      && i.contractGen == c.gen && i.policyGen == c.policyGen
      && Lookup(s.policies, c.policyId).Some? && Lookup(s.policies, c.policyId).value.gen == i.policyGen
    ensures var c := Chosen(s, op).value;
      forall k {:trigger c.objectives[k]} :: 0 <= k < |c.objectives| ==>
        Observe(JudgedAt(s.accs, c.objectives, op.now, k), op.now).Usable?
    ensures var c, i := Chosen(s, op).value, Step(s, op).1.evaluation.intent;
      exists k {:trigger c.objectives[k]} :: 0 <= k < |c.objectives|
        && i.objectiveId == c.objectives[k].id && i.objectiveGen == c.objectives[k].gen
        && !c.objectives[k].enforcement.NoEnforcement?
        && i.action == ActionFor(c.objectives[k].dim, Step(s, op).1.evaluation.compliance)
    ensures var i, s' := Step(s, op).1.evaluation.intent, Step(s, op).0;
      i.objectiveId in s'.accs ==> s'.accs[i.objectiveId].cooldownUntil <= op.now
  {
    EvaluationParts(s, op);
    var c := Chosen(s, op).value;
    var js := JudgeAll(s.accs, c.objectives, op.now);
    ScopedIsEntry(s.contracts, op.service, op.workload, op.now);
    BindingNeedsEvidence(js);
    forall k | 0 <= k < |c.objectives| ensures Observe(JudgedAt(s.accs, c.objectives, op.now, k), op.now).Usable? {
      JudgedStateAt(s.accs, c.objectives, op.now, k);
    }
    var k := BoundObjective(s, c, op.now, js);
  }

  lemma BoundObjective(s: State, c: Contract, now: I64, js: seq<Judgement>) returns (k: nat)
    requires js == JudgeAll(s.accs, c.objectives, now) && js != [] && Decide(js).binding.Some?
    ensures k < |c.objectives| && c.objectives[k] == Decide(js).binding.value.objective
  {
    BindingNeedsEvidence(js);
    k :| 0 <= k < |js| && js[k] == Decide(js).binding.value;
    JudgedStateAt(s.accs, c.objectives, now, k);
  }

  lemma JudgedKinds(acc: Accumulator, o: Objective, now: I64)
    ensures !JudgementOn(acc, o, now).state.ContractSuspended? && !JudgementOn(acc, o, now).state.AtRisk?
  {}

  /** The overall state calls for an action exactly when all evidence is usable and some objective is
      not compliant. */
  lemma VerdictCallsForAction(accs: map<U64, Accumulator>, os: seq<Objective>, now: I64, js: seq<Judgement>)
    requires js == JudgeAll(accs, os, now) && js != []
    ensures Decide(js).binding.Some? && !ActionFor(Decide(js).binding.value.objective.dim, Decide(js).overall).NoAction?
      <==> AllUsable(js) && exists k {:trigger js[k]} :: 0 <= k < |js| && !js[k].state.Compliant?
  {
    CompliantExactly(js);
    if Decide(js).binding.Some? {
      BindingNeedsEvidence(js);
      var b := Decide(js).binding.value;
      ActionExactly(b.objective.dim, b.state);
      var k :| 0 <= k < |js| && js[k] == b;
      JudgeAllAt(accs, os, now, k);
      JudgedKinds(JudgedAt(accs, os, now, k), os[k], now);
    }
  }

  /** Exactly when an evaluation asks for an action: all evidence is usable, some objective is not
      compliant, the binding objective may be enforced, and its cooldown has passed. */
  lemma IntentExactly(s: State, op: Op)
    requires Legal(s, op) && op.Evaluate? && Step(s, op).1.Evaluated?
    ensures var js, accs := Step(s, op).1.evaluation.judgements, Step(s, op).0.accs;
      && js != []
      && (!Step(s, op).1.evaluation.intent.action.NoAction? <==>
            && AllUsable(js) && (exists k {:trigger js[k]} :: 0 <= k < |js| && !js[k].state.Compliant?)
            && Decide(js).binding.Some?
            && var o := Decide(js).binding.value.objective;
               !o.enforcement.NoEnforcement? && !(o.id in accs && op.now < accs[o.id].cooldownUntil))
  {
    EvaluationParts(s, op);
    var c := Chosen(s, op).value;
    VerdictCallsForAction(s.accs, c.objectives, op.now, JudgeAll(s.accs, c.objectives, op.now));
  }

  // ----- A violation is acted on -----

  lemma {:induction false} LeastRank(js: seq<Judgement>, i: nat)
    requires i < |js|
    ensures Least(js).rank <= js[i].rank
  {
    if |js| > 1 {
      var past := js[..|js| - 1];
      LeastRank(past, if i < |past| then i else 0);
    }
  }

  ghost predicate RankedByState(js: seq<Judgement>) {
    forall k {:trigger js[k]} :: 0 <= k < |js| ==> js[k].rank == SeverityRank(js[k].state)
  }

  /** With all evidence usable, one violating objective makes the whole contract violating. */
  lemma ViolationPrevails(js: seq<Judgement>, k: nat)
    requires k < |js| && js[k].state.Violating? && AllUsable(js) && RankedByState(js)
    ensures Decide(js).overall.Violating?
  {
    NonCompliantMembers(js);
    var c := NonCompliant(js);
    assert js[k] in js && js[k] in c;
    var i :| 0 <= i < |c| && c[i] == js[k];
    LeastRank(c, i);
    LeastIn(c);
    var m :| 0 <= m < |js| && js[m] == Least(c);
    RankZero(js[m].state);
  }

  /** The verdict is Violating exactly when all evidence is usable and some objective violates: one
      objective without usable evidence hides every violation beside it. */
  lemma ViolatingVerdictExactly(js: seq<Judgement>)
    requires js != [] && (AllUsable(js) ==> RankedByState(js))
    ensures Decide(js).overall.Violating?
      <==> AllUsable(js) && exists k {:trigger js[k]} :: 0 <= k < |js| && js[k].state.Violating?
  {
    if AllUsable(js) {
      if k :| 0 <= k < |js| && js[k].state.Violating? {
        ViolationPrevails(js, k);
      }
      LeastIn(Candidates(js));
      NonCompliantMembers(js);
    }
  }

  lemma EvaluationViolatesExactly(s: State, op: Op)
    requires Legal(s, op) && op.Evaluate? && Step(s, op).1.Evaluated?
    ensures var js := Step(s, op).1.evaluation.judgements;
      Step(s, op).1.evaluation.compliance.Violating?
      <==> AllUsable(js) && exists k {:trigger js[k]} :: 0 <= k < |js| && js[k].state.Violating?
  {
    EvaluationParts(s, op);
    var os := Chosen(s, op).value.objectives;
    var js := JudgeAll(s.accs, os, op.now);
    if AllUsable(js) {
      UsableIsRanked(s.accs, os, op.now, js);
    }
    ViolatingVerdictExactly(js);
  }

  lemma UsableIsRanked(accs: map<U64, Accumulator>, os: seq<Objective>, now: I64, js: seq<Judgement>)
    requires js == JudgeAll(accs, os, now) && AllUsable(js)
    ensures RankedByState(js)
  {
    forall k | 0 <= k < |js| ensures js[k].rank == SeverityRank(js[k].state) {
      JudgeAllAt(accs, os, now, k);
      JudgedStates(JudgedAt(accs, os, now, k), os[k], now);
    }
  }

  lemma RankZero(state: ComplianceState)
    ensures SeverityRank(state) <= 0 <==> state.Violating?
  {}

  lemma {:induction false} OnlyCandidate(js: seq<Judgement>, k: nat)
    requires k < |js| && !js[k].state.Compliant?
    requires forall i {:trigger js[i]} :: 0 <= i < |js| && i != k ==> js[i].state.Compliant?
    ensures NonCompliant(js) == [js[k]]
  {
    var past := js[..|js| - 1];
    assert forall i :: 0 <= i < |past| ==> past[i] == js[i];
    if k < |past| {
      OnlyCandidate(past, k);
    } else {
      AllCompliantNone(past);
    }
  }

  lemma {:induction false} AllCompliantNone(js: seq<Judgement>)
    requires forall i {:trigger js[i]} :: 0 <= i < |js| ==> js[i].state.Compliant?
    ensures NonCompliant(js) == []
  {
    if js != [] {
      var past := js[..|js| - 1];
      assert forall i :: 0 <= i < |past| ==> past[i] == js[i];
      AllCompliantNone(past);
    }
  }

  lemma OverdueJudgement(acc: Accumulator, o: Objective, now: I64)
    requires Overdue(acc, o, now)
    ensures JudgementOn(acc, o, now).state == Violating
  {
    var m := acc.recovery.Lasted(now) as real;
    assert Measure(acc, now) == Some(m);
    assert ClassifyZone(LimitsOf(o), m) == Violation;
  }

  /** The recovery in the accumulator has lasted longer than the objective's breach threshold. */
  predicate Overdue(acc: Accumulator, o: Objective, now: I64) {
    acc.def.dim.RecoveryTime? && o.comparison.AtMost? && acc.recovery.Lasted(now) as real > LimitsOf(o).breach + EPSILON
  }

  /** An objective with an overdue recovery violates, in whatever contract, and with usable evidence for
      the other objectives the contract violates too. */
  lemma OverdueRecoveryViolates(s: State, op: Op, k: nat, js: seq<Judgement>)
    requires op.Evaluate? && Legal(s, op) && Chosen(s, op).Some? && k < |Chosen(s, op).value.objectives|
    requires js == JudgeAll(s.accs, Chosen(s, op).value.objectives, op.now)
    requires var os := Chosen(s, op).value.objectives; Overdue(JudgedAt(s.accs, os, op.now, k), os[k], op.now)
    ensures Step(s, op).1.Evaluated? && Step(s, op).1.evaluation.judgements == js && js[k].state.Violating?
    ensures AllUsable(js) ==> Step(s, op).1.evaluation.compliance.Violating?
  {
    OverdueVerdict(s.accs, Chosen(s, op).value.objectives, op.now, js, k);
    EvaluatesChosen(s, op);
    EvaluationParts(s, op);
  }

  /** A violation that is hidden: a contract with an overdue recovery and an objective that has no evidence
      is found to have insufficient evidence, and nothing is asked for. */
  lemma OverdueRecoveryHidden(accs: map<U64, Accumulator>, os: seq<Objective>, now: I64, js: seq<Judgement>)
    requires |os| == 2 && js == JudgeAll(accs, os, now) && Overdue(JudgedAt(accs, os, now, 0), os[0], now)
    requires Bare(JudgedAt(accs, os, now, 1)) && !JudgedAt(accs, os, now, 1).def.dim.RecoveryTime?
    ensures js[0].state.Violating? && js[1].state.InsufficientEvidence?
    ensures Decide(js) == Verdict(InsufficientEvidence, None)
  {
    OverdueVerdict(accs, os, now, js, 0);
    JudgeAllAt(accs, os, now, 1);
    BareIsUnusable(JudgedAt(accs, os, now, 1), now);
    BareInsufficient(JudgedAt(accs, os, now, 1), os[1], now);
  }

  lemma BareInsufficient(acc: Accumulator, o: Objective, now: I64)
    requires Observe(acc, now) == Unusable(false)
    ensures JudgementOn(acc, o, now).state.InsufficientEvidence?
  {}

  /** Where it is the only one out of compliance, may be enforced and is not cooling down, failover is
      asked for. */
  lemma OverdueRecoveryAsksFailover(s: State, op: Op, k: nat, o: Objective, js: seq<Judgement>, accs: map<U64, Accumulator>)
    requires op.Evaluate? && Legal(s, op) && Chosen(s, op).Some? && k < |Chosen(s, op).value.objectives|
    requires js == JudgeAll(s.accs, Chosen(s, op).value.objectives, op.now) && o == Chosen(s, op).value.objectives[k]
    requires Overdue(JudgedAt(s.accs, Chosen(s, op).value.objectives, op.now, k), o, op.now)
    requires forall i {:trigger js[i]} :: 0 <= i < |js| && i != k ==> js[i].state.Compliant?
    requires accs == Step(s, op).0.accs && !(o.id in accs && op.now < accs[o.id].cooldownUntil)
    requires o.dim.RecoveryTime? && !o.enforcement.NoEnforcement?
    ensures Step(s, op).1.Evaluated? && Step(s, op).1.evaluation.intent.action == Failover
  {
    OverdueVerdict(s.accs, Chosen(s, op).value.objectives, op.now, js, k);
    EvaluatesChosen(s, op);
    EvaluationParts(s, op);
    IntentIsFailover(s.(accs := accs), Chosen(s, op).value, Decide(js), js[k], op);
  }

  lemma IntentIsFailover(s: State, c: Contract, v: Verdict, b: Judgement, op: Op)
    requires op.Evaluate? && v == Verdict(Violating, Some(b))
    requires !(b.objective.id in s.accs && op.now < s.accs[b.objective.id].cooldownUntil)
    requires b.objective.dim.RecoveryTime? && !b.objective.enforcement.NoEnforcement?
    ensures IntentOf(s, c, v, op.service, op.workload, op.now, op.notes.reason).action == Failover
  {}

  lemma OverdueVerdict(accs: map<U64, Accumulator>, os: seq<Objective>, now: I64, js: seq<Judgement>, k: nat)
    requires js == JudgeAll(accs, os, now) && k < |os| && Overdue(JudgedAt(accs, os, now, k), os[k], now)
    ensures js[k].state.Violating? && js[k].objective == os[k]
    ensures AllUsable(js) ==> Decide(js).overall.Violating?
    ensures (forall i {:trigger js[i]} :: 0 <= i < |js| && i != k ==> js[i].state.Compliant?)
      ==> Decide(js) == Verdict(Violating, Some(js[k]))
  {
    var acc := JudgedAt(accs, os, now, k);
    JudgeAllAt(accs, os, now, k);
    OverdueJudgement(acc, os[k], now);
    JudgedStates(acc, os[k], now);
    if AllUsable(js) {
      UsableIsRanked(accs, os, now, js);
      ViolationPrevails(js, k);
    }
    if forall i {:trigger js[i]} :: 0 <= i < |js| && i != k ==> js[i].state.Compliant? {
      OnlyCandidate(js, k);
    }
  }

  lemma EvaluatesChosen(s: State, op: Op)
    requires op.Evaluate? && Legal(s, op) && Chosen(s, op).Some?
    ensures Step(s, op).1.Evaluated?
  {
    assert Step(s, op) == DoEvaluate(s, op);
  }

  // ----- Authorization right after evaluation -----

  /** Authorizing an action at the time of the evaluation that asked for it, with no call between,
      succeeds, where no other contract has the objective and the service. */
  lemma AuthorizeAccepts(s: State, op: Op)
    requires Legal(s, op) && op.Evaluate? && Step(s, op).1.Evaluated? && ContractsIndexed(s.contracts)
    requires !Step(s, op).1.evaluation.intent.action.NoAction?
    requires Sole(s.contracts, Step(s, op).1.evaluation.contractId, Step(s, op).1.evaluation.intent.objectiveId, op.service)
    ensures AuthorizeStatus(Step(s, op).0, Step(s, op).1.evaluation.intent, op.now) == Ok
  {
    IntentMeans(s, op);
    IntentsCarryEpoch(s, op);
    EvaluationParts(s, op);
    var c, i := Chosen(s, op).value, Step(s, op).1.evaluation.intent;
    var k :| 0 <= k < |c.objectives| && i.objectiveId == c.objectives[k].id;
    ScopedIsEntry(s.contracts, op.service, op.workload, op.now);
    FirstInMember(c.objectives, i.objectiveId);
    TargetIsSole(s.contracts, c, i.objectiveId);
  }

  // ----- Cooldown -----

  /** Definitions of objective `id` all have generation `gen`. */
  ghost function OneGeneration(id: U64, gen: U64): Objective -> bool {
    (o: Objective) => o.id == id ==> o.gen == gen
  }

  /** The call loads, or is an authorization for the objective that is accepted, or brings another
      generation of the objective into force. */
  ghost predicate Disturbs(s: State, op: Op, id: U64, gen: U64) {
    || op.Load?
    || (op.Authorize? && op.intent.objectiveId == id && AuthorizeStatus(s, op.intent, op.now) == Ok)
    || !Brings(s, op, OneGeneration(id, gen))
  }

  ghost predicate Undisturbed(s: State, ops: seq<Op>, id: U64, gen: U64)
    requires LegalRun(s, ops)
  {
    ops == []
    || (Undisturbed(s, ops[..|ops| - 1], id, gen) && !Disturbs(Run(s, ops[..|ops| - 1]), ops[|ops| - 1], id, gen))
  }

  lemma SteadyUpdates(s: State, op: Op, id: U64, gen: U64)
    requires Every(s.contracts, OneGeneration(id, gen)) && !Disturbs(s, op, id, gen)
    ensures AllSteady(Updates(s, op, id), gen)
  {
    UpdatesCaused(s, op, id, OneGeneration(id, gen));
    var us := Updates(s, op, id);
    forall i | 0 <= i < |us| ensures Steady(us[i], gen) {
      assert Caused(us[i], op, id, OneGeneration(id, gen));
    }
  }

  /** A cooldown stays in force through every undisturbed run. */
  lemma {:induction false} CooldownStays(s: State, ops: seq<Op>, id: U64, gen: U64)
    requires LegalRun(s, ops) && Undisturbed(s, ops, id, gen) && Every(s.contracts, OneGeneration(id, gen))
    requires id in s.accs && s.accs[id].def.gen == gen
    ensures var accs := Run(s, ops).accs;
      id in accs && accs[id].def.gen == gen && accs[id].cooldownUntil == s.accs[id].cooldownUntil
    ensures Every(Run(s, ops).contracts, OneGeneration(id, gen))
  {
    if ops != [] {
      var past, op := ops[..|ops| - 1], ops[|ops| - 1];
      CooldownStays(s, past, id, gen);
      var t := Run(s, past);
      SteadyUpdates(t, op, id, gen);
      CooldownLasts(Slot(t.accs, id), Updates(t, op, id), gen);
      StepUpdates(t, op, id);
      StepContracts(t, op);
      EveryAfter(t, op, OneGeneration(id, gen));
    }
  }

  /** An evaluation that binds an objective in its cooldown asks for nothing. */
  lemma CooldownSuppresses(s: State, op: Op, id: U64)
    requires Legal(s, op) && op.Evaluate? && Step(s, op).1.Evaluated?
    requires Step(s, op).1.evaluation.intent.objectiveId == id
    requires id in Step(s, op).0.accs && op.now < Step(s, op).0.accs[id].cooldownUntil
    ensures Step(s, op).1.evaluation.intent.action.NoAction?
  {
    EvaluationParts(s, op);
  }

  lemma AuthorizeCools(s: State, i: Intent, now: I64)
    requires AuthorizeStatus(s, i, now) == Ok && i.objectiveId in s.accs
    requires now + i.cooldown <= MAX_I64 && i.cooldown >= 0
    ensures var accs := DoAuthorize(s, i, now).0.accs;
      && i.objectiveId in accs && accs[i.objectiveId].def == s.accs[i.objectiveId].def
      && accs[i.objectiveId].cooldownUntil == now + i.cooldown
    ensures DoAuthorize(s, i, now).0.contracts == s.contracts
  {
    var t := Touch(i.objectiveId, Cool(Wrapped(now + i.cooldown)));
    TouchAllAt(s.accs, [t], i.objectiveId);
    OfOne(t, i.objectiveId);
    assert Wrapped(now + i.cooldown) == now + i.cooldown;
  }

  /** After an accepted authorization, every evaluation before its cooldown ends that binds the same
      objective asks for nothing, whatever calls come between, barring another accepted authorization
      for it, another generation of it in force, or a load. */
  lemma CooldownHoldsBack(s: State, i: Intent, now: I64, ops: seq<Op>, gen: U64)
    requires AuthorizeStatus(s, i, now) == Ok && i.objectiveId in s.accs && s.accs[i.objectiveId].def.gen == gen
    requires i.cooldown >= 0 && now + i.cooldown <= MAX_I64
    requires Every(s.contracts, OneGeneration(i.objectiveId, gen))
    requires LegalRun(DoAuthorize(s, i, now).0, ops) && Undisturbed(DoAuthorize(s, i, now).0, ops, i.objectiveId, gen)
    requires ops != [] && ops[|ops| - 1].Evaluate? && ops[|ops| - 1].now < now + i.cooldown
    ensures var s2, op := Run(DoAuthorize(s, i, now).0, ops[..|ops| - 1]), ops[|ops| - 1];
      Step(s2, op).1.Evaluated? && Step(s2, op).1.evaluation.intent.objectiveId == i.objectiveId
      ==> Step(s2, op).1.evaluation.intent.action.NoAction?
  {
    AuthorizeCools(s, i, now);
    var s1 := DoAuthorize(s, i, now).0;
    CooldownStays(s1, ops, i.objectiveId, gen);
    var s2, op := Run(s1, ops[..|ops| - 1]), ops[|ops| - 1];
    assert Run(s1, ops) == Step(s2, op).0;
    if Step(s2, op).1.Evaluated? && Step(s2, op).1.evaluation.intent.objectiveId == i.objectiveId {
      CooldownSuppresses(s2, op, i.objectiveId);
    }
  }

  lemma {:induction false} AssessedGeneration(slot: Option<Accumulator>, us: seq<Update>, gen: U64)
    requires us != [] && us[|us| - 1].Assess? && us[|us| - 1].o.gen == gen
    ensures Life(slot, us).Some? && Life(slot, us).value.def.gen == gen
  {}

  lemma {:induction false} AssessmentsOf(os: seq<Objective>, now: I64, k: nat, gen: U64)
    requires k < |os| && EveryIn(os, OneGeneration(os[k].id, gen))
    ensures var us := Of(Assessments(os, now), os[k].id);
      us != [] && us[|us| - 1].Assess? && us[|us| - 1].o.gen == gen
  {
    var past, o := os[..|os| - 1], os[|os| - 1];
    OfSnoc(Assessments(past, now), Touch(o.id, Assess(o, now)), os[k].id);
    if o.id != os[k].id {
      assert past[k] == os[k];
      AssessmentsOf(past, now, k, gen);
    }
  }

  /** One evaluation, its authorization, and every undisturbed run after it: the authorization is
      accepted, and until the cooldown ends no evaluation that binds the objective asks for an action. */
  lemma EvaluateAuthorizeHoldBack(s: State, op: Op, ops: seq<Op>)
    requires Legal(s, op) && op.Evaluate? && Step(s, op).1.Evaluated? && ContractsIndexed(s.contracts)
    requires op.now + COOLDOWN <= MAX_I64
    requires var ev := Step(s, op).1.evaluation;
      var s1 := DoAuthorize(Step(s, op).0, ev.intent, op.now).0;
      && !ev.intent.action.NoAction? && Sole(s.contracts, ev.contractId, ev.intent.objectiveId, op.service)
      && Every(s.contracts, OneGeneration(ev.intent.objectiveId, ev.intent.objectiveGen))
      && LegalRun(s1, ops) && Undisturbed(s1, ops, ev.intent.objectiveId, ev.intent.objectiveGen)
    requires ops != [] && ops[|ops| - 1].Evaluate? && ops[|ops| - 1].now < op.now + COOLDOWN
    ensures var i := Step(s, op).1.evaluation.intent;
      var s1 := DoAuthorize(Step(s, op).0, i, op.now).0;
      var s2, last := Run(s1, ops[..|ops| - 1]), ops[|ops| - 1];
      && DoAuthorize(Step(s, op).0, i, op.now).1.Receipted?
      && (Step(s2, last).1.Evaluated? && Step(s2, last).1.evaluation.intent.objectiveId == i.objectiveId
          ==> Step(s2, last).1.evaluation.intent.action.NoAction?)
  {
    var i, s' := Step(s, op).1.evaluation.intent, Step(s, op).0;
    AuthorizeAccepts(s, op);
    BoundAccumulator(s, op);
    CooldownHoldsBack(s', i, op.now, ops, i.objectiveGen);
  }

  /** The intents of an evaluation carry the cooldown, and the accumulator of the objective that they
      bind has the generation that they carry. */
  lemma BoundAccumulator(s: State, op: Op)
    requires Legal(s, op) && op.Evaluate? && Step(s, op).1.Evaluated?
    requires var i := Step(s, op).1.evaluation.intent;
      !i.action.NoAction? && Every(s.contracts, OneGeneration(i.objectiveId, i.objectiveGen))
    ensures var i, s' := Step(s, op).1.evaluation.intent, Step(s, op).0;
      && i.objectiveId in s'.accs && s'.accs[i.objectiveId].def.gen == i.objectiveGen && i.cooldown == COOLDOWN
      && s'.contracts == s.contracts
  {
    EvaluationParts(s, op);
    var c, i := Chosen(s, op).value, Step(s, op).1.evaluation.intent;
    var js := JudgeAll(s.accs, c.objectives, op.now);
    var k := BoundObjective(s, c, op.now, js);
    ChosenFits(s, op, OneGeneration(i.objectiveId, i.objectiveGen));
    AssessedSlot(s.accs, c.objectives, op.now, k, i.objectiveGen);
  }

  lemma ChosenFits(s: State, op: Op, f: Objective -> bool)
    requires op.Evaluate? && Chosen(s, op).Some? && Every(s.contracts, f)
    ensures EveryIn(Chosen(s, op).value.objectives, f)
  {
    ScopedIsEntry(s.contracts, op.service, op.workload, op.now);
  }

  lemma AssessedSlot(accs: map<U64, Accumulator>, os: seq<Objective>, now: I64, k: nat, gen: U64)
    requires k < |os| && EveryIn(os, OneGeneration(os[k].id, gen))
    ensures var accs' := TouchAll(accs, Assessments(os, now)); os[k].id in accs' && accs'[os[k].id].def.gen == gen
  {
    var id, ts := os[k].id, Assessments(os, now);
    AssessmentsOf(os, now, k, gen);
    TouchAllAt(accs, ts, id);
    AssessedGeneration(Slot(accs, id), Of(ts, id), gen);
  }
}
