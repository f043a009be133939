/** The fabric as a state machine: its state, and what each public call does to it. */
module Engine {
  import opened Types
  import opened Trends
  import opened Decisions
  import opened Binding
  import opened Accumulators
  import opened Lives
  import opened Tables

  datatype State = State(
    epoch: U64, policies: Table<Policy>, contracts: Table<Contract>, accs: map<U64, Accumulator>,
    receipts: seq<Receipt>, evaluations: seq<EvaluationRecord>,
    ring: seq<U64>, known: set<U64>, evaluationCount: U64, enforcementCount: U64)

  const Initial: State := State(1, [], [], map[], [], [], [], {}, 0, 0)

  const RING_CAPACITY: nat := 8192
  const HISTORY_CAPACITY: nat := 1024
  const COOLDOWN: I64 := 5_000_000_000

  datatype Intent = Intent(
    action: EnforcementAction, class_: EnforcementClass, dimension: Dimension,
    objectiveId: U64, objectiveGen: U64, service: U64, workload: U64,
    epoch: U64, contractGen: U64, policyGen: U64, evidenceGen: U64,
    evaluationId: U64, evaluationGen: U64, workloadGen: U64, cooldown: I64, reason: Text)

  datatype RankedIntent = RankedIntent(action: EnforcementAction, selected: bool)

  datatype Evaluation = Evaluation(
    contractId: U64, contractGen: U64, policyId: U64, policyGen: U64, judgements: seq<Judgement>,
    compliance: ComplianceState, bindingDimension: Dimension, bindingObjective: U64,
    secondaries: seq<U64>, risks: seq<Risk>, ranked: seq<RankedIntent>, intent: Intent)

  /** The texts that an evaluation produces and never reads: the reason, and the digest of its input. */
  datatype Notes = Notes(reason: Text, digest: U64)

  datatype Op =
    | SetPolicy(policy: Policy)
    | AddContract(contract: Contract)
    | SupersedeContract(contract: Contract)
    | ActivateContract(id: U64, now: I64)
    | SuspendContract(id: U64)
    | ExpireContract(id: U64, now: I64)
    | RetireContract(id: U64)
    | IngestEvidence(e: Evidence)
    | RecoveryEvent(id: U64, phase: Phase, now: I64)
    | ViolationEvent(id: U64)
    | SetBudget(id: U64, total: I64, window: I64)
    | Evaluate(service: U64, workload: U64, now: I64, notes: Notes)
    | Authorize(intent: Intent, now: I64)
    | Load(durable: DurableState)

  datatype Response =
    | Answer(status: Status)
    | Evaluated(evaluation: Evaluation)
    | Receipted(receipt: Receipt)

  // ----- Accumulators by objective id -----

  datatype Touch = Touch(id: U64, update: Update)

  function Slot(accs: map<U64, Accumulator>, id: U64): Option<Accumulator> {
    if id in accs then Some(accs[id]) else None
  }

  function WithSlot(accs: map<U64, Accumulator>, id: U64, slot: Option<Accumulator>): map<U64, Accumulator> {
    if slot.Some? then accs[id := slot.value] else accs - {id}
  }

  function Touched(accs: map<U64, Accumulator>, t: Touch): map<U64, Accumulator> {
    WithSlot(accs, t.id, Apply(Slot(accs, t.id), t.update))
  }

  function TouchAll(accs: map<U64, Accumulator>, ts: seq<Touch>): map<U64, Accumulator> {
    if ts == [] then accs else Touched(TouchAll(accs, ts[..|ts| - 1]), ts[|ts| - 1])
  }

  // ----- Definitions, found by walking all contracts in order of id -----

  function Objectives(contracts: Table<Contract>): seq<Objective> {
    if contracts == [] then []
    else Objectives(contracts[..|contracts| - 1]) + contracts[|contracts| - 1].value.objectives
  }

  /** The definition with the highest generation; the earliest of equals. */
  function Newest(os: seq<Objective>, id: U64): Option<Objective> {
    if os == [] then None
    else
      var past, o := Newest(os[..|os| - 1], id), os[|os| - 1];
      if o.id == id && (past.None? || o.gen > past.value.gen) then Some(o) else past
  }

  function Definition(contracts: Table<Contract>, id: U64): Option<Objective> {
    Newest(Objectives(contracts), id)
  }

  function FirstIn(os: seq<Objective>, id: U64): Option<Objective> {
    if os == [] then None else if os[0].id == id then Some(os[0]) else FirstIn(os[1..], id)
  }

  /** One lookup of the accumulator for each contract that has the objective. */
  function Lookups(contracts: Table<Contract>, id: U64): seq<Touch> {
    if contracts == [] then []
    else
      var past, o := Lookups(contracts[..|contracts| - 1], id), FirstIn(contracts[|contracts| - 1].value.objectives, id);
      if o.Some? then past + [Touch(id, Open(o.value))] else past
  }

  /** The authorizing contract of the highest generation for a scope; the earliest of equals. */
  function Scoped(contracts: Table<Contract>, service: U64, workload: U64, now: int): Option<Contract> {
    if contracts == [] then None
    else
      var past, c := Scoped(contracts[..|contracts| - 1], service, workload, now), contracts[|contracts| - 1].value;
      if c.service == service && c.workload == workload && c.CanAuthorize(now) && (past.None? || c.gen > past.value.gen)
      then Some(c) else past
  }

  /** The last contract that has the objective and the service. */
  function Target(contracts: Table<Contract>, id: U64, service: U64): Option<Contract> {
    if contracts == [] then None
    else
      var c := contracts[|contracts| - 1].value;
      if FirstIn(c.objectives, id).Some? && c.service == service then Some(c)
      else Target(contracts[..|contracts| - 1], id, service)
  }

  // ----- Policies and contracts -----

  function DoSetPolicy(s: State, p: Policy): (State, Response) {
    var before := Lookup(s.policies, p.id);
    if before.Some? && before.value.gen >= p.gen then (s, Answer(PolicySuperseded))
    else (s.(policies := Put(s.policies, p.id, p)), Answer(Ok))
  }

  function ObjectivesStatus(os: seq<Objective>): Status {
    if os == [] then Ok
    else if os[0].id == 0 || os[0].gen == 0 then ObjectiveInvalid
    else if !os[0].TargetUnitMatches() then UnitMismatch
    else ObjectivesStatus(os[1..])
  }

  function DoSupersede(s: State, c: Contract): (State, Response) {
    var before := Lookup(s.contracts, c.id);
    if before.Some? && before.value.gen >= c.gen then (s, Answer(InvalidInput))
    else (s.(contracts := Put(s.contracts, c.id, c)), Answer(Ok))
  }

  function DoAddContract(s: State, c: Contract): (State, Response) {
    if c.objectives == [] then (s, Answer(ObjectiveInvalid))
    else if ObjectivesStatus(c.objectives) != Ok then (s, Answer(ObjectivesStatus(c.objectives)))
    else DoSupersede(s, c)
  }

  function Amended(c: Contract, op: Op): Contract {
    match op
    case ActivateContract(_, now) =>
      c.(lifecycle := ContractLifecycle.Active, effectiveFrom := if c.effectiveFrom > now then now else c.effectiveFrom)
    case SuspendContract(_) => c.(lifecycle := ContractLifecycle.Suspended)
    case ExpireContract(_, now) =>
      c.(lifecycle := ContractLifecycle.Expired, expiration := if c.expiration.Some? then c.expiration else Some(now))
    case RetireContract(_) => c.(lifecycle := ContractLifecycle.Retired)
    case _ => c
  }

  function DoAmend(s: State, id: U64, op: Op): (State, Response) {
    var c := Lookup(s.contracts, id);
    if c.None? then (s, Answer(NotFound))
    else (s.(contracts := Put(s.contracts, id, Amended(c.value, op))), Answer(Ok))
  }

  // ----- Evidence, events and budgets -----

  function NoteStatus(s: State, id: U64): Status {
    if id == 0 then InvalidInput else if id in s.known then Status.Cancelled else Ok
  }

  function Noted(s: State, id: U64): State {
    s.(ring := Ringed(s.ring, id, RING_CAPACITY), known := Known(s.ring, s.known, id, RING_CAPACITY))
  }

  /** The fences that noted evidence still has to pass. */
  function FenceStatus(s: State, e: Evidence): Status {
    var def := Definition(s.contracts, e.objectiveId);
    if e.epoch != 0 && e.epoch != s.epoch then StaleAuthority
    else if def.None? then ObjectiveInvalid
    else if e.objectiveGen != 0 && e.objectiveGen != def.value.gen then StaleAuthority
    else Ok
  }

  function DoIngest(s: State, e: Evidence): (State, Response) {
    if NoteStatus(s, e.id) != Ok then (s, Answer(NoteStatus(s, e.id)))
    else
      var s := Noted(s, e.id);
      if FenceStatus(s, e) != Ok then (s, Answer(FenceStatus(s, e)))
      else
        var def := Definition(s.contracts, e.objectiveId).value;
        (s.(accs := TouchAll(s.accs, [Touch(e.objectiveId, Take(def, e))])),
         Answer(Absorb(Opened(Slot(s.accs, e.objectiveId), def), def, e).1))
  }

  function DoRecovery(s: State, id: U64, phase: Phase, time: I64): (State, Response) {
    var def := Definition(s.contracts, id);
    if def.None? then (s, Answer(ObjectiveInvalid))
    else (s.(accs := TouchAll(s.accs, [Touch(id, Reach(def.value, phase, time))])), Answer(Ok))
  }

  function DoViolation(s: State, id: U64): (State, Response) {
    var opens := Lookups(s.contracts, id);
    if opens == [] then (s, Answer(ObjectiveInvalid))
    else
      var slot := Slot(TouchAll(s.accs, opens), id);
      (s.(accs := TouchAll(s.accs, opens + [Touch(id, Charge)])),
       Answer(if BudgetOf(slot).None? then InvalidInput else Ok))
  }

  function DoSetBudget(s: State, id: U64, total: I64, window: I64): (State, Response) {
    var def := Definition(s.contracts, id);
    if def.None? then (s, Answer(ObjectiveInvalid))
    else
      (s.(accs := TouchAll(s.accs, [Touch(id, Grant(def.value, total, window))])),
       Answer(if total < 0 then InvalidInput else Ok))
  }

  // ----- Evaluation -----

  function Assessments(os: seq<Objective>, now: I64): (ts: seq<Touch>)
    ensures |ts| == |os|
  {
    if os == [] then [] else Assessments(os[..|os| - 1], now) + [Touch(os[|os| - 1].id, Assess(os[|os| - 1], now))]
  }

  /** The accumulator that the judgement on objective `k` looks at, after the ones before it were noted. */
  function JudgedAt(accs: map<U64, Accumulator>, os: seq<Objective>, now: I64, k: nat): Accumulator
    requires k < |os|
  {
    Opened(Slot(TouchAll(accs, Assessments(os[..k], now)), os[k].id), os[k])
  }

  /** The judgements on the objectives, each made after the ones before it were noted. */
  function JudgeAll(accs: map<U64, Accumulator>, os: seq<Objective>, now: I64): (js: seq<Judgement>)
    ensures |js| == |os|
  {
    if os == [] then []
    else
      JudgeAll(accs, os[..|os| - 1], now)
      + [JudgementOn(JudgedAt(accs, os, now, |os| - 1), os[|os| - 1], now)]
  }

  function Risks(js: seq<Judgement>): seq<Risk> {
    if js == [] then []
    else
      var past, j := Risks(js[..|js| - 1]), js[|js| - 1];
      if j.risk.NoRisk? then past else past + [j.risk]
  }

  function RankedIntents(js: seq<Judgement>, bindingId: U64): seq<RankedIntent> {
    if js == [] then []
    else
      var past, j := RankedIntents(js[..|js| - 1], bindingId), js[|js| - 1];
      if ActionFor(j.objective.dim, j.state).NoAction? then past
      else past + [RankedIntent(ActionFor(j.objective.dim, j.state), j.objective.id == bindingId)]
  }

  function Successor(x: U64): U64 {
    (x + 1) % TWO_64
  }

  /** What is added to a history that keeps its last entries. */
  function Logged<T>(log: seq<T>, x: T): seq<T> {
    (if |log| >= HISTORY_CAPACITY then log[1..] else log) + [x]
  }

  function PolicyFor(s: State, c: Contract): Option<Policy> {
    var p := Lookup(s.policies, c.policyId);
    if p.Some? && p.value.gen == c.policyGen then p else None
  }

  /** The action for the binding objective, unless its class or its cooldown forbids one. */
  function SelectedAction(accs: map<U64, Accumulator>, o: Objective, overall: ComplianceState, now: int): EnforcementAction {
    if o.enforcement.NoEnforcement? then NoAction
    else if o.id in accs && now < accs[o.id].cooldownUntil then NoAction
    else ActionFor(o.dim, overall)
  }

  function IntentOf(s: State, c: Contract, v: Verdict, service: U64, workload: U64, now: I64, reason: Text): Intent {
    var id := Successor(s.evaluationCount);
    var idle := Intent(
      NoAction, EnforcementClass.NoEnforcement, Latency, 0, 0, service, workload, s.epoch, c.gen, c.policyGen,
      id, id, id, 1, COOLDOWN, []);
    match v.binding
    case None => idle
    case Some(b) =>
      var o := b.objective;
      idle.(action := SelectedAction(s.accs, o, v.overall, now), class_ := o.enforcement, dimension := o.dim,
            objectiveId := o.id, objectiveGen := o.gen, reason := reason)
  }

  /** The evaluation of a contract whose objectives have been judged and noted in `s`. */
  function EvaluationOf(s: State, c: Contract, p: Policy, js: seq<Judgement>, op: Op): Evaluation
    requires op.Evaluate? && js != []
  {
    var v := Decide(js);
    var bindingId := if v.binding.Some? then v.binding.value.objective.id else 0;
    Evaluation(
      c.id, c.gen, p.id, p.gen, js, v.overall,
      if v.binding.Some? then v.binding.value.objective.dim else Latency,
      bindingId,
      if v.binding.Some? then Secondaries(js, bindingId) else [],
      Risks(js),
      if v.binding.Some? then RankedIntents(js, bindingId) else [],
      IntentOf(s, c, v, op.service, op.workload, op.now, op.notes.reason))
  }

  function RecordOf(s: State, c: Contract, ev: Evaluation, op: Op): EvaluationRecord
    requires op.Evaluate?
  {
    var id := Successor(s.evaluationCount);
    EvaluationRecord(
      id, id, c.gen, c.policyGen, id, s.epoch, op.now, ev.compliance, ev.bindingDimension, ev.bindingObjective,
      ev.intent.action, op.notes.digest)
  }

  /** The contract that an evaluation decides on, when its policy is the current one. */
  function Chosen(s: State, op: Op): Option<Contract>
    requires op.Evaluate?
  {
    var c := Scoped(s.contracts, op.service, op.workload, op.now);
    if c.Some? && PolicyFor(s, c.value).Some? then c else None
  }

  /** Evaluating a contract without objectives is undefined: it takes the first of none. */
  predicate Legal(s: State, op: Op) {
    op.Evaluate? && Chosen(s, op).Some? ==> Chosen(s, op).value.objectives != []
  }

  function Recorded(s: State, r: EvaluationRecord): State {
    s.(evaluationCount := Successor(s.evaluationCount), evaluations := Logged(s.evaluations, r))
  }

  function DoEvaluate(s: State, op: Op): (State, Response)
    requires op.Evaluate? && Legal(s, op)
  {
    var c := Scoped(s.contracts, op.service, op.workload, op.now);
    if c.None? then (s, Answer(ContractInactive))
    else if PolicyFor(s, c.value).None? then (s, Answer(PolicySuperseded))
    else
      var c := c.value;
      var js := JudgeAll(s.accs, c.objectives, op.now);
      var judged := s.(accs := TouchAll(s.accs, Assessments(c.objectives, op.now)));
      var ev := EvaluationOf(judged, c, PolicyFor(s, c).value, js, op);
      (Recorded(judged, RecordOf(judged, c, ev, op)), Evaluated(ev))
  }

  // ----- Enforcement -----

  /** An integer wrapped to 64 bits. */
  function Wrapped(x: int): I64 {
    (x + TWO_63) % TWO_64 - TWO_63
  }

  function AuthorizeStatus(s: State, i: Intent, now: I64): Status {
    if i.epoch != s.epoch then StaleAuthority
    else if i.action.NoAction? then InvalidInput
    else
      var c := Target(s.contracts, i.objectiveId, i.service);
      if c.None? then ContractInactive
      else if c.value.gen != i.contractGen then StaleAuthority
      else if !c.value.CanAuthorize(now) then ContractInactive
      else
        var p := Lookup(s.policies, c.value.policyId);
        if p.None? || p.value.gen != i.policyGen then PolicySuperseded else Ok
  }

  function ReceiptOf(id: U64, i: Intent): Receipt {
    Receipt(
      id, id, i.action, AuthorizedReceipt, i.epoch, i.contractGen, i.policyGen, i.evaluationId, i.evaluationGen,
      i.workloadGen, i.service, i.workload, i.objectiveId, i.objectiveGen, i.reason)
  }

  function DoAuthorize(s: State, i: Intent, now: I64): (State, Response) {
    if AuthorizeStatus(s, i, now) != Ok then (s, Answer(AuthorizeStatus(s, i, now)))
    else
      var id := Successor(s.enforcementCount);
      (s.(enforcementCount := id,
          accs := TouchAll(s.accs, [Touch(i.objectiveId, Cool(Wrapped(now + i.cooldown)))]),
          receipts := Logged(s.receipts, ReceiptOf(id, i))),
       Receipted(ReceiptOf(id, i)))
  }

  // ----- Saving and loading -----

  function SnapshotOf(id: U64, acc: Accumulator): ObjectiveSnapshot {
    match acc.budget
    case None =>
      ObjectiveSnapshot(id, acc.def.gen, 0, 0, 0, 0, acc.lastState, acc.lastStateTime, acc.cooldownUntil)
    case Some(b) =>
      ObjectiveSnapshot(
        id, acc.def.gen, b.total, b.consumed, b.window, b.start, acc.lastState, acc.lastStateTime, acc.cooldownUntil)
  }

  function Snapshots(accs: map<U64, Accumulator>, order: seq<U64>): (snaps: seq<ObjectiveSnapshot>)
    requires forall i {:trigger order[i]} :: 0 <= i < |order| ==> order[i] in accs
    ensures |snaps| == |order|
    ensures forall i {:trigger snaps[i]} :: 0 <= i < |order| ==> snaps[i] == SnapshotOf(order[i], accs[order[i]])
  {
    if order == [] then []
    else
      var last := order[|order| - 1];
      Snapshots(accs, order[..|order| - 1]) + [SnapshotOf(last, accs[last])]
  }

  function ValuesOf<T>(t: Table<T>): (vs: seq<T>)
    ensures |vs| == |t| && forall i {:trigger vs[i]} :: 0 <= i < |t| ==> vs[i] == t[i].value
  {
    if t == [] then [] else ValuesOf(t[..|t| - 1]) + [t[|t| - 1].value]
  }

  /** `order` lists the accumulators, each once, in whatever order the hash table has them. */
  ghost predicate Enumerates(order: seq<U64>, accs: map<U64, Accumulator>) {
    && NoRepeats(order) && (forall k {:trigger k in accs} :: k in accs ==> k in order)
    && forall i {:trigger order[i]} :: 0 <= i < |order| ==> order[i] in accs
  }

  /** What save writes. */
  function Saved(s: State, order: seq<U64>): DurableState
    requires Enumerates(order, s.accs)
  {
    DurableState(
      s.epoch, ValuesOf(s.policies), ValuesOf(s.contracts), Snapshots(s.accs, order), s.receipts, s.evaluations)
  }

  function PolicyTable(ps: seq<Policy>): Table<Policy> {
    if ps == [] then [] else Put(PolicyTable(ps[..|ps| - 1]), ps[|ps| - 1].id, ps[|ps| - 1])
  }

  function ContractTable(cs: seq<Contract>): Table<Contract> {
    if cs == [] then [] else Put(ContractTable(cs[..|cs| - 1]), cs[|cs| - 1].id, cs[|cs| - 1])
  }

  /** One restore for each definition that the snapshot fits. */
  function RestoresOf(os: seq<Objective>, snap: ObjectiveSnapshot): seq<Touch> {
    if os == [] then []
    else
      var past, o := RestoresOf(os[..|os| - 1], snap), os[|os| - 1];
      if o.id == snap.objectiveId && o.gen == snap.objectiveGen then past + [Touch(o.id, Restore(o, snap))] else past
  }

  function Restores(os: seq<Objective>, snaps: seq<ObjectiveSnapshot>): seq<Touch> {
    if snaps == [] then []
    else Restores(os, snaps[..|snaps| - 1]) + RestoresOf(os, snaps[|snaps| - 1])
  }

  function DoLoad(s: State, d: DurableState): (State, Response) {
    var contracts := ContractTable(d.contracts);
    (s.(epoch := Successor(d.epoch),
        policies := PolicyTable(d.policies),
        contracts := contracts,
        accs := TouchAll(map[], Restores(Objectives(contracts), d.snapshots)),
        receipts := d.receipts,
        evaluations := d.evaluations),
     Answer(Ok))
  }

  // ----- Steps and runs -----

  function Step(s: State, op: Op): (State, Response)
    requires Legal(s, op)
  {
    match op
    case SetPolicy(p) => DoSetPolicy(s, p)
    case AddContract(c) => DoAddContract(s, c)
    case SupersedeContract(c) => DoSupersede(s, c)
    case IngestEvidence(e) => DoIngest(s, e)
    case RecoveryEvent(id, phase, now) => DoRecovery(s, id, phase, now)
    case ViolationEvent(id) => DoViolation(s, id)
    case SetBudget(id, total, window) => DoSetBudget(s, id, total, window)
    case Evaluate(_, _, _, _) => DoEvaluate(s, op)
    case Authorize(i, now) => DoAuthorize(s, i, now)
    case Load(d) => DoLoad(s, d)
    case _ => DoAmend(s, op.id, op)
  }

  predicate LegalRun(s: State, ops: seq<Op>)
    decreases |ops|, 0
  {
    ops == [] || (LegalRun(s, ops[..|ops| - 1]) && Legal(Run(s, ops[..|ops| - 1]), ops[|ops| - 1]))
  }

  /** The state after a run of calls. */
  function Run(s: State, ops: seq<Op>): State
    requires LegalRun(s, ops)
    decreases |ops|, 1
  {
    if ops == [] then s else Step(Run(s, ops[..|ops| - 1]), ops[|ops| - 1]).0
  }

  // ----- One objective's part in a run -----

  /** What a call does to accumulators. */
  function Touches(s: State, op: Op): seq<Touch> {
    match op
    case IngestEvidence(e) =>
      if NoteStatus(s, e.id) == Ok && FenceStatus(s, e) == Ok
      then [Touch(e.objectiveId, Take(Definition(s.contracts, e.objectiveId).value, e))] else []
    case RecoveryEvent(id, phase, now) =>
      var def := Definition(s.contracts, id);
      if def.Some? then [Touch(id, Reach(def.value, phase, now))] else []
    case ViolationEvent(id) =>
      if Lookups(s.contracts, id) == [] then [] else Lookups(s.contracts, id) + [Touch(id, Charge)]
    case SetBudget(id, total, window) =>
      var def := Definition(s.contracts, id);
      if def.Some? then [Touch(id, Grant(def.value, total, window))] else []
    case Evaluate(_, _, now, _) => if Chosen(s, op).Some? then Assessments(Chosen(s, op).value.objectives, now) else []
    case Authorize(i, now) =>
      if AuthorizeStatus(s, i, now) == Ok then [Touch(i.objectiveId, Cool(Wrapped(now + i.cooldown)))] else []
    case Load(d) => Restores(Objectives(ContractTable(d.contracts)), d.snapshots)
    case _ => []
  }

  function Of(ts: seq<Touch>, id: U64): seq<Update> {
    if ts == [] then []
    else
      var past := Of(ts[..|ts| - 1], id);
      if ts[|ts| - 1].id == id then past + [ts[|ts| - 1].update] else past
  }

  /** What a call does to one objective's accumulator. */
  function Updates(s: State, op: Op, id: U64): seq<Update> {
    if op.Load? then [Forget] + Of(Touches(s, op), id) else Of(Touches(s, op), id)
  }

  function RunUpdates(s: State, ops: seq<Op>, id: U64): seq<Update>
    requires LegalRun(s, ops)
  {
    if ops == [] then []
    else
      var past := ops[..|ops| - 1];
      RunUpdates(s, past, id) + Updates(Run(s, past), ops[|ops| - 1], id)
  }

  lemma {:induction false} TouchAllAt(accs: map<U64, Accumulator>, ts: seq<Touch>, id: U64)
    ensures Slot(TouchAll(accs, ts), id) == Life(Slot(accs, id), Of(ts, id))
  {
    if ts != [] {
      var past, t := ts[..|ts| - 1], ts[|ts| - 1];
      TouchAllAt(accs, past, id);
      if t.id == id {
        var us := Of(past, id);
        assert (us + [t.update])[..|us|] == us;
      }
    }
  }

  /** Every call changes the accumulators by its touches and nothing else. */
  lemma StepTouches(s: State, op: Op)
    requires Legal(s, op)
    ensures Step(s, op).0.accs == TouchAll(if op.Load? then map[] else s.accs, Touches(s, op))
  {
    if op.IngestEvidence? {
      IngestTouches(s, op.e);
    } else if op.Evaluate? {
      EvaluateTouches(s, op);
    } else if op.Load? || op.Authorize? || op.SetBudget? || op.ViolationEvent? || op.RecoveryEvent? {
      EventTouches(s, op);
    } else {
      QuietTouches(s, op);
    }
  }

  lemma EventTouches(s: State, op: Op)
    requires op.Load? || op.Authorize? || op.SetBudget? || op.ViolationEvent? || op.RecoveryEvent?
    ensures Step(s, op).0.accs == TouchAll(if op.Load? then map[] else s.accs, Touches(s, op))
  {}

  /** Calls on policies and contracts leave the accumulators alone. */
  lemma QuietTouches(s: State, op: Op)
    requires op.SetPolicy? || op.AddContract? || op.SupersedeContract? || op.ActivateContract? || op.SuspendContract?
      || op.ExpireContract? || op.RetireContract?
    ensures Touches(s, op) == [] && Step(s, op).0.accs == s.accs
  {}

  lemma IngestTouches(s: State, e: Evidence)
    ensures DoIngest(s, e).0.accs == TouchAll(s.accs, Touches(s, IngestEvidence(e)))
  {
    assert Noted(s, e.id).contracts == s.contracts && Noted(s, e.id).epoch == s.epoch;
  }

  lemma EvaluateTouches(s: State, op: Op)
    requires op.Evaluate? && Legal(s, op)
    ensures DoEvaluate(s, op).0.accs == TouchAll(s.accs, Touches(s, op))
  {}

  lemma StepUpdates(s: State, op: Op, id: U64)
    requires Legal(s, op)
    ensures Slot(Step(s, op).0.accs, id) == Life(Slot(s.accs, id), Updates(s, op, id))
  {
    StepTouches(s, op);
    TouchAllAt(if op.Load? then map[] else s.accs, Touches(s, op), id);
    if op.Load? {
      LifeConcat(Slot(s.accs, id), [Forget], Of(Touches(s, op), id));
    }
  }

  /** A run, seen from one objective, is a life. */
  lemma {:induction false} RunIsLife(s: State, ops: seq<Op>, id: U64)
    requires LegalRun(s, ops)
    ensures Slot(Run(s, ops).accs, id) == Life(Slot(s.accs, id), RunUpdates(s, ops, id))
  {
    if ops != [] {
      var past, op := ops[..|ops| - 1], ops[|ops| - 1];
      RunIsLife(s, past, id);
      StepUpdates(Run(s, past), op, id);
      LifeConcat(Slot(s.accs, id), RunUpdates(s, past, id), Updates(Run(s, past), op, id));
    }
  }
}
