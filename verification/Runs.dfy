/** What holds of every run: where definitions come from, and which calls cause which updates. */
module Runs {
  import opened Types
  import opened Accumulators
  import opened Lives
  import opened Tables
  import opened Engine

  // ----- Properties of every definition in force -----

  ghost predicate EveryIn(os: seq<Objective>, f: Objective -> bool) {
    forall i {:trigger os[i]} :: 0 <= i < |os| ==> f(os[i])
  }

  ghost predicate Every(t: Table<Contract>, f: Objective -> bool) {
    forall i {:trigger t[i]} :: 0 <= i < |t| ==> EveryIn(t[i].value.objectives, f)
  }

  lemma {:induction false} EveryPut(t: Table<Contract>, c: Contract, id: U64, f: Objective -> bool)
    requires Every(t, f) && EveryIn(c.objectives, f)
    ensures Every(Put(t, id, c), f)
  {
    PutMembers(t, id, c);
    var t' := Put(t, id, c);
    forall i | 0 <= i < |t'| ensures EveryIn(t'[i].value.objectives, f) {
      assert t'[i] in t';
      if t'[i] in t {
        var k :| 0 <= k < |t| && t[k] == t'[i];
      }
    }
  }

  lemma {:induction false} EveryLookup(t: Table<Contract>, id: U64, f: Objective -> bool)
    requires Every(t, f) && Lookup(t, id).Some?
    ensures EveryIn(Lookup(t, id).value.objectives, f)
  {
    LookupIsEntry(t, id);
    var k :| 0 <= k < |t| && t[k] == Entry(id, Lookup(t, id).value);
  }

  lemma {:induction false} EveryFlat(t: Table<Contract>, f: Objective -> bool)
    requires Every(t, f)
    ensures EveryIn(Objectives(t), f)
  {
    if t != [] {
      var past := t[..|t| - 1];
      assert forall i :: 0 <= i < |past| ==> past[i] == t[i];
      EveryFlat(past, f);
    }
  }

  /** The call brings only definitions with the property into force. A contract that is refused brings
      none. */
  ghost predicate Brings(s: State, op: Op, f: Objective -> bool) {
    match op
    case AddContract(c) => DoAddContract(s, c).1 == Answer(Ok) ==> EveryIn(c.objectives, f)
    case SupersedeContract(c) => DoSupersede(s, c).1 == Answer(Ok) ==> EveryIn(c.objectives, f)
    case Load(d) => Every(ContractTable(d.contracts), f)
    case _ => true
  }

  /** The contracts after a call. */
  function ContractsAfter(s: State, op: Op): Table<Contract> {
    match op
    case AddContract(c) => DoAddContract(s, c).0.contracts
    case SupersedeContract(c) => DoSupersede(s, c).0.contracts
    case Load(d) => ContractTable(d.contracts)
    case ActivateContract(id, _) => DoAmend(s, id, op).0.contracts
    case SuspendContract(id) => DoAmend(s, id, op).0.contracts
    case ExpireContract(id, _) => DoAmend(s, id, op).0.contracts
    case RetireContract(id) => DoAmend(s, id, op).0.contracts
    case _ => s.contracts
  }

  lemma StepContracts(s: State, op: Op)
    requires Legal(s, op)
    ensures Step(s, op).0.contracts == ContractsAfter(s, op)
  {}

  lemma EveryAfter(s: State, op: Op, f: Objective -> bool)
    requires Every(s.contracts, f) && Brings(s, op, f)
    ensures Every(ContractsAfter(s, op), f)
  {
    match op
    case AddContract(c) => if DoAddContract(s, c).1 == Answer(Ok) { EveryPut(s.contracts, c, c.id, f); }
    case SupersedeContract(c) => if DoSupersede(s, c).1 == Answer(Ok) { EveryPut(s.contracts, c, c.id, f); }
    case ActivateContract(id, _) => EveryAmended(s, id, op, f);
    case SuspendContract(id) => EveryAmended(s, id, op, f);
    case ExpireContract(id, _) => EveryAmended(s, id, op, f);
    case RetireContract(id) => EveryAmended(s, id, op, f);
    case _ =>
  }

  lemma EveryAmended(s: State, id: U64, op: Op, f: Objective -> bool)
    requires Every(s.contracts, f)
    ensures Every(DoAmend(s, id, op).0.contracts, f)
  {
    var c := Lookup(s.contracts, id);
    if c.Some? {
      EveryLookup(s.contracts, id, f);
      EveryPut(s.contracts, Amended(c.value, op), id, f);
    }
  }

  /** Every call of a run brings only definitions with the property into force. */
  ghost predicate AllBring(s: State, ops: seq<Op>, f: Objective -> bool)
    requires LegalRun(s, ops)
  {
    ops == [] || (AllBring(s, ops[..|ops| - 1], f) && Brings(Run(s, ops[..|ops| - 1]), ops[|ops| - 1], f))
  }

  lemma {:induction false} EveryRun(s: State, ops: seq<Op>, f: Objective -> bool)
    requires LegalRun(s, ops) && Every(s.contracts, f) && AllBring(s, ops, f)
    ensures Every(Run(s, ops).contracts, f)
  {
    if ops != [] {
      var past, op := ops[..|ops| - 1], ops[|ops| - 1];
      EveryRun(s, past, f);
      StepContracts(Run(s, past), op);
      EveryAfter(Run(s, past), op, f);
    }
  }

  /** The property that every definition has. */
  ghost function Any(): Objective -> bool {
    (o: Objective) => true
  }

  lemma {:induction false} AnyBrings(s: State, ops: seq<Op>)
    requires LegalRun(s, ops)
    ensures AllBring(s, ops, Any())
  {
    if ops != [] {
      AnyBrings(s, ops[..|ops| - 1]);
    }
  }

  // ----- Runs without undefined evaluations -----

  predicate NoneEmpty(t: Table<Contract>) {
    forall i {:trigger t[i]} :: 0 <= i < |t| ==> t[i].value.objectives != []
  }

  /** A superseding or loaded contract has objectives; adding one checks that itself. */
  predicate Populates(op: Op) {
    match op
    case SupersedeContract(c) => c.objectives != []
    case Load(d) => forall i {:trigger d.contracts[i]} :: 0 <= i < |d.contracts| ==> d.contracts[i].objectives != []
    case _ => true
  }

  lemma PutNoneEmpty(t: Table<Contract>, id: U64, c: Contract)
    requires NoneEmpty(t) && c.objectives != []
    ensures NoneEmpty(Put(t, id, c))
  {
    PutMembers(t, id, c);
    var t' := Put(t, id, c);
    forall i | 0 <= i < |t'| ensures t'[i].value.objectives != [] {
      assert t'[i] in t';
    }
  }

  lemma {:induction false} LoadedNoneEmpty(cs: seq<Contract>)
    requires forall i {:trigger cs[i]} :: 0 <= i < |cs| ==> cs[i].objectives != []
    ensures NoneEmpty(ContractTable(cs))
  {
    if cs != [] {
      var past := cs[..|cs| - 1];
      assert forall i :: 0 <= i < |past| ==> past[i] == cs[i];
      LoadedNoneEmpty(past);
      PutNoneEmpty(ContractTable(past), cs[|cs| - 1].id, cs[|cs| - 1]);
    }
  }

  lemma AmendNoneEmpty(s: State, id: U64, op: Op)
    requires NoneEmpty(s.contracts)
    ensures NoneEmpty(DoAmend(s, id, op).0.contracts)
  {
    var c := Lookup(s.contracts, id);
    if c.Some? {
      LookupIsEntry(s.contracts, id);
      PutNoneEmpty(s.contracts, id, Amended(c.value, op));
    }
  }

  lemma NoneEmptyAfter(s: State, op: Op)
    requires NoneEmpty(s.contracts) && Populates(op)
    ensures NoneEmpty(ContractsAfter(s, op))
  {
    match op
    case AddContract(c) => if c.objectives != [] { PutNoneEmpty(s.contracts, c.id, c); }
    case SupersedeContract(c) => PutNoneEmpty(s.contracts, c.id, c);
    case Load(d) => LoadedNoneEmpty(d.contracts);
    case ActivateContract(id, _) => AmendNoneEmpty(s, id, op);
    case SuspendContract(id) => AmendNoneEmpty(s, id, op);
    case ExpireContract(id, _) => AmendNoneEmpty(s, id, op);
    case RetireContract(id) => AmendNoneEmpty(s, id, op);
    case _ =>
  }

  lemma NoneEmptyIsLegal(s: State, op: Op)
    requires NoneEmpty(s.contracts)
    ensures Legal(s, op)
  {
    if op.Evaluate? && Chosen(s, op).Some? {
      ScopedIsEntry(s.contracts, op.service, op.workload, op.now);
    }
  }

  /** A run in which every superseding and every loaded contract has objectives never evaluates a
      contract without any. */
  lemma {:induction false} PopulatedRunIsLegal(s: State, ops: seq<Op>)
    requires NoneEmpty(s.contracts) && forall i {:trigger ops[i]} :: 0 <= i < |ops| ==> Populates(ops[i])
    ensures LegalRun(s, ops) && NoneEmpty(Run(s, ops).contracts)
  {
    if ops != [] {
      var past, op := ops[..|ops| - 1], ops[|ops| - 1];
      assert forall i :: 0 <= i < |past| ==> past[i] == ops[i];
      PopulatedRunIsLegal(s, past);
      var t := Run(s, past);
      NoneEmptyIsLegal(t, op);
      StepContracts(t, op);
      assert Populates(op);
      NoneEmptyAfter(t, op);
    }
  }

  /** Superseding by a contract without objectives and then evaluating it is not legal. */
  lemma EmptySupersedeIsIllegal(p: Policy, c: Contract, now: I64, notes: Notes)
    requires c.objectives == [] && c.policyId == p.id && c.policyGen == p.gen && c.CanAuthorize(now)
    ensures !LegalRun(Initial, [SetPolicy(p), SupersedeContract(c), Evaluate(c.service, c.workload, now, notes)])
  {
    var first, supersede, evaluate := SetPolicy(p), SupersedeContract(c), Evaluate(c.service, c.workload, now, notes);
    var s1 := Initial.(policies := [Entry(p.id, p)]);
    var s2 := s1.(contracts := [Entry(c.id, c)]);
    assert Step(Initial, first).0 == s1;
    RunSnoc(Initial, [], first);
    assert [] + [first] == [first];
    assert Step(s1, supersede).0 == s2;
    RunSnoc(Initial, [first], supersede);
    assert [first] + [supersede] == [first, supersede];
    assert s2.contracts[..0] == [];
    assert Scoped(s2.contracts, c.service, c.workload, now) == Some(c);
    assert Lookup(s2.policies, c.policyId) == Some(p);
    assert Chosen(s2, evaluate) == Some(c);
    assert [first, supersede, evaluate][..2] == [first, supersede];
  }

  lemma RunSnoc(s: State, ops: seq<Op>, op: Op)
    requires LegalRun(s, ops) && Legal(Run(s, ops), op)
    ensures LegalRun(s, ops + [op]) && Run(s, ops + [op]) == Step(Run(s, ops), op).0
  {
    assert (ops + [op])[..|ops|] == ops;
  }

  // ----- Which updates a call causes -----

  /** The update is one that `op` can cause to objective `id`, by a definition with the property. */
  ghost predicate Caused(u: Update, op: Op, id: U64, f: Objective -> bool) {
    && (u.Opens() ==> u.o.id == id && f(u.o))
    && (u.Loads() ==> op.Load? && (u.Restore? ==> u.snap in op.durable.snapshots))
    && (u.Cool? ==> op.Authorize? && op.intent.objectiveId == id)
    && (u.Take? ==> op.IngestEvidence? && op.e.objectiveId == id && u.e == op.e)
    && (u.Charge? ==> op.ViolationEvent? && op.id == id)
    && (u.Grant? ==> op.SetBudget? && op.id == id && u.total == op.total && u.window == op.window)
    && (u.Assess? ==> op.Evaluate? && u.now == op.now)
    && (u.Reach? ==> op.RecoveryEvent? && op.id == id && u.phase == op.phase && u.time == op.now)
  }

  ghost predicate AllCaused(us: seq<Update>, op: Op, id: U64, f: Objective -> bool) {
    forall i {:trigger us[i]} :: 0 <= i < |us| ==> Caused(us[i], op, id, f)
  }

  lemma {:induction false} NewestFits(os: seq<Objective>, id: U64, f: Objective -> bool)
    requires EveryIn(os, f)
    ensures Newest(os, id).Some? ==> Newest(os, id).value.id == id && f(Newest(os, id).value)
  {
    if os != [] {
      NewestFits(os[..|os| - 1], id, f);
    }
  }

  lemma {:induction false} FirstFits(os: seq<Objective>, id: U64, f: Objective -> bool)
    requires EveryIn(os, f)
    ensures FirstIn(os, id).Some? ==> FirstIn(os, id).value.id == id && f(FirstIn(os, id).value)
  {
    if os != [] {
      FirstFits(os[1..], id, f);
    }
  }

  lemma CausedSnoc(us: seq<Update>, u: Update, op: Op, id: U64, f: Objective -> bool)
    requires AllCaused(us, op, id, f) && Caused(u, op, id, f)
    ensures AllCaused(us + [u], op, id, f)
  {}

  lemma EveryFront(t: Table<Contract>, f: Objective -> bool)
    requires t != [] && Every(t, f)
    ensures Every(t[..|t| - 1], f) && EveryIn(t[|t| - 1].value.objectives, f)
  {
    var past := t[..|t| - 1];
    assert forall i :: 0 <= i < |past| ==> past[i] == t[i];
  }

  lemma {:induction false} LookupsFit(t: Table<Contract>, id: U64, k: U64, op: Op, f: Objective -> bool)
    requires Every(t, f) && op.ViolationEvent? && op.id == id
    ensures AllCaused(Of(Lookups(t, id), k), op, k, f)
  {
    if t != [] {
      var past, o := t[..|t| - 1], FirstIn(t[|t| - 1].value.objectives, id);
      EveryFront(t, f);
      LookupsFit(past, id, k, op, f);
      if o.Some? {
        FirstFits(t[|t| - 1].value.objectives, id, f);
        OfSnoc(Lookups(past, id), Touch(id, Open(o.value)), k);
        if k == id {
          CausedSnoc(Of(Lookups(past, id), k), Open(o.value), op, k, f);
        }
      }
    }
  }

  lemma OfSnoc(ts: seq<Touch>, t: Touch, k: U64)
    ensures Of(ts + [t], k) == if t.id == k then Of(ts, k) + [t.update] else Of(ts, k)
  {
    assert (ts + [t])[..|ts|] == ts;
  }

  lemma OfOne(t: Touch, k: U64)
    ensures Of([t], k) == if t.id == k then [t.update] else []
  {
    assert [] + [t] == [t];
    OfSnoc([], t, k);
  }

  lemma {:induction false} OfConcat(ts: seq<Touch>, us: seq<Touch>, k: U64)
    ensures Of(ts + us, k) == Of(ts, k) + Of(us, k)
  {
    if us == [] {
      assert ts + us == ts;
    } else {
      var past := us[..|us| - 1];
      assert (ts + us)[..|ts + us| - 1] == ts + past;
      OfConcat(ts, past, k);
    }
  }

  lemma {:induction false} AssessmentsFit(os: seq<Objective>, now: I64, k: U64, op: Op, f: Objective -> bool)
    requires EveryIn(os, f) && op.Evaluate? && op.now == now
    ensures AllCaused(Of(Assessments(os, now), k), op, k, f)
  {
    if os != [] {
      var past, o := os[..|os| - 1], os[|os| - 1];
      AssessmentsFit(past, now, k, op, f);
      OfSnoc(Assessments(past, now), Touch(o.id, Assess(o, now)), k);
    }
  }

  lemma {:induction false} RestoresOfFit(os: seq<Objective>, snap: ObjectiveSnapshot, k: U64, op: Op, f: Objective -> bool)
    requires EveryIn(os, f) && op.Load? && snap in op.durable.snapshots
    ensures AllCaused(Of(RestoresOf(os, snap), k), op, k, f)
  {
    if os != [] {
      var past, o := os[..|os| - 1], os[|os| - 1];
      RestoresOfFit(past, snap, k, op, f);
      OfSnoc(RestoresOf(past, snap), Touch(o.id, Restore(o, snap)), k);
    }
  }

  lemma {:induction false} RestoresFit(os: seq<Objective>, snaps: seq<ObjectiveSnapshot>, k: U64, op: Op, f: Objective -> bool)
    requires EveryIn(os, f) && op.Load? && forall i {:trigger snaps[i]} :: 0 <= i < |snaps| ==> snaps[i] in op.durable.snapshots
    ensures AllCaused(Of(Restores(os, snaps), k), op, k, f)
  {
    if snaps != [] {
      var past, snap := snaps[..|snaps| - 1], snaps[|snaps| - 1];
      assert forall i :: 0 <= i < |past| ==> past[i] == snaps[i];
      RestoresFit(os, past, k, op, f);
      RestoresOfFit(os, snap, k, op, f);
      OfConcat(Restores(os, past), RestoresOf(os, snap), k);
    }
  }

  lemma {:induction false} ScopedIsEntry(t: Table<Contract>, service: U64, workload: U64, now: int)
    requires Scoped(t, service, workload, now).Some?
    ensures var c := Scoped(t, service, workload, now).value;
      && c.service == service && c.workload == workload && c.CanAuthorize(now)
      && exists i {:trigger t[i]} :: 0 <= i < |t| && t[i].value == c
  {
    var past := t[..|t| - 1];
    if Scoped(t, service, workload, now) == Scoped(past, service, workload, now) {
      ScopedIsEntry(past, service, workload, now);
      var i :| 0 <= i < |past| && past[i].value == Scoped(past, service, workload, now).value;
      assert t[i] == past[i];
    } else {
      assert t[|t| - 1].value == Scoped(t, service, workload, now).value;
    }
  }

  /** Every update that a call causes uses a definition in force, and is of the kind that the call
      makes. */
  lemma UpdatesCaused(s: State, op: Op, id: U64, f: Objective -> bool)
    requires Every(s.contracts, f) && Brings(s, op, f)
    ensures AllCaused(Updates(s, op, id), op, id, f)
  {
    match op
    case IngestEvidence(e) => DefinitionCaused(s, op, e.objectiveId, id, f);
    case RecoveryEvent(k, _, _) => DefinitionCaused(s, op, k, id, f);
    case SetBudget(k, _, _) => DefinitionCaused(s, op, k, id, f);
    case Authorize(_, _) => SingleCaused(s, op, id, f);
    case ViolationEvent(k) => ViolationCaused(s, k, id, f);
    case Evaluate(_, _, _, _) => EvaluateCaused(s, op, id, f);
    case Load(d) => LoadCaused(s, d, id, f);
    case _ =>
  }

  lemma DefinitionCaused(s: State, op: Op, k: U64, id: U64, f: Objective -> bool)
    requires Every(s.contracts, f)
    requires match op
      case IngestEvidence(e) => k == e.objectiveId
      case RecoveryEvent(m, _, _) => k == m
      case SetBudget(m, _, _) => k == m
      case _ => false
    ensures AllCaused(Updates(s, op, id), op, id, f)
  {
    EveryFlat(s.contracts, f);
    NewestFits(Objectives(s.contracts), k, f);
    SingleCaused(s, op, id, f);
  }

  lemma ViolationCaused(s: State, k: U64, id: U64, f: Objective -> bool)
    requires Every(s.contracts, f)
    ensures AllCaused(Updates(s, ViolationEvent(k), id), ViolationEvent(k), id, f)
  {
    var ts := Lookups(s.contracts, k);
    LookupsFit(s.contracts, k, id, ViolationEvent(k), f);
    OfSnoc(ts, Touch(k, Charge), id);
    if k == id {
      CausedSnoc(Of(ts, id), Charge, ViolationEvent(k), id, f);
    }
  }

  lemma LoadCaused(s: State, d: DurableState, id: U64, f: Objective -> bool)
    requires Every(ContractTable(d.contracts), f)
    ensures AllCaused(Updates(s, Load(d), id), Load(d), id, f)
  {
    EveryFlat(ContractTable(d.contracts), f);
    RestoresFit(Objectives(ContractTable(d.contracts)), d.snapshots, id, Load(d), f);
  }

  lemma SingleCaused(s: State, op: Op, id: U64, f: Objective -> bool)
    requires op.IngestEvidence? || op.RecoveryEvent? || op.SetBudget? || op.Authorize?
    requires |Touches(s, op)| == 1 ==> Caused(Touches(s, op)[0].update, op, Touches(s, op)[0].id, f)
    ensures AllCaused(Updates(s, op, id), op, id, f)
  {
    var ts := Touches(s, op);
    if |ts| == 1 {
      assert ts == [ts[0]];
      OfOne(ts[0], id);
    } else {
      assert ts == [];
    }
  }

  lemma EvaluateCaused(s: State, op: Op, id: U64, f: Objective -> bool)
    requires op.Evaluate? && Every(s.contracts, f)
    ensures AllCaused(Updates(s, op, id), op, id, f)
  {
    if Chosen(s, op).Some? {
      var c := Chosen(s, op).value;
      ScopedIsEntry(s.contracts, op.service, op.workload, op.now);
      AssessmentsFit(c.objectives, op.now, id, op, f);
    }
  }

  /** Every update of a run is caused by one of its calls. */
  ghost predicate CausedBySome(u: Update, ops: seq<Op>, id: U64, f: Objective -> bool) {
    exists j {:trigger ops[j]} :: 0 <= j < |ops| && Caused(u, ops[j], id, f)
  }

  ghost predicate AllCausedBySome(us: seq<Update>, ops: seq<Op>, id: U64, f: Objective -> bool) {
    forall i {:trigger us[i]} :: 0 <= i < |us| ==> CausedBySome(us[i], ops, id, f)
  }

  lemma {:induction false} RunUpdatesCaused(s: State, ops: seq<Op>, id: U64, f: Objective -> bool)
    requires LegalRun(s, ops) && Every(s.contracts, f) && AllBring(s, ops, f)
    ensures AllCausedBySome(RunUpdates(s, ops, id), ops, id, f)
  {
    if ops != [] {
      var past, op := ops[..|ops| - 1], ops[|ops| - 1];
      assert ops == past + [op];
      EveryRun(s, past, f);
      RunUpdatesCaused(s, past, id, f);
      UpdatesCaused(Run(s, past), op, id, f);
      CausesGrow(RunUpdates(s, past, id), Updates(Run(s, past), op, id), past, op, ops, id, f);
    }
  }

  lemma CausesGrow(us: seq<Update>, vs: seq<Update>, past: seq<Op>, op: Op, ops: seq<Op>, id: U64, f: Objective -> bool)
    requires ops == past + [op] && AllCaused(vs, op, id, f)
    requires AllCausedBySome(us, past, id, f)
    ensures AllCausedBySome(us + vs, ops, id, f)
  {
    var ws := us + vs;
    forall i | 0 <= i < |ws| ensures CausedBySome(ws[i], ops, id, f) {
      if i < |us| {
        var j :| 0 <= j < |past| && Caused(us[i], past[j], id, f);
        assert ops[j] == past[j];
      } else {
        assert ws[i] == vs[i - |us|];
        assert ops[|past|] == op;
      }
    }
  }

  /** The contracts whose definitions a call works with. */
  function ContractsUsed(s: State, op: Op): Table<Contract> {
    if op.Load? then ContractTable(op.durable.contracts) else s.contracts
  }

  /** The definitions in force for a call. */
  ghost function InForceAt(s: State, op: Op): Objective -> bool {
    var os := Objectives(ContractsUsed(s, op));
    (o: Objective) => o in os
  }

  lemma {:induction false} EveryMember(t: Table<Contract>, i: nat, o: Objective)
    requires i < |t| && o in t[i].value.objectives
    ensures o in Objectives(t)
  {
    if i < |t| - 1 {
      assert t[..|t| - 1][i] == t[i];
      EveryMember(t[..|t| - 1], i, o);
    }
  }

  lemma InForceEvery(s: State, op: Op)
    ensures Every(ContractsUsed(s, op), InForceAt(s, op))
  {
    var t := ContractsUsed(s, op);
    forall i | 0 <= i < |t| ensures EveryIn(t[i].value.objectives, InForceAt(s, op)) {
      forall k | 0 <= k < |t[i].value.objectives| ensures InForceAt(s, op)(t[i].value.objectives[k]) {
        EveryMember(t, i, t[i].value.objectives[k]);
      }
    }
  }

  lemma UpdatesInForce(s: State, op: Op, id: U64)
    ensures AllCaused(Updates(s, op, id), op, id, InForceAt(s, op))
  {
    InForceEvery(s, op);
    if op.Load? {
      LoadCaused(s, op.durable, id, InForceAt(s, op));
    } else if op.AddContract? || op.SupersedeContract? {
      assert Updates(s, op, id) == [];
    } else {
      UpdatesCaused(s, op, id, InForceAt(s, op));
    }
  }

  /** Call `j` of the run caused the update, with a definition in force when it was made. */
  ghost predicate CausedAt(u: Update, s: State, ops: seq<Op>, id: U64, j: nat) {
    && j < |ops| && LegalRun(s, ops[..j])
    && Caused(u, ops[j], id, InForceAt(Run(s, ops[..j]), ops[j]))
  }

  ghost predicate CausedSomewhere(u: Update, s: State, ops: seq<Op>, id: U64) {
    exists j: nat :: CausedAt(u, s, ops, id, j)
  }

  ghost predicate AllCausedAtSome(us: seq<Update>, s: State, ops: seq<Op>, id: U64) {
    forall i {:trigger us[i]} :: 0 <= i < |us| ==> CausedSomewhere(us[i], s, ops, id)
  }

  /** Every update of a run is caused by a call of its kind, with a definition that is in force at that
      point of the run. */
  lemma {:induction false} RunUpdatesInForce(s: State, ops: seq<Op>, id: U64)
    requires LegalRun(s, ops)
    ensures AllCausedAtSome(RunUpdates(s, ops, id), s, ops, id)
  {
    if ops != [] {
      var past, op := ops[..|ops| - 1], ops[|ops| - 1];
      assert ops == past + [op];
      RunUpdatesInForce(s, past, id);
      var us, vs := RunUpdates(s, past, id), Updates(Run(s, past), op, id);
      UpdatesInForce(Run(s, past), op, id);
      CausesGrowAt(us, vs, s, past, op, ops, id);
      assert RunUpdates(s, ops, id) == us + vs;
    }
  }

  lemma CausesGrowAt(us: seq<Update>, vs: seq<Update>, s: State, past: seq<Op>, op: Op, ops: seq<Op>, id: U64)
    requires ops == past + [op] && LegalRun(s, past)
    requires AllCausedAtSome(us, s, past, id) && AllCaused(vs, op, id, InForceAt(Run(s, past), op))
    ensures AllCausedAtSome(us + vs, s, ops, id)
  {
    var ws := us + vs;
    forall i | 0 <= i < |ws| ensures CausedSomewhere(ws[i], s, ops, id) {
      if i < |us| {
        var j: nat :| CausedAt(us[i], s, past, id, j);
        assert ops[j] == past[j] && ops[..j] == past[..j];
        assert CausedAt(ws[i], s, ops, id, j);
      } else {
        assert ws[i] == vs[i - |us|];
        assert ops[|past|] == op && ops[..|past|] == past;
        assert CausedAt(ws[i], s, ops, id, |past|);
      }
    }
  }
}
