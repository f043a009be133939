/** The fabric object: each public call as it works on its fields, proved to take the step of the
    state machine. */
module Fabrics {
  import opened Types
  import opened Doubles
  import opened SampleWindows
  import opened Budgets
  import opened Trends
  import opened Decisions
  import opened Binding
  import opened Accumulators
  import opened Lives
  import opened Tables
  import opened Engine

  // ----- Walks over the contracts -----

  lemma {:induction false} NewestConcat(os: seq<Objective>, o: Objective, id: U64)
    ensures Newest(os + [o], id)
         == if o.id == id && (Newest(os, id).None? || o.gen > Newest(os, id).value.gen) then Some(o) else Newest(os, id)
  {
    assert (os + [o])[..|os|] == os;
  }

  method FindDefinition(contracts: Table<Contract>, id: U64) returns (def: Option<Objective>)
    ensures def == Definition(contracts, id)
  {
    def := None;
    for i := 0 to |contracts|
      invariant def == Newest(Objectives(contracts[..i]), id)
    {
      def := FindNewer(contracts[i].value.objectives, id, def, Objectives(contracts[..i]));
      assert contracts[..i + 1][..i] == contracts[..i];
    }
    assert contracts[..|contracts|] == contracts;
  }

  method FindNewer(os: seq<Objective>, id: U64, found: Option<Objective>, ghost past: seq<Objective>)
    returns (def: Option<Objective>)
    requires found == Newest(past, id)
    ensures def == Newest(past + os, id)
  {
    def := found;
    assert past + os[..0] == past;
    for j := 0 to |os|
      invariant def == Newest(past + os[..j], id)
    {
      assert past + os[..j + 1] == past + os[..j] + [os[j]];
      NewestConcat(past + os[..j], os[j], id);
      if os[j].id == id && (def.None? || os[j].gen > def.value.gen) {
        def := Some(os[j]);
      }
    }
    assert os[..|os|] == os;
  }

  method FindFirst(os: seq<Objective>, id: U64) returns (o: Option<Objective>)
    ensures o == FirstIn(os, id)
  {
    var i := 0;
    while i < |os|
      invariant i <= |os| && FirstIn(os, id) == FirstIn(os[i..], id)
    {
      if os[i].id == id {
        return Some(os[i]);
      }
      i := i + 1;
    }
    o := None;
  }

  method FindScoped(contracts: Table<Contract>, service: U64, workload: U64, now: int) returns (c: Option<Contract>)
    ensures c == Scoped(contracts, service, workload, now)
  {
    c := None;
    for i := 0 to |contracts|
      invariant c == Scoped(contracts[..i], service, workload, now)
    {
      assert contracts[..i + 1][..i] == contracts[..i];
      var candidate := contracts[i].value;
      if candidate.service == service && candidate.workload == workload && candidate.CanAuthorize(now) {
        if c.None? || candidate.gen > c.value.gen {
          c := Some(candidate);
        }
      }
    }
    assert contracts[..|contracts|] == contracts;
  }

  method FindTarget(contracts: Table<Contract>, id: U64, service: U64) returns (c: Option<Contract>)
    ensures c == Target(contracts, id, service)
  {
    c := None;
    for i := 0 to |contracts|
      invariant c == Target(contracts[..i], id, service)
    {
      assert contracts[..i + 1][..i] == contracts[..i];
      var o := FindFirst(contracts[i].value.objectives, id);
      if o.Some? && contracts[i].value.service == service {
        c := Some(contracts[i].value);
      }
    }
    assert contracts[..|contracts|] == contracts;
  }

  // ----- Evidence reaches an accumulator -----

  method PushInto(acc: Accumulator, time: int, reading: Reading) returns (acc': Accumulator, status: IngestStatus)
    ensures (acc', status) == PushSample(acc, time, reading)
  {
    var window := new SampleWindow.Holding(acc.window);
    status := window.Push(time, reading, acc.nextSeq);
    acc' := acc.(window := window.Contents(), nextSeq := acc.nextSeq + 1);
  }

  method TakeIn(acc: Accumulator, def: Objective, e: Evidence) returns (acc': Accumulator, status: Status)
    ensures (acc', status) == Absorb(acc, def, e)
  {
    if e.id in acc.recentSet {
      return acc, Status.Cancelled;
    }
    acc' := Remember(acc, e.id);
    if !UnitCompatible(def, e.value) {
      return acc', UnitMismatch;
    }
    match e.dimension {
      case RecoveryTime =>
        status := InvalidInput;
      case Availability =>
        acc' := acc'.(account := Credit(acc'.account, def.availabilityMode, NumberOf(e.value), e.sampleCount));
        status := Ok;
      case Cost =>
        if def.kind.CostWindowBudget? {
          var kept := EvictCosts(acc'.cost, e.time, NumberOf(e.value), def.windowDuration);
          acc' := acc'.(cost := kept);
        } else {
          var pushed, _ := PushInto(acc', e.time, ReadingOf(e.value));
          acc' := pushed;
        }
        status := Ok;
      case _ =>
        var verdict;
        acc', verdict := PushInto(acc', e.time, ReadingOf(e.value));
        status := SampleStatus(verdict);
    }
  }

  lemma TouchOne(accs: map<U64, Accumulator>, t: Touch)
    ensures TouchAll(accs, [t]) == WithSlot(accs, t.id, Apply(Slot(accs, t.id), t.update))
  {
    assert [t][..0] == [];
  }

  lemma TouchSnoc(accs: map<U64, Accumulator>, ts: seq<Touch>, t: Touch)
    ensures TouchAll(accs, ts + [t])
         == WithSlot(TouchAll(accs, ts), t.id, Apply(Slot(TouchAll(accs, ts), t.id), t.update))
  {
    assert (ts + [t])[..|ts|] == ts;
  }

  // ----- Judging -----

  method JudgeOne(acc: Accumulator, o: Objective, now: I64) returns (acc': Accumulator, j: Judgement)
    ensures acc' == Assessed(acc, o, now) && j == JudgementOn(acc, o, now)
  {
    var m := ComputeMeasure(acc, now);
    var freshness := FreshnessOf(acc, now);
    var budget := acc.budget;
    if budget.Some? && budget.value.WindowRolled(now) {
      var b := new ErrorBudget.Holding(budget.value);
      b.ResetWindow(now);
      budget := Some(b.Value());
    }
    var budgetState := if budget.Some? then Some(budget.value.State()) else None;
    var burn := if budget.Some? then Some(budget.value.ClassifyBurn(now)) else None;
    acc' := acc.(budget := budget, lastStateTime := now);
    if m.None? || !freshness.Current? {
      var state := if freshness.StaleEvidence? then RevalidationRequired else InsufficientEvidence;
      acc' := acc'.(lastState := state);
      j := Judgement(o, state, NoRisk, 99, 0.0, freshness, budgetState, burn);
      return;
    }
    var state := StepState(LimitsOf(o), m.value, acc.lastState);
    if budget.Some? && budget.value.State().Exhausted? && state.Compliant? {
      state := NearLimit;
    }
    var risk := ComputeRisk(o, acc, now, m.value);
    acc' := acc'.(lastState := state);
    j := Judgement(o, state, risk, SeverityRank(state), SeverityMagnitude(LimitsOf(o), m.value), freshness, budgetState, burn);
  }

  method ComputeRisk(o: Objective, acc: Accumulator, now: int, measured: real) returns (risk: Risk)
    ensures risk == PredictRisk(o, acc, now, measured)
  {
    if o.dim.Cost? && o.kind.CostWindowBudget? {
      if acc.cost == [] {
        return NoRisk;
      }
      var sum := AddUpCosts(acc.cost);
      return Exceeds(sum / Pace(o, acc.cost[0].time, now), NumberOf(o.target));
    }
    if (o.dim.Latency? || o.dim.MemoryPressure?) && o.comparison.AtMost? {
      risk := ComputeTrendRisk(acc.window.samples, o.windowDuration, measured, LimitsOf(o).breach);
      return;
    }
    risk := NoRisk;
  }

  lemma JudgeSnoc(accs: map<U64, Accumulator>, os: seq<Objective>, i: nat, now: I64, accs': map<U64, Accumulator>,
                  acc: Accumulator, noted: Accumulator, j: Judgement)
    requires i < |os| && accs' == TouchAll(accs, Assessments(os[..i], now)) && acc == Opened(Slot(accs', os[i].id), os[i])
    requires noted == Assessed(acc, os[i], now) && j == JudgementOn(acc, os[i], now)
    ensures TouchAll(accs, Assessments(os[..i + 1], now)) == accs'[os[i].id := noted]
    ensures JudgeAll(accs, os[..i + 1], now) == JudgeAll(accs, os[..i], now) + [j]
  {
    NoteSnoc(accs, os[..i], os[..i + 1], os[i], now);
    JudgementSnoc(accs, os[..i], os[..i + 1], os[i], now);
  }

  lemma NoteSnoc(accs: map<U64, Accumulator>, past: seq<Objective>, front: seq<Objective>, o: Objective, now: I64)
    requires front == past + [o]
    ensures var before := TouchAll(accs, Assessments(past, now));
      TouchAll(accs, Assessments(front, now)) == before[o.id := Assessed(Opened(Slot(before, o.id), o), o, now)]
  {
    assert front[..|front| - 1] == past;
    TouchSnoc(accs, Assessments(past, now), Touch(o.id, Assess(o, now)));
  }

  lemma JudgementSnoc(accs: map<U64, Accumulator>, past: seq<Objective>, front: seq<Objective>, o: Objective, now: I64)
    requires front == past + [o]
    ensures JudgeAll(accs, front, now)
         == JudgeAll(accs, past, now) + [JudgementOn(Opened(Slot(TouchAll(accs, Assessments(past, now)), o.id), o), o, now)]
  {
    assert front[..|front| - 1] == past && front[|front| - 1] == o;
  }

  method JudgeObjectives(accs: map<U64, Accumulator>, os: seq<Objective>, now: I64)
    returns (accs': map<U64, Accumulator>, js: seq<Judgement>)
    ensures accs' == TouchAll(accs, Assessments(os, now)) && js == JudgeAll(accs, os, now)
  {
    accs', js := accs, [];
    for i := 0 to |os|
      invariant accs' == TouchAll(accs, Assessments(os[..i], now))
      invariant js == JudgeAll(accs, os[..i], now)
    {
      var acc := Opened(Slot(accs', os[i].id), os[i]);
      var noted, j := JudgeOne(acc, os[i], now);
      JudgeSnoc(accs, os, i, now, accs', acc, noted, j);
      accs' := accs'[os[i].id := noted];
      js := js + [j];
    }
    assert os[..|os|] == os;
  }

  // ----- The verdict -----

  method FindState(js: seq<Judgement>, state: ComplianceState) returns (found: bool)
    ensures found == AnyState(js, state)
  {
    found := false;
    for i := 0 to |js|
      invariant found == exists k :: 0 <= k < i && js[k].state == state
    {
      if js[i].state == state {
        found := true;
      }
    }
  }

  method ReachVerdict(js: seq<Judgement>) returns (v: Verdict)
    requires js != []
    ensures v == Decide(js)
  {
    var revalidation := FindState(js, RevalidationRequired);
    var insufficient := FindState(js, InsufficientEvidence);
    if revalidation {
      return Verdict(RevalidationRequired, None);
    }
    if insufficient {
      return Verdict(InsufficientEvidence, None);
    }
    var hard := [];
    for i := 0 to |js|
      invariant hard == NonCompliant(js[..i])
    {
      assert js[..i + 1][..i] == js[..i];
      if !js[i].state.Compliant? {
        hard := hard + [js[i]];
      }
    }
    assert js[..|js|] == js;
    if hard == [] {
      hard := [js[0]];
    }
    var b := PickBinding(hard);
    v := Verdict(b.state, Some(b));
  }

  method Explain(js: seq<Judgement>, bindingId: U64)
    returns (secondaries: seq<U64>, risks: seq<Risk>, ranked: seq<RankedIntent>)
    ensures secondaries == Secondaries(js, bindingId) && risks == Risks(js) && ranked == RankedIntents(js, bindingId)
  {
    secondaries, risks, ranked := [], [], [];
    for i := 0 to |js|
      invariant secondaries == Secondaries(js[..i], bindingId)
      invariant risks == Risks(js[..i]) && ranked == RankedIntents(js[..i], bindingId)
    {
      assert js[..i + 1][..i] == js[..i];
      var j := js[i];
      if j.objective.id != bindingId && !j.state.Compliant? {
        secondaries := secondaries + [j.objective.id];
      }
      if !j.risk.NoRisk? {
        risks := risks + [j.risk];
      }
      var action := ActionFor(j.objective.dim, j.state);
      if !action.NoAction? {
        ranked := ranked + [RankedIntent(action, j.objective.id == bindingId)];
      }
    }
    assert js[..|js|] == js;
  }

  method Conclude(s: State, c: Contract, p: Policy, js: seq<Judgement>, op: Op) returns (ev: Evaluation)
    requires op.Evaluate? && js != []
    ensures ev == EvaluationOf(s, c, p, js, op)
  {
    var v := ReachVerdict(js);
    var bindingId := if v.binding.Some? then v.binding.value.objective.id else 0;
    var secondaries, risks, ranked := Explain(js, bindingId);
    ev := Evaluation(
      c.id, c.gen, p.id, p.gen, js, v.overall,
      if v.binding.Some? then v.binding.value.objective.dim else Latency,
      bindingId, if v.binding.Some? then secondaries else [], risks, if v.binding.Some? then ranked else [],
      IntentOf(s, c, v, op.service, op.workload, op.now, op.notes.reason));
  }

  // ----- Restoring -----

  method FilePolicies(ps: seq<Policy>) returns (t: Table<Policy>)
    ensures t == PolicyTable(ps)
  {
    t := [];
    for i := 0 to |ps|
      invariant t == PolicyTable(ps[..i])
    {
      assert ps[..i + 1][..i] == ps[..i];
      t := Put(t, ps[i].id, ps[i]);
    }
    assert ps[..|ps|] == ps;
  }

  method FileContracts(cs: seq<Contract>) returns (t: Table<Contract>)
    ensures t == ContractTable(cs)
  {
    t := [];
    for i := 0 to |cs|
      invariant t == ContractTable(cs[..i])
    {
      assert cs[..i + 1][..i] == cs[..i];
      t := Put(t, cs[i].id, cs[i]);
    }
    assert cs[..|cs|] == cs;
  }

  method RestoreAll(contracts: Table<Contract>, snaps: seq<ObjectiveSnapshot>) returns (accs: map<U64, Accumulator>)
    ensures accs == TouchAll(map[], Restores(Objectives(contracts), snaps))
  {
    accs := map[];
    ghost var os := Objectives(contracts);
    for i := 0 to |snaps|
      invariant accs == TouchAll(map[], Restores(os, snaps[..i]))
    {
      assert snaps[..i + 1][..i] == snaps[..i];
      accs := RestoreOne(contracts, snaps[i], accs, Restores(os, snaps[..i]));
    }
    assert snaps[..|snaps|] == snaps;
  }

  method RestoreOne(contracts: Table<Contract>, snap: ObjectiveSnapshot, accs: map<U64, Accumulator>, ghost before: seq<Touch>)
    returns (accs': map<U64, Accumulator>)
    requires accs == TouchAll(map[], before)
    ensures accs' == TouchAll(map[], before + RestoresOf(Objectives(contracts), snap))
  {
    accs' := accs;
    assert before + [] == before;
    for i := 0 to |contracts|
      invariant accs' == TouchAll(map[], before + RestoresOf(Objectives(contracts[..i]), snap))
    {
      accs' := RestoreIn(contracts[i].value.objectives, snap, accs', before, Objectives(contracts[..i]));
      assert contracts[..i + 1][..i] == contracts[..i];
    }
    assert contracts[..|contracts|] == contracts;
  }

  method RestoreIn(os: seq<Objective>, snap: ObjectiveSnapshot, accs: map<U64, Accumulator>,
                   ghost before: seq<Touch>, ghost past: seq<Objective>)
    returns (accs': map<U64, Accumulator>)
    requires accs == TouchAll(map[], before + RestoresOf(past, snap))
    ensures accs' == TouchAll(map[], before + RestoresOf(past + os, snap))
  {
    accs' := accs;
    assert past + os[..0] == past;
    for j := 0 to |os|
      invariant accs' == TouchAll(map[], before + RestoresOf(past + os[..j], snap))
    {
      var o := os[j];
      RestoresSnoc(past, os, j, snap, before);
      if o.id == snap.objectiveId && o.gen == snap.objectiveGen {
        var acc := RestoreAccumulator(Opened(Slot(accs', o.id), o), snap);
        RestoreSnoc(before + RestoresOf(past + os[..j], snap), accs', o, snap, acc);
        accs' := accs'[o.id := acc];
      }
    }
    assert os[..|os|] == os;
  }

  method RestoreAccumulator(acc: Accumulator, snap: ObjectiveSnapshot) returns (acc': Accumulator)
    ensures acc' == RestoredFrom(acc, snap)
  {
    acc' := acc;
    if snap.budgetTotal != 0 {
      var budget := new ErrorBudget(snap.budgetTotal, snap.budgetWindow);
      budget.SetWindowStart(snap.budgetWindowStart);
      var _ := budget.ConsumeCount(snap.budgetConsumed);
      acc' := acc'.(budget := Some(budget.Value()));
    }
    acc' := acc'.(lastState := RevalidationRequired, lastStateTime := snap.lastStateTime, cooldownUntil := snap.cooldownUntil);
  }

  lemma RestoreSnoc(ts: seq<Touch>, accs: map<U64, Accumulator>, o: Objective, snap: ObjectiveSnapshot, acc: Accumulator)
    requires accs == TouchAll(map[], ts) && acc == RestoredFrom(Opened(Slot(accs, o.id), o), snap)
    ensures TouchAll(map[], ts + [Touch(o.id, Restore(o, snap))]) == accs[o.id := acc]
  {
    TouchSnoc(map[], ts, Touch(o.id, Restore(o, snap)));
  }

  lemma RestoresSnoc(past: seq<Objective>, os: seq<Objective>, j: nat, snap: ObjectiveSnapshot, before: seq<Touch>)
    requires j < |os|
    ensures before + RestoresOf(past + os[..j + 1], snap)
         == if os[j].id == snap.objectiveId && os[j].gen == snap.objectiveGen
            then before + RestoresOf(past + os[..j], snap) + [Touch(os[j].id, Restore(os[j], snap))]
            else before + RestoresOf(past + os[..j], snap)
  {
    var longer := past + os[..j + 1];
    assert longer[..|longer| - 1] == past + os[..j];
  }

  lemma SnapshotSnoc(accs: map<U64, Accumulator>, order: seq<U64>, k: U64)
    requires k in accs && forall i {:trigger order[i]} :: 0 <= i < |order| ==> order[i] in accs
    ensures forall i {:trigger (order + [k])[i]} :: 0 <= i < |order| + 1 ==> (order + [k])[i] in accs
    ensures Snapshots(accs, order + [k]) == Snapshots(accs, order) + [SnapshotOf(k, accs[k])]
  {
    assert (order + [k])[..|order|] == order;
  }

  // ----- The object -----

  class Fabric {
    var epoch: U64
    var policies: Table<Policy>
    var contracts: Table<Contract>
    var accs: map<U64, Accumulator>
    var receipts: seq<Receipt>
    var evaluations: seq<EvaluationRecord>
    var ring: seq<U64>
    var known: set<U64>
    var evaluationCount: U64
    var enforcementCount: U64

    function Value(): State
      reads this
    {
      State(epoch, policies, contracts, accs, receipts, evaluations, ring, known, evaluationCount, enforcementCount)
    }

    constructor ()
      ensures Value() == Initial
    {
      epoch, policies, contracts, accs := 1, [], [], map[];
      receipts, evaluations, ring, known := [], [], [], {};
      evaluationCount, enforcementCount := 0, 0;
    }

    method SetPolicy(p: Policy) returns (response: Response)
      modifies this
      ensures (Value(), response) == DoSetPolicy(old(Value()), p)
    {
      var before := Find(policies, p.id);
      if before.Some? && before.value.gen >= p.gen {
        return Answer(PolicySuperseded);
      }
      policies := Put(policies, p.id, p);
      response := Answer(Ok);
    }

    method SupersedeContract(c: Contract) returns (response: Response)
      modifies this
      ensures (Value(), response) == DoSupersede(old(Value()), c)
    {
      var before := Find(contracts, c.id);
      if before.Some? && before.value.gen >= c.gen {
        return Answer(InvalidInput);
      }
      contracts := Put(contracts, c.id, c);
      response := Answer(Ok);
    }

    method AddContract(c: Contract) returns (response: Response)
      modifies this
      ensures (Value(), response) == DoAddContract(old(Value()), c)
    {
      if c.objectives == [] {
        return Answer(ObjectiveInvalid);
      }
      var i := 0;
      while i < |c.objectives|
        invariant i <= |c.objectives| && ObjectivesStatus(c.objectives) == ObjectivesStatus(c.objectives[i..])
        invariant Value() == old(Value())
      {
        var o := c.objectives[i];
        if o.id == 0 || o.gen == 0 {
          return Answer(ObjectiveInvalid);
        }
        if !o.TargetUnitMatches() {
          return Answer(UnitMismatch);
        }
        i := i + 1;
      }
      response := SupersedeContract(c);
    }

    /** Activating, suspending, expiring and retiring. */
    method AmendContract(id: U64, op: Op) returns (response: Response)
      modifies this
      ensures (Value(), response) == DoAmend(old(Value()), id, op)
    {
      var c := Find(contracts, id);
      if c.None? {
        return Answer(NotFound);
      }
      contracts := Put(contracts, id, Amended(c.value, op));
      response := Answer(Ok);
    }

    method NoteEvidence(id: U64) returns (status: Status)
      modifies this`ring, this`known
      ensures status == NoteStatus(old(Value()), id)
      ensures Value() == if status == Ok then Noted(old(Value()), id) else old(Value())
    {
      if id == 0 {
        return InvalidInput;
      }
      if id in known {
        return Status.Cancelled;
      }
      if |ring| >= RING_CAPACITY {
        known := known - {ring[0]};
        ring := ring[1..];
      }
      ring := ring + [id];
      known := known + {id};
      status := Ok;
    }

    method IngestEvidence(e: Evidence) returns (response: Response)
      modifies this
      ensures (Value(), response) == DoIngest(old(Value()), e)
    {
      var noted := NoteEvidence(e.id);
      if noted != Ok {
        return Answer(noted);
      }
      if e.epoch != 0 && e.epoch != epoch {
        return Answer(StaleAuthority);
      }
      var def := FindDefinition(contracts, e.objectiveId);
      if def.None? {
        return Answer(ObjectiveInvalid);
      }
      if e.objectiveGen != 0 && e.objectiveGen != def.value.gen {
        return Answer(StaleAuthority);
      }
      TouchOne(accs, Touch(e.objectiveId, Take(def.value, e)));
      var acc, status := TakeIn(Opened(Slot(accs, e.objectiveId), def.value), def.value, e);
      accs := accs[e.objectiveId := acc];
      response := Answer(status);
    }

    method RecordRecoveryEvent(id: U64, phase: Phase, time: I64) returns (response: Response)
      modifies this
      ensures (Value(), response) == DoRecovery(old(Value()), id, phase, time)
    {
      var def := FindDefinition(contracts, id);
      if def.None? {
        return Answer(ObjectiveInvalid);
      }
      TouchOne(accs, Touch(id, Update.Reach(def.value, phase, time)));
      var acc := Opened(Slot(accs, id), def.value);
      accs := accs[id := acc.(recovery := acc.recovery.Reach(phase, time))];
      response := Answer(Ok);
    }

    method IngestViolationEvent(id: U64) returns (response: Response)
      modifies this
      ensures (Value(), response) == DoViolation(old(Value()), id)
    {
      ghost var start := accs;
      var found := false;
      var cs := contracts;
      for i := 0 to |cs|
        invariant Value() == old(Value()).(accs := TouchAll(start, Lookups(cs[..i], id)))
        invariant found == (Lookups(cs[..i], id) != [])
        invariant found ==> id in accs
      {
        assert cs[..i + 1][..i] == cs[..i];
        var o := FindFirst(cs[i].value.objectives, id);
        if o.Some? {
          TouchSnoc(start, Lookups(cs[..i], id), Touch(id, Open(o.value)));
          accs := accs[id := Opened(Slot(accs, id), o.value)];
          found := true;
        }
      }
      assert cs[..|cs|] == cs;
      if !found {
        return Answer(ObjectiveInvalid);
      }
      TouchSnoc(start, Lookups(cs, id), Touch(id, Charge));
      var acc := accs[id];
      if acc.budget.None? {
        assert accs[id := acc] == accs;
        return Answer(InvalidInput);
      }
      var budget := new ErrorBudget.Holding(acc.budget.value);
      var _ := budget.Consume();
      accs := accs[id := acc.(budget := Some(budget.Value()))];
      response := Answer(Ok);
    }

    method SetObjectiveBudget(id: U64, total: I64, window: I64) returns (response: Response)
      modifies this
      ensures (Value(), response) == DoSetBudget(old(Value()), id, total, window)
    {
      var def := FindDefinition(contracts, id);
      if def.None? {
        return Answer(ObjectiveInvalid);
      }
      TouchOne(accs, Touch(id, Grant(def.value, total, window)));
      ghost var start := accs;
      var acc := Opened(Slot(accs, id), def.value);
      accs := accs[id := acc];
      if total < 0 {
        return Answer(InvalidInput);
      }
      var budget := new ErrorBudget(total, window);
      accs := accs[id := acc.(budget := Some(budget.Value()))];
      assert accs == start[id := acc.(budget := Some(NewBudget(total, window)))];
      response := Answer(Ok);
    }

    method Evaluate(op: Op) returns (response: Response)
      requires op.Evaluate? && Legal(Value(), op)
      modifies this
      ensures (Value(), response) == DoEvaluate(old(Value()), op)
    {
      var scoped := FindScoped(contracts, op.service, op.workload, op.now);
      if scoped.None? {
        return Answer(ContractInactive);
      }
      var c := scoped.value;
      var policy := Find(policies, c.policyId);
      if policy.None? || policy.value.gen != c.policyGen {
        return Answer(PolicySuperseded);
      }
      response := EvaluateContract(op, c, policy.value);
    }

    method EvaluateContract(op: Op, c: Contract, p: Policy) returns (response: Response)
      requires op.Evaluate? && Legal(Value(), op) && Scoped(contracts, op.service, op.workload, op.now) == Some(c)
      requires PolicyFor(Value(), c) == Some(p)
      modifies this
      ensures (Value(), response) == DoEvaluate(old(Value()), op)
    {
      var judged, js := JudgeObjectives(accs, c.objectives, op.now);
      accs := judged;
      var ev := Conclude(Value(), c, p, js, op);
      Record(RecordOf(Value(), c, ev, op));
      response := Evaluated(ev);
    }

    method Record(r: EvaluationRecord)
      modifies this
      ensures Value() == Recorded(old(Value()), r)
    {
      evaluationCount := Successor(evaluationCount);
      if |evaluations| >= HISTORY_CAPACITY {
        evaluations := evaluations[1..];
      }
      evaluations := evaluations + [r];
    }

    method CheckIntent(i: Intent, now: I64) returns (status: Status)
      ensures status == AuthorizeStatus(Value(), i, now)
    {
      if i.epoch != epoch {
        return StaleAuthority;
      }
      if i.action.NoAction? {
        return InvalidInput;
      }
      var c := FindTarget(contracts, i.objectiveId, i.service);
      if c.None? {
        return ContractInactive;
      }
      if c.value.gen != i.contractGen {
        return StaleAuthority;
      }
      if !c.value.CanAuthorize(now) {
        return ContractInactive;
      }
      var p := Find(policies, c.value.policyId);
      if p.None? || p.value.gen != i.policyGen {
        return PolicySuperseded;
      }
      status := Ok;
    }

    method Authorize(i: Intent, now: I64) returns (response: Response)
      modifies this
      ensures (Value(), response) == DoAuthorize(old(Value()), i, now)
    {
      var status := CheckIntent(i, now);
      if status != Ok {
        return Answer(status);
      }
      enforcementCount := Successor(enforcementCount);
      var receipt := ReceiptOf(enforcementCount, i);
      TouchOne(accs, Touch(i.objectiveId, Cool(Wrapped(now + i.cooldown))));
      if i.objectiveId in accs {
        accs := accs[i.objectiveId := accs[i.objectiveId].(cooldownUntil := Wrapped(now + i.cooldown))];
      } else {
        assert accs - {i.objectiveId} == accs;
      }
      if |receipts| >= HISTORY_CAPACITY {
        receipts := receipts[1..];
      }
      receipts := receipts + [receipt];
      response := Receipted(receipt);
    }

    /** Saving reads the accumulators in some order, which `order` tells, and changes nothing. */
    method Save() returns (order: seq<U64>, st: DurableState)
      ensures Enumerates(order, accs) && st == Saved(Value(), order)
    {
      order := [];
      var snaps := [];
      var left := accs.Keys;
      while left != {}
        invariant left <= accs.Keys && NoRepeats(order)
        invariant forall k {:trigger k in accs} :: k in accs ==> (k in left) != (k in order)
        invariant forall i {:trigger order[i]} :: 0 <= i < |order| ==> order[i] in accs
        invariant snaps == Snapshots(accs, order)
        decreases left
      {
        var k :| k in left;
        ElementsSnoc(order, k);
        SnapshotSnoc(accs, order, k);
        snaps := snaps + [SnapshotOf(k, accs[k])];
        order := order + [k];
        left := left - {k};
      }
      st := DurableState(epoch, ValuesOf(policies), ValuesOf(contracts), snaps, receipts, evaluations);
    }

    method Load(st: DurableState) returns (response: Response)
      modifies this
      ensures (Value(), response) == DoLoad(old(Value()), st)
    {
      var ps := FilePolicies(st.policies);
      var cs := FileContracts(st.contracts);
      var restored := RestoreAll(cs, st.snapshots);
      epoch := Successor(st.epoch);
      policies := ps;
      contracts := cs;
      accs := restored;
      receipts := st.receipts;
      evaluations := st.evaluations;
      response := Answer(Ok);
    }
  }
}
