/** Saving, loading, and what a restarted fabric knows. */
module Restart {
  import opened Types
  import opened Budgets
  import opened Binding
  import opened Accumulators
  import opened Lives
  import opened Tables
  import opened Engine
  import opened Runs
  import opened Fencing
  import opened Intents
  import Binary
  import Codec
  import CodecProofs
  import Persistence
  import Crc32

  // ----- Tables survive -----

  predicate PoliciesIndexed(t: Table<Policy>) {
    Ascending(t) && forall i {:trigger t[i]} :: 0 <= i < |t| ==> t[i].value.id == t[i].id
  }

  lemma PolicyPut(t: Table<Policy>, p: Policy)
    requires PoliciesIndexed(t)
    ensures PoliciesIndexed(Put(t, p.id, p))
  {
    PutAscends(t, p.id, p);
    PutMembers(t, p.id, p);
    var t' := Put(t, p.id, p);
    forall i | 0 <= i < |t'| ensures t'[i].value.id == t'[i].id {
      assert t'[i] in t';
    }
  }

  lemma {:induction false} LoadedPoliciesIndexed(ps: seq<Policy>)
    ensures PoliciesIndexed(PolicyTable(ps))
  {
    if ps != [] {
      LoadedPoliciesIndexed(ps[..|ps| - 1]);
      PolicyPut(PolicyTable(ps[..|ps| - 1]), ps[|ps| - 1]);
    }
  }

  /** In every state that a run reaches, tables are in order and filed under their own ids. */
  lemma {:induction false} IndexedAlways(ops: seq<Op>)
    requires LegalRun(Initial, ops)
    ensures ContractsIndexed(Run(Initial, ops).contracts) && PoliciesIndexed(Run(Initial, ops).policies)
  {
    if ops != [] {
      var past, op := ops[..|ops| - 1], ops[|ops| - 1];
      IndexedAlways(past);
      var s := Run(Initial, past);
      StepContracts(s, op);
      StepPolicies(s, op);
      IndexedAfter(s, op);
      if op.SetPolicy? {
        PolicyPut(s.policies, op.policy);
      } else if op.Load? {
        LoadedPoliciesIndexed(op.durable.policies);
      }
    }
  }

  lemma {:induction false} PutLast<T(!new)>(t: Table<T>, id: U64, v: T)
    requires forall i {:trigger t[i]} :: 0 <= i < |t| ==> t[i].id < id
    ensures Put(t, id, v) == t + [Entry(id, v)]
  {
    if t != [] {
      var rest := t[1..];
      assert forall i :: 0 <= i < |rest| ==> rest[i] == t[i + 1];
      PutLast(rest, id, v);
    }
  }

  lemma FrontAscends<T(!new)>(t: Table<T>)
    requires Ascending(t) && t != []
    ensures Ascending(t[..|t| - 1])
    ensures forall i {:trigger t[i]} :: 0 <= i < |t| - 1 ==> t[i].id < t[|t| - 1].id
  {
    var past := t[..|t| - 1];
    assert forall i :: 0 <= i < |past| ==> past[i] == t[i];
  }

  lemma FrontValues<T>(t: Table<T>)
    requires t != []
    ensures ValuesOf(t)[..|t| - 1] == ValuesOf(t[..|t| - 1])
  {}

  lemma PutFront<T(!new)>(t: Table<T>)
    requires Ascending(t) && t != []
    ensures Put(t[..|t| - 1], t[|t| - 1].id, t[|t| - 1].value) == t
  {
    FrontAscends(t);
    PutLast(t[..|t| - 1], t[|t| - 1].id, t[|t| - 1].value);
  }

  lemma {:induction false} ContractsSurvive(t: Table<Contract>)
    requires ContractsIndexed(t)
    ensures ContractTable(ValuesOf(t)) == t
  {
    if t != [] {
      FrontAscends(t);
      ContractsSurvive(t[..|t| - 1]);
      FrontValues(t);
      PutFront(t);
    }
  }

  lemma {:induction false} PoliciesSurvive(t: Table<Policy>)
    requires PoliciesIndexed(t)
    ensures PolicyTable(ValuesOf(t)) == t
  {
    if t != [] {
      FrontAscends(t);
      PoliciesSurvive(t[..|t| - 1]);
      FrontValues(t);
      PutFront(t);
    }
  }

  // ----- One accumulator through save and load -----

  /** The first definition of an id at a generation. */
  function Matching(os: seq<Objective>, id: U64, gen: U64): Option<Objective> {
    if os == [] then None
    else
      var past, o := Matching(os[..|os| - 1], id, gen), os[|os| - 1];
      if past.None? && o.id == id && o.gen == gen then Some(o) else past
  }

  /** The matching definition is the first with the id and the generation, if there is one. */
  lemma {:induction false} MatchingFits(os: seq<Objective>, id: U64, gen: U64)
    ensures var o := Matching(os, id, gen);
      && (o.Some? ==> o.value in os && o.value.id == id && o.value.gen == gen)
      && (o.None? ==> forall i {:trigger os[i]} :: 0 <= i < |os| ==> !(os[i].id == id && os[i].gen == gen))
  {
    if os != [] {
      var past := os[..|os| - 1];
      MatchingFits(past, id, gen);
      assert forall i :: 0 <= i < |past| ==> past[i] == os[i];
    }
  }

  lemma RestoredTwice(acc: Accumulator, snap: ObjectiveSnapshot)
    ensures RestoredFrom(RestoredFrom(acc, snap), snap) == RestoredFrom(acc, snap)
  {}

  lemma LifeSnoc(slot: Option<Accumulator>, us: seq<Update>, u: Update)
    ensures Life(slot, us + [u]) == Apply(Life(slot, us), u)
  {
    assert (us + [u])[..|us|] == us;
  }

  /** Restoring one snapshot by every definition it fits restores it once, by the first. */
  lemma {:induction false} RestoredOnce(os: seq<Objective>, snap: ObjectiveSnapshot)
    ensures var o := Matching(os, snap.objectiveId, snap.objectiveGen);
      Life(None, Of(RestoresOf(os, snap), snap.objectiveId))
      == if o.Some? then Some(RestoredFrom(Fresh(o.value, None), snap)) else None
    ensures var o := Matching(os, snap.objectiveId, snap.objectiveGen);
      o.Some? ==> o.value.id == snap.objectiveId && o.value.gen == snap.objectiveGen
  {
    if os != [] {
      var past, o := os[..|os| - 1], os[|os| - 1];
      RestoredOnce(past, snap);
      if o.id == snap.objectiveId && o.gen == snap.objectiveGen {
        var ts := RestoresOf(past, snap);
        OfSnoc(ts, Touch(o.id, Restore(o, snap)), o.id);
        LifeSnoc(None, Of(ts, o.id), Restore(o, snap));
        RestoredAgain(Matching(past, o.id, o.gen), o, snap);
      }
    }
  }

  lemma RestoredAgain(first: Option<Objective>, o: Objective, snap: ObjectiveSnapshot)
    requires first.Some? ==> first.value.gen == o.gen
    ensures Apply(if first.Some? then Some(RestoredFrom(Fresh(first.value, None), snap)) else None, Restore(o, snap))
         == Some(RestoredFrom(Fresh(if first.Some? then first.value else o, None), snap))
  {
    if first.Some? {
      RestoredTwice(Fresh(first.value, None), snap);
    }
  }

  lemma {:induction false} RestoresElsewhere(os: seq<Objective>, snap: ObjectiveSnapshot, id: U64)
    requires snap.objectiveId != id
    ensures Of(RestoresOf(os, snap), id) == []
  {
    if os != [] {
      var past, o := os[..|os| - 1], os[|os| - 1];
      RestoresElsewhere(past, snap, id);
      OfSnoc(RestoresOf(past, snap), Touch(o.id, Restore(o, snap)), id);
    }
  }

  lemma {:induction false} RestoresAt(os: seq<Objective>, accs: map<U64, Accumulator>, order: seq<U64>, id: U64)
    requires NoRepeats(order) && forall i {:trigger order[i]} :: 0 <= i < |order| ==> order[i] in accs
    ensures Of(Restores(os, Snapshots(accs, order)), id)
         == if id in order then Of(RestoresOf(os, SnapshotOf(id, accs[id])), id) else []
  {
    if order != [] {
      var past, last := order[..|order| - 1], order[|order| - 1];
      FrontOfOrder(order, past, last);
      RestoresAt(os, accs, past, id);
      var snaps, snap := Snapshots(accs, past), SnapshotOf(last, accs[last]);
      RestoresGrow(os, snaps, snap, id);
    }
  }

  lemma FrontOfOrder(order: seq<U64>, past: seq<U64>, last: U64)
    requires order == past + [last] && NoRepeats(order)
    ensures NoRepeats(past) && last !in past
    ensures forall k {:trigger k in order} :: k in order <==> k in past || k == last
  {
    assert order[..|order| - 1] == past;
  }

  lemma RestoresGrow(os: seq<Objective>, snaps: seq<ObjectiveSnapshot>, snap: ObjectiveSnapshot, id: U64)
    ensures Of(Restores(os, snaps + [snap]), id) == Of(Restores(os, snaps), id) + Of(RestoresOf(os, snap), id)
    ensures snap.objectiveId != id ==> Of(RestoresOf(os, snap), id) == []
  {
    assert (snaps + [snap])[..|snaps|] == snaps;
    OfConcat(Restores(os, snaps), RestoresOf(os, snap), id);
    if snap.objectiveId != id {
      RestoresElsewhere(os, snap, id);
    }
  }

  /** What load makes of an accumulator that save wrote: nothing, unless a contract still has the
      objective at the saved generation; and then an empty one with the saved budget and cooldown. */
  lemma LoadedSlot(s: State, order: seq<U64>, t: State, id: U64)
    requires Enumerates(order, s.accs) && ContractsIndexed(s.contracts)
    ensures var s' := DoLoad(t, Saved(s, order)).0;
      Slot(s'.accs, id) ==
        if id in s.accs then
          var o := Matching(Objectives(s.contracts), id, s.accs[id].def.gen);
          if o.Some? then Some(RestoredFrom(Fresh(o.value, None), SnapshotOf(id, s.accs[id]))) else None
        else None
  {
    ContractsSurvive(s.contracts);
    RestoredSlot(Objectives(s.contracts), s.accs, order, id);
  }

  lemma RestoredSlot(os: seq<Objective>, accs: map<U64, Accumulator>, order: seq<U64>, id: U64)
    requires Enumerates(order, accs)
    ensures Slot(TouchAll(map[], Restores(os, Snapshots(accs, order))), id) ==
      if id in accs then
        var o := Matching(os, id, accs[id].def.gen);
        if o.Some? then Some(RestoredFrom(Fresh(o.value, None), SnapshotOf(id, accs[id]))) else None
      else None
  {
    TouchAllAt(map[], Restores(os, Snapshots(accs, order)), id);
    RestoresAt(os, accs, order, id);
    if id in accs {
      RestoredOnce(os, SnapshotOf(id, accs[id]));
    }
  }

  lemma RestoredBudget(acc: Accumulator, o: Objective, id: U64)
    requires BudgetSound(acc.budget)
    ensures var acc' := RestoredFrom(Fresh(o, None), SnapshotOf(id, acc));
      && acc'.budget == (if acc.budget.Some? && acc.budget.value.total != 0 then acc.budget else None)
      && acc'.cooldownUntil == acc.cooldownUntil && acc'.lastState == RevalidationRequired && acc'.def == o
  {}

  /** Restart: from any state that a run reaches, save then load keeps the epoch order, every policy
      and contract, and, for each accumulator whose generation a contract still has, its cooldown and
      its budget, unless the budget's total is zero. */
  lemma RestartKeeps(ops: seq<Op>, order: seq<U64>, t: State, id: U64)
    requires LegalRun(Initial, ops) && Enumerates(order, Run(Initial, ops).accs)
    ensures var s := Run(Initial, ops);
      var s' := DoLoad(t, Saved(s, order)).0;
      && s'.epoch == Successor(s.epoch) && s'.policies == s.policies && s'.contracts == s.contracts
      && s'.receipts == s.receipts && s'.evaluations == s.evaluations
      && (id in s.accs && Matching(Objectives(s.contracts), id, s.accs[id].def.gen).Some? ==>
            && id in s'.accs && s'.accs[id].cooldownUntil == s.accs[id].cooldownUntil
            && s'.accs[id].budget
               == if s.accs[id].budget.Some? && s.accs[id].budget.value.total != 0 then s.accs[id].budget else None)
  {
    var s := Run(Initial, ops);
    IndexedAlways(ops);
    ContractsSurvive(s.contracts);
    PoliciesSurvive(s.policies);
    LoadedSlot(s, order, t, id);
    BudgetsSoundAlways(ops, id);
    if id in s.accs {
      var o := Matching(Objectives(s.contracts), id, s.accs[id].def.gen);
      if o.Some? {
        RestoredBudget(s.accs[id], o.value, id);
      }
    }
  }

  /** What save writes of an accumulator: its budget as total, count, window and start, or zeros without one,
      and its last state, the time of that and its cooldown. */
  lemma SavedSnapshot(s: State, order: seq<U64>, i: nat)
    requires Enumerates(order, s.accs) && i < |order|
    ensures |Saved(s, order).snapshots| == |order|
    ensures var snap, acc := Saved(s, order).snapshots[i], s.accs[order[i]];
      var b := if acc.budget.Some? then acc.budget.value else Budget(0, 0, 0, 0);
      && snap.objectiveId == order[i] && snap.objectiveGen == acc.def.gen
      && snap.budgetTotal == b.total && snap.budgetConsumed == b.consumed
      && snap.budgetWindow == b.window && snap.budgetWindowStart == b.start
      && snap.lastState == acc.lastState && snap.lastStateTime == acc.lastStateTime
      && snap.cooldownUntil == acc.cooldownUntil
  {}

  /** A restarted accumulator starts without any evidence, and has to be revalidated since the time of its last
      state. */
  lemma RestartedEmpty(s: State, order: seq<U64>, t: State, id: U64)
    requires Enumerates(order, s.accs) && ContractsIndexed(s.contracts) && id in DoLoad(t, Saved(s, order)).0.accs
    ensures id in s.accs
    ensures var acc := DoLoad(t, Saved(s, order)).0.accs[id];
      && acc.def.id == id && acc.def.gen == s.accs[id].def.gen
      && acc.window.samples == [] && acc.cost == [] && acc.recent == [] && acc.recentSet == {}
      && acc.account == Account(acc.def.availabilityMode, 0, 0, 0, 0) && !acc.recovery.authoritative
      && acc.lastState == RevalidationRequired && acc.lastStateTime == s.accs[id].lastStateTime
  {
    LoadedSlot(s, order, t, id);
    MatchingFits(Objectives(s.contracts), id, s.accs[id].def.gen);
  }

  lemma BudgetsSoundAlways(ops: seq<Op>, id: U64)
    requires LegalRun(Initial, ops)
    ensures BudgetSound(BudgetOf(Slot(Run(Initial, ops).accs, id)))
  {
    LifeBudgetSound(None, RunUpdates(Initial, ops, id));
    RunIsLife(Initial, ops, id);
  }

  // ----- No verdict without fresh evidence -----

  /** Definitions of objective `id` are none of them for recovery time. */
  ghost function NotRecovery(id: U64): Objective -> bool {
    (o: Objective) => o.id == id ==> !o.dim.RecoveryTime?
  }

  /** No evidence for the objective that the run sends is answered Ok. Records that are refused do not
      matter. */
  ghost predicate NoEvidenceFor(s: State, ops: seq<Op>, id: U64)
    requires LegalRun(s, ops)
  {
    ops == []
    || (var past, op := ops[..|ops| - 1], ops[|ops| - 1];
        NoEvidenceFor(s, past, id)
        && (op.IngestEvidence? && op.e.objectiveId == id ==> DoIngest(Run(s, past), op.e).1 != Answer(Ok)))
  }

  /** No evidence that the run sends is answered Ok. */
  ghost predicate NoEvidence(s: State, ops: seq<Op>)
    requires LegalRun(s, ops)
  {
    ops == []
    || (var past, op := ops[..|ops| - 1], ops[|ops| - 1];
        NoEvidence(s, past) && (op.IngestEvidence? ==> DoIngest(Run(s, past), op.e).1 != Answer(Ok)))
  }

  lemma {:induction false} NoEvidenceForAny(s: State, ops: seq<Op>, id: U64)
    requires LegalRun(s, ops) && NoEvidence(s, ops)
    ensures NoEvidenceFor(s, ops, id)
  {
    if ops != [] {
      NoEvidenceForAny(s, ops[..|ops| - 1], id);
    }
  }

  lemma RefusedAddsNothing(acc: Accumulator, o: Objective, e: Evidence)
    requires Bare(acc) && Absorb(acc, o, e).1 != Ok
    ensures Bare(Absorb(acc, o, e).0)
  {}

  lemma RefusedStaysBare(s: State, e: Evidence)
    requires BareSlot(Slot(s.accs, e.objectiveId)) && DoIngest(s, e).1 != Answer(Ok)
    ensures BareSlot(Slot(DoIngest(s, e).0.accs, e.objectiveId))
  {
    if NoteStatus(s, e.id) == Ok && FenceStatus(s, e) == Ok {
      var id, def := e.objectiveId, Definition(s.contracts, e.objectiveId).value;
      var t := Touch(id, Take(def, e));
      TouchAllAt(s.accs, [t], id);
      OfOne(t, id);
      LifeSnoc(Slot(s.accs, id), [], t.update);
      assert [] + [t.update] == [t.update];
      RefusedAddsNothing(Opened(Slot(s.accs, id), def), def, e);
    }
  }

  lemma BareStep(s: State, op: Op, id: U64)
    requires Legal(s, op) && BareSlot(Slot(s.accs, id))
    requires op.IngestEvidence? && op.e.objectiveId == id ==> DoIngest(s, op.e).1 != Answer(Ok)
    ensures BareSlot(Slot(Step(s, op).0.accs, id))
  {
    if op.IngestEvidence? && op.e.objectiveId == id {
      RefusedStaysBare(s, op.e);
    } else {
      UpdatesCaused(s, op, id, Any());
      var us := Updates(s, op, id);
      forall i | 0 <= i < |us| ensures !us[i].Take? {
        assert Caused(us[i], op, id, Any());
      }
      StaysBare(Slot(s.accs, id), us);
      StepUpdates(s, op, id);
    }
  }

  lemma BareWhenLoaded(t: State, d: DurableState, id: U64)
    ensures BareSlot(Slot(DoLoad(t, d).0.accs, id))
  {
    var os := Objectives(ContractTable(d.contracts));
    var ts := Restores(os, d.snapshots);
    assert EveryIn(os, Any());
    RestoresFit(os, d.snapshots, id, Load(d), Any());
    TouchAllAt(map[], ts, id);
    var us := Of(ts, id);
    forall i | 0 <= i < |us| ensures !us[i].Take? {
      assert Caused(us[i], Load(d), id, Any());
    }
    StaysBare(None, us);
  }

  lemma NeedyWhenLoaded(t: State, d: DurableState, id: U64)
    requires Every(ContractTable(d.contracts), NotRecovery(id))
    ensures NeedsEvidence(Slot(DoLoad(t, d).0.accs, id)) && Every(DoLoad(t, d).0.contracts, NotRecovery(id))
  {
    var os := Objectives(ContractTable(d.contracts));
    var ts := Restores(os, d.snapshots);
    EveryFlat(ContractTable(d.contracts), NotRecovery(id));
    RestoresFit(os, d.snapshots, id, Load(d), NotRecovery(id));
    TouchAllAt(map[], ts, id);
    var us := Of(ts, id);
    forall i | 0 <= i < |us| && us[i].Opens() ensures !us[i].o.dim.RecoveryTime? {
      assert Caused(us[i], Load(d), id, NotRecovery(id));
    }
    StaysNeedy(None, us);
  }

  lemma {:induction false} BareOverRun(s: State, ops: seq<Op>, id: U64)
    requires LegalRun(s, ops) && NoEvidenceFor(s, ops, id) && BareSlot(Slot(s.accs, id))
    ensures BareSlot(Slot(Run(s, ops).accs, id))
  {
    if ops != [] {
      BareOverRun(s, ops[..|ops| - 1], id);
      BareStep(Run(s, ops[..|ops| - 1]), ops[|ops| - 1], id);
    }
  }

  lemma NeedyOverRun(s: State, ops: seq<Op>, id: U64)
    requires LegalRun(s, ops) && NeedsEvidence(Slot(s.accs, id))
    requires Every(s.contracts, NotRecovery(id)) && AllBring(s, ops, NotRecovery(id))
    ensures NeedsEvidence(Slot(Run(s, ops).accs, id)) && Every(Run(s, ops).contracts, NotRecovery(id))
  {
    EveryRun(s, ops, NotRecovery(id));
    RunUpdatesCaused(s, ops, id, NotRecovery(id));
    var us := RunUpdates(s, ops, id);
    forall i | 0 <= i < |us| && us[i].Opens() ensures !us[i].o.dim.RecoveryTime? {
      assert CausedBySome(us[i], ops, id, NotRecovery(id));
    }
    StaysNeedy(Slot(s.accs, id), us);
    RunIsLife(s, ops, id);
  }

  lemma JudgedBare(accs: map<U64, Accumulator>, os: seq<Objective>, now: I64, k: nat)
    requires k < |os| && BareSlot(Slot(accs, os[k].id))
    ensures Bare(JudgedAt(accs, os, now, k))
  {
    var id, ts := os[k].id, Assessments(os[..k], now);
    TouchAllAt(accs, ts, id);
    AssessmentsFit(os[..k], now, id, Evaluate(0, 0, now, Notes([], 0)), Any());
    var us := Of(ts, id);
    forall i | 0 <= i < |us| ensures !us[i].Take? {
      assert Caused(us[i], Evaluate(0, 0, now, Notes([], 0)), id, Any());
    }
    StaysBare(Slot(accs, id), us);
  }

  lemma JudgedNeedy(accs: map<U64, Accumulator>, os: seq<Objective>, now: I64, k: nat)
    requires k < |os| && NeedsEvidence(Slot(accs, os[k].id)) && EveryIn(os, NotRecovery(os[k].id))
    ensures !JudgedAt(accs, os, now, k).def.dim.RecoveryTime?
  {
    var id, ts := os[k].id, Assessments(os[..k], now);
    TouchAllAt(accs, ts, id);
    AssessmentsFit(os[..k], now, id, Evaluate(0, 0, now, Notes([], 0)), NotRecovery(id));
    var us := Of(ts, id);
    forall i | 0 <= i < |us| && us[i].Opens() ensures !us[i].o.dim.RecoveryTime? {
      assert Caused(us[i], Evaluate(0, 0, now, Notes([], 0)), id, NotRecovery(id));
    }
    StaysNeedy(Slot(accs, id), us);
  }

  lemma UndecidedVerdict(js: seq<Judgement>, k: nat)
    requires k < |js| && js[k].state.InsufficientEvidence?
    ensures Decide(js) == Verdict(if AnyState(js, RevalidationRequired) then RevalidationRequired else InsufficientEvidence, None)
  {}

  lemma InsufficientAt(accs: map<U64, Accumulator>, os: seq<Objective>, now: I64, k: nat)
    requires k < |os| && BareSlot(Slot(accs, os[k].id))
    requires NeedsEvidence(Slot(accs, os[k].id)) && EveryIn(os, NotRecovery(os[k].id))
    ensures JudgeAll(accs, os, now)[k].state.InsufficientEvidence?
  {
    JudgedBare(accs, os, now, k);
    JudgedNeedy(accs, os, now, k);
    JudgeAllAt(accs, os, now, k);
    BareIsUnusable(JudgedAt(accs, os, now, k), now);
  }

  /** After a load of whatever file, and any run in which no evidence for an objective that is not about
      recovery time is answered Ok, every evaluation of a contract with that objective reaches no verdict
      and asks for nothing. It says that revalidation is required exactly when some other objective's
      evidence is stale, and otherwise that evidence is insufficient. */
  lemma UndecidedAfterLoad(t: State, d: DurableState, ops: seq<Op>, op: Op, k: nat)
    requires LegalRun(DoLoad(t, d).0, ops) && op.Evaluate?
    requires var s := Run(DoLoad(t, d).0, ops);
      && Legal(s, op) && Chosen(s, op).Some? && k < |Chosen(s, op).value.objectives|
      && var id := Chosen(s, op).value.objectives[k].id;
         && Every(ContractTable(d.contracts), NotRecovery(id)) && AllBring(DoLoad(t, d).0, ops, NotRecovery(id))
         && NoEvidenceFor(DoLoad(t, d).0, ops, id)
    ensures var s := Run(DoLoad(t, d).0, ops);
      && Step(s, op).1.Evaluated? && Step(s, op).1.evaluation.intent.action.NoAction?
      && Step(s, op).1.evaluation.compliance
         == if AnyState(Step(s, op).1.evaluation.judgements, RevalidationRequired)
            then RevalidationRequired else InsufficientEvidence
  {
    var s0 := DoLoad(t, d).0;
    var s := Run(s0, ops);
    var os := Chosen(s, op).value.objectives;
    UndecidedSlot(t, d, ops, os[k].id);
    ScopedIsEntry(s.contracts, op.service, op.workload, op.now);
    InsufficientAt(s.accs, os, op.now, k);
    UndecidedVerdict(JudgeAll(s.accs, os, op.now), k);
    EvaluatesChosen(s, op);
    EvaluationParts(s, op);
  }

  lemma UndecidedSlot(t: State, d: DurableState, ops: seq<Op>, id: U64)
    requires LegalRun(DoLoad(t, d).0, ops) && NoEvidenceFor(DoLoad(t, d).0, ops, id)
    requires Every(ContractTable(d.contracts), NotRecovery(id)) && AllBring(DoLoad(t, d).0, ops, NotRecovery(id))
    ensures var s := Run(DoLoad(t, d).0, ops);
      && BareSlot(Slot(s.accs, id)) && NeedsEvidence(Slot(s.accs, id)) && Every(s.contracts, NotRecovery(id))
  {
    BareWhenLoaded(t, d, id);
    NeedyWhenLoaded(t, d, id);
    BareOverRun(DoLoad(t, d).0, ops, id);
    NeedyOverRun(DoLoad(t, d).0, ops, id);
  }

  /** With no evidence at all answered Ok since the load, nothing is stale either: the answer is that evidence is
      insufficient. */
  lemma InsufficientAfterLoad(t: State, d: DurableState, ops: seq<Op>, op: Op, k: nat)
    requires LegalRun(DoLoad(t, d).0, ops) && op.Evaluate?
    requires NoEvidence(DoLoad(t, d).0, ops)
    requires var s := Run(DoLoad(t, d).0, ops);
      && Legal(s, op) && Chosen(s, op).Some? && k < |Chosen(s, op).value.objectives|
      && var id := Chosen(s, op).value.objectives[k].id;
         Every(ContractTable(d.contracts), NotRecovery(id)) && AllBring(DoLoad(t, d).0, ops, NotRecovery(id))
    ensures var s := Run(DoLoad(t, d).0, ops);
      && Step(s, op).1.Evaluated? && Step(s, op).1.evaluation.intent.action.NoAction?
      && Step(s, op).1.evaluation.compliance == InsufficientEvidence
  {
    var s0 := DoLoad(t, d).0;
    var s := Run(s0, ops);
    var os := Chosen(s, op).value.objectives;
    NoEvidenceForAny(s0, ops, os[k].id);
    UndecidedAfterLoad(t, d, ops, op, k);
    EvaluationParts(s, op);
    forall j | 0 <= j < |os| ensures !JudgeAll(s.accs, os, op.now)[j].state.RevalidationRequired? {
      BareWhenLoaded(t, d, os[j].id);
      NoEvidenceForAny(s0, ops, os[j].id);
      BareOverRun(s0, ops, os[j].id);
      NotStaleAt(s.accs, os, op.now, j);
    }
  }

  lemma NotStaleAt(accs: map<U64, Accumulator>, os: seq<Objective>, now: I64, k: nat)
    requires k < |os| && BareSlot(Slot(accs, os[k].id))
    ensures !JudgeAll(accs, os, now)[k].state.RevalidationRequired?
  {
    var acc := JudgedAt(accs, os, now, k);
    JudgedBare(accs, os, now, k);
    JudgeAllAt(accs, os, now, k);
    BareJudgement(acc, os[k], now);
  }

  lemma BareJudgement(acc: Accumulator, o: Objective, now: I64)
    requires Bare(acc)
    ensures !JudgementOn(acc, o, now).state.RevalidationRequired?
  {
    BareIsNotStale(acc, now);
  }

  // ----- Through the file -----

  /** Loads deliver what the decoder accepts. */
  ghost predicate Decodable(ops: seq<Op>) {
    forall i {:trigger ops[i]} :: 0 <= i < |ops| && ops[i].Load? ==> Codec.GoodState(ops[i].durable)
  }

  predicate TotalSound(b: Option<Budget>) {
    b.Some? ==> b.value.total >= 0
  }

  ghost predicate RestoresTotals(us: seq<Update>) {
    forall i {:trigger us[i]} :: 0 <= i < |us| && us[i].Restore? ==> us[i].snap.budgetTotal >= 0
  }

  lemma {:induction false} LifeTotalSound(slot: Option<Accumulator>, us: seq<Update>)
    requires TotalSound(BudgetOf(slot)) && RestoresTotals(us)
    ensures TotalSound(BudgetOf(Life(slot, us)))
  {
    if us != [] {
      var past, u := us[..|us| - 1], us[|us| - 1];
      assert forall i :: 0 <= i < |past| ==> past[i] == us[i];
      LifeTotalSound(slot, past);
      assert u.Restore? ==> u.snap.budgetTotal >= 0;
      ApplyTotalSound(Life(slot, past), u);
    }
  }

  lemma ApplyTotalSound(slot: Option<Accumulator>, u: Update)
    requires TotalSound(BudgetOf(slot)) && (u.Restore? ==> u.snap.budgetTotal >= 0)
    ensures TotalSound(BudgetOf(Apply(slot, u)))
  {
    if u.Opens() {
      assert Opened(slot, u.o).budget == BudgetOf(slot);
      if u.Take? {
        AbsorbKeeps(Opened(slot, u.o), u.o, u.e);
      }
    }
  }

  lemma TotalsSoundAlways(ops: seq<Op>, id: U64)
    requires LegalRun(Initial, ops) && Decodable(ops)
    ensures TotalSound(BudgetOf(Slot(Run(Initial, ops).accs, id)))
  {
    AnyBrings(Initial, ops);
    RunUpdatesCaused(Initial, ops, id, Any());
    var us := RunUpdates(Initial, ops, id);
    forall i | 0 <= i < |us| && us[i].Restore? ensures us[i].snap.budgetTotal >= 0 {
      assert CausedBySome(us[i], ops, id, Any());
      var j :| 0 <= j < |ops| && Caused(us[i], ops[j], id, Any());
      assert Codec.GoodState(ops[j].durable);
    }
    LifeTotalSound(None, us);
    RunIsLife(Initial, ops, id);
  }

  /** Histories grow to their capacity, or stay at the size that was loaded. */
  lemma StepHistories(s: State, op: Op)
    requires Legal(s, op)
    requires op.Load? || (|s.receipts| <= Codec.MAX_ITEMS && |s.evaluations| <= Codec.MAX_ITEMS)
    requires op.Load? ==> Codec.GoodState(op.durable)
    ensures |Step(s, op).0.receipts| <= Codec.MAX_ITEMS && |Step(s, op).0.evaluations| <= Codec.MAX_ITEMS
  {}

  lemma {:induction false} HistoriesBounded(ops: seq<Op>)
    requires LegalRun(Initial, ops) && Decodable(ops)
    ensures |Run(Initial, ops).receipts| <= Codec.MAX_ITEMS && |Run(Initial, ops).evaluations| <= Codec.MAX_ITEMS
  {
    if ops != [] {
      var past, op := ops[..|ops| - 1], ops[|ops| - 1];
      assert forall i :: 0 <= i < |past| ==> past[i] == ops[i];
      HistoriesBounded(past);
      StepHistories(Run(Initial, past), op);
    }
  }

  lemma GoodSnapshots(ops: seq<Op>, order: seq<U64>)
    requires LegalRun(Initial, ops) && Decodable(ops) && Enumerates(order, Run(Initial, ops).accs)
    ensures Binary.All(Codec.GoodSnapshot, Snapshots(Run(Initial, ops).accs, order))
  {
    var accs := Run(Initial, ops).accs;
    var snaps := Snapshots(accs, order);
    forall i | 0 <= i < |snaps| ensures Codec.GoodSnapshot(snaps[i]) {
      BudgetsSoundAlways(ops, order[i]);
      TotalsSoundAlways(ops, order[i]);
      assert snaps[i] == SnapshotOf(order[i], accs[order[i]]);
    }
  }

  /** The texts, contracts and counts of a state are within what the decoder allows. */
  ghost predicate WithinLimits(st: DurableState) {
    && Codec.GoodList(Codec.GoodPolicy, st.policies) && Codec.GoodContracts(st.contracts)
    && Binary.All(Codec.GoodReceipt, st.receipts) && |st.snapshots| <= Codec.MAX_ITEMS
  }

  lemma SavedIsGood(ops: seq<Op>, order: seq<U64>, st: DurableState)
    requires LegalRun(Initial, ops) && Decodable(ops) && Enumerates(order, Run(Initial, ops).accs)
    requires st == Saved(Run(Initial, ops), order)
    ensures Codec.GoodState(st) <==> WithinLimits(st)
  {
    HistoriesBounded(ops);
    GoodSnapshots(ops, order);
  }

  /** A file that a run saves can be loaded exactly when its texts, contracts and counts are within
      what the decoder allows: budgets, cooldowns and histories never stand in the way. */
  lemma FileLoadsExactly(ops: seq<Op>, order: seq<U64>, st: DurableState)
    requires LegalRun(Initial, ops) && Decodable(ops) && Enumerates(order, Run(Initial, ops).accs)
    requires st == Saved(Run(Initial, ops), order)
    ensures Persistence.Load(Crc32.Seal(Codec.Serialize(st)))
         == if WithinLimits(st) && |Codec.Serialize(st)| <= Codec.MAX_BYTES then Some(st) else None
  {
    SavedIsGood(ops, order, st);
    Persistence.LoadUndoesSave(st);
  }

  /** Adding a contract checks less than the decoder does: a contract whose window holds no sample is
      accepted, and every file saved while it is there is refused. */
  lemma AcceptedContractSpoilsFile(s: State, c: Contract, order: seq<U64>, k: nat, st: DurableState)
    requires DoAddContract(s, c).1 == Answer(Ok) && k < |c.objectives| && c.objectives[k].windowCount <= 0
    requires Enumerates(order, s.accs) && st == Saved(DoAddContract(s, c).0, order)
    ensures Persistence.Load(Crc32.Seal(Codec.Serialize(st))) == None
  {
    SpoiltState(s, c, order, k, st);
    Persistence.LoadUndoesSave(st);
  }

  lemma SpoiltState(s: State, c: Contract, order: seq<U64>, k: nat, st: DurableState)
    requires DoAddContract(s, c).1 == Answer(Ok) && k < |c.objectives| && c.objectives[k].windowCount <= 0
    requires Enumerates(order, s.accs) && st == Saved(DoAddContract(s, c).0, order)
    ensures !Codec.GoodState(st)
  {
    var t := Put(s.contracts, c.id, c);
    LookupPut(s.contracts, c.id, c, c.id);
    LookupIsEntry(t, c.id);
    var i :| 0 <= i < |t| && t[i] == Entry(c.id, c);
    assert st.contracts[i] == c;
    SpoiltContract(c, k);
  }

  lemma SpoiltContract(c: Contract, k: nat)
    requires k < |c.objectives| && c.objectives[k].windowCount <= 0
    ensures !Codec.GoodContract(c)
  {
    assert !Codec.GoodObjective(c.objectives[k]);
  }

  // ----- Fabrics that save good files -----

  /** What load delivers always meets the decoder's demands. */
  lemma LoadedIsGood(image: seq<byte>)
    ensures Persistence.Load(image).Some? ==> Codec.GoodState(Persistence.Load(image).value)
  {
    if |image| >= 4 {
      CodecProofs.DecodedIsGood(image[..|image| - 4]);
    }
  }

  ghost predicate SoundBudgets(accs: map<U64, Accumulator>) {
    forall id {:trigger id in accs} :: id in accs ==> BudgetSound(accs[id].budget) && TotalSound(accs[id].budget)
  }

  /** Nothing in the fabric but the number of its accumulators and its size can make its file fail to load. */
  ghost predicate Savable(s: State) {
    && Codec.GoodList(Codec.GoodPolicy, ValuesOf(s.policies)) && Codec.GoodContracts(ValuesOf(s.contracts))
    && Codec.GoodList(Codec.GoodReceipt, s.receipts) && |s.evaluations| <= Codec.MAX_ITEMS && SoundBudgets(s.accs)
  }

  lemma SavableIsGood(s: State, order: seq<U64>)
    requires Savable(s) && Enumerates(order, s.accs)
    ensures Codec.GoodState(Saved(s, order)) <==> |order| <= Codec.MAX_ITEMS
  {
    var snaps := Snapshots(s.accs, order);
    forall i | 0 <= i < |snaps| ensures Codec.GoodSnapshot(snaps[i]) {
      assert order[i] in s.accs;
      assert snaps[i] == SnapshotOf(order[i], s.accs[order[i]]);
    }
  }

  /** The calls that the coordinator's messages and its monitor make. */
  predicate MessageCall(op: Op) {
    op.IngestEvidence? || op.RecoveryEvent? || op.Evaluate?
  }

  lemma MessageKeepsTables(s: State, op: Op)
    requires MessageCall(op) && Legal(s, op)
    ensures var s' := Step(s, op).0; s'.policies == s.policies && s'.contracts == s.contracts && s'.receipts == s.receipts
    ensures |s.evaluations| <= Codec.MAX_ITEMS ==> |Step(s, op).0.evaluations| <= Codec.MAX_ITEMS
  {}

  lemma MessageKeepsBudget(s: State, op: Op, id: U64)
    requires MessageCall(op) && Legal(s, op) && SoundBudgets(s.accs)
    ensures var b := BudgetOf(Slot(Step(s, op).0.accs, id)); BudgetSound(b) && TotalSound(b)
  {
    var us := Updates(s, op, id);
    UpdatesCaused(s, op, id, Any());
    forall i | 0 <= i < |us| ensures !us[i].Restore? {
      assert Caused(us[i], op, id, Any());
    }
    LifeBudgetSound(Slot(s.accs, id), us);
    LifeTotalSound(Slot(s.accs, id), us);
    StepUpdates(s, op, id);
  }

  lemma MessageKeepsSavable(s: State, op: Op)
    requires MessageCall(op) && Legal(s, op) && Savable(s)
    ensures Savable(Step(s, op).0)
  {
    MessageKeepsTables(s, op);
    var accs := Step(s, op).0.accs;
    forall id | id in accs ensures BudgetSound(accs[id].budget) && TotalSound(accs[id].budget) {
      MessageKeepsBudget(s, op, id);
    }
  }

  lemma {:induction false} PutGrows<T>(t: Table<T>, id: U64, v: T)
    ensures |Put(t, id, v)| <= |t| + 1
  {
    if t != [] && id > t[0].id {
      PutGrows(t[1..], id, v);
    }
  }

  lemma {:induction false} LoadedPoliciesGood(ps: seq<Policy>)
    requires Binary.All(Codec.GoodPolicy, ps)
    ensures |PolicyTable(ps)| <= |ps|
    ensures forall i {:trigger PolicyTable(ps)[i]} :: 0 <= i < |PolicyTable(ps)| ==> Codec.GoodPolicy(PolicyTable(ps)[i].value)
  {
    if ps != [] {
      var past, p := ps[..|ps| - 1], ps[|ps| - 1];
      assert forall i :: 0 <= i < |past| ==> past[i] == ps[i];
      LoadedPoliciesGood(past);
      var t := PolicyTable(past);
      PutGrows(t, p.id, p);
      PutMembers(t, p.id, p);
      var t' := Put(t, p.id, p);
      forall i | 0 <= i < |t'| ensures Codec.GoodPolicy(t'[i].value) {
        assert t'[i] in t';
      }
    }
  }

  lemma {:induction false} LoadedContractsGood(cs: seq<Contract>)
    requires forall i {:trigger cs[i]} :: 0 <= i < |cs| ==> Codec.GoodContract(cs[i])
    ensures |ContractTable(cs)| <= |cs|
    ensures forall i {:trigger ContractTable(cs)[i]} :: 0 <= i < |ContractTable(cs)| ==> Codec.GoodContract(ContractTable(cs)[i].value)
  {
    if cs != [] {
      var past, c := cs[..|cs| - 1], cs[|cs| - 1];
      assert forall i :: 0 <= i < |past| ==> past[i] == cs[i];
      LoadedContractsGood(past);
      var t := ContractTable(past);
      PutGrows(t, c.id, c);
      PutMembers(t, c.id, c);
      var t' := Put(t, c.id, c);
      forall i | 0 <= i < |t'| ensures Codec.GoodContract(t'[i].value) {
        assert t'[i] in t';
      }
    }
  }

  lemma LoadedBudget(s: State, d: DurableState, id: U64)
    requires Codec.GoodState(d)
    ensures var b := BudgetOf(Slot(DoLoad(s, d).0.accs, id)); BudgetSound(b) && TotalSound(b)
  {
    var os := Objectives(ContractTable(d.contracts));
    var ts := Restores(os, d.snapshots);
    assert EveryIn(os, Any());
    RestoresFit(os, d.snapshots, id, Load(d), Any());
    TouchAllAt(map[], ts, id);
    var us := Of(ts, id);
    forall i | 0 <= i < |us| && us[i].Restore? ensures us[i].snap.budgetTotal >= 0 {
      assert Caused(us[i], Load(d), id, Any());
    }
    LifeBudgetSound(None, us);
    LifeTotalSound(None, us);
  }

  /** A loaded fabric is one that saves good files, whatever it was before. */
  lemma LoadedIsSavable(s: State, d: DurableState)
    requires Codec.GoodState(d)
    ensures Savable(DoLoad(s, d).0)
  {
    LoadedPoliciesGood(d.policies);
    LoadedContractsGood(d.contracts);
    var accs := DoLoad(s, d).0.accs;
    forall id | id in accs ensures BudgetSound(accs[id].budget) && TotalSound(accs[id].budget) {
      LoadedBudget(s, d, id);
    }
  }
}
