/** Generation and epoch fences: what was replaced stays replaced. */
module Fencing {
  import opened Types
  import opened Accumulators
  import opened Tables
  import opened Engine
  import opened Runs

  // ----- Contracts are filed under their own ids -----

  predicate ContractsIndexed(t: Table<Contract>) {
    Ascending(t) && forall i {:trigger t[i]} :: 0 <= i < |t| ==> t[i].value.id == t[i].id
  }

  lemma ContractPut(t: Table<Contract>, c: Contract)
    requires ContractsIndexed(t)
    ensures ContractsIndexed(Put(t, c.id, c))
  {
    PutAscends(t, c.id, c);
    PutMembers(t, c.id, c);
    var t' := Put(t, c.id, c);
    forall i | 0 <= i < |t'| ensures t'[i].value.id == t'[i].id {
      assert t'[i] in t';
    }
  }

  lemma {:induction false} LoadedIndexed(cs: seq<Contract>)
    ensures ContractsIndexed(ContractTable(cs))
  {
    if cs != [] {
      LoadedIndexed(cs[..|cs| - 1]);
      ContractPut(ContractTable(cs[..|cs| - 1]), cs[|cs| - 1]);
    }
  }

  lemma AmendIndexed(s: State, id: U64, op: Op)
    requires ContractsIndexed(s.contracts)
    ensures ContractsIndexed(DoAmend(s, id, op).0.contracts)
  {
    var c := Lookup(s.contracts, id);
    if c.Some? {
      LookupIsEntry(s.contracts, id);
      assert Amended(c.value, op).id == id;
      ContractPut(s.contracts, Amended(c.value, op));
    }
  }

  lemma IndexedAfter(s: State, op: Op)
    requires ContractsIndexed(s.contracts)
    ensures ContractsIndexed(ContractsAfter(s, op))
  {
    match op
    case AddContract(c) => ContractPut(s.contracts, c);
    case SupersedeContract(c) => ContractPut(s.contracts, c);
    case Load(d) => LoadedIndexed(d.contracts);
    case ActivateContract(id, _) => AmendIndexed(s, id, op);
    case SuspendContract(id) => AmendIndexed(s, id, op);
    case ExpireContract(id, _) => AmendIndexed(s, id, op);
    case RetireContract(id) => AmendIndexed(s, id, op);
    case _ =>
  }

  lemma {:induction false} IndexedRun(s: State, ops: seq<Op>)
    requires LegalRun(s, ops) && ContractsIndexed(s.contracts)
    ensures ContractsIndexed(Run(s, ops).contracts)
  {
    if ops != [] {
      var past, op := ops[..|ops| - 1], ops[|ops| - 1];
      IndexedRun(s, past);
      StepContracts(Run(s, past), op);
      IndexedAfter(Run(s, past), op);
    }
  }

  // ----- The contract that an authorization finds -----

  /** The contract has the objective and is for the service. */
  predicate Serves(c: Contract, id: U64, service: U64) {
    FirstIn(c.objectives, id).Some? && c.service == service
  }

  lemma {:induction false} FirstInMember(os: seq<Objective>, id: U64)
    ensures FirstIn(os, id).Some? <==> exists i {:trigger os[i]} :: 0 <= i < |os| && os[i].id == id
  {
    if os != [] {
      var rest := os[1..];
      FirstInMember(rest, id);
      assert forall i :: 0 <= i < |rest| ==> rest[i] == os[i + 1];
      if i :| 0 <= i < |os| && os[i].id == id && i > 0 {
        assert rest[i - 1].id == id;
      }
    }
  }

  lemma {:induction false} TargetIsEntry(t: Table<Contract>, id: U64, service: U64)
    requires Target(t, id, service).Some?
    ensures exists i {:trigger t[i]} :: 0 <= i < |t| && t[i].value == Target(t, id, service).value
    ensures Serves(Target(t, id, service).value, id, service)
  {
    var past, c := t[..|t| - 1], t[|t| - 1].value;
    if FirstIn(c.objectives, id).Some? && c.service == service {
      assert t[|t| - 1].value == Target(t, id, service).value;
    } else {
      TargetIsEntry(past, id, service);
      var i :| 0 <= i < |past| && past[i].value == Target(past, id, service).value;
      assert t[i] == past[i];
    }
  }

  lemma TargetIsFiled(t: Table<Contract>, id: U64, service: U64)
    requires ContractsIndexed(t) && Target(t, id, service).Some?
    ensures Lookup(t, Target(t, id, service).value.id) == Target(t, id, service)
  {
    TargetIsEntry(t, id, service);
    var i :| 0 <= i < |t| && t[i].value == Target(t, id, service).value;
    LookupEntry(t, i);
  }

  /** No contract but the one filed under `k` has the objective and the service. */
  predicate Sole(t: Table<Contract>, k: U64, id: U64, service: U64) {
    forall i {:trigger t[i]} :: 0 <= i < |t| && t[i].id != k ==> !Serves(t[i].value, id, service)
  }

  lemma {:induction false} TargetExists(t: Table<Contract>, id: U64, service: U64, k: nat)
    requires k < |t| && Serves(t[k].value, id, service)
    ensures Target(t, id, service).Some?
  {
    if k < |t| - 1 {
      assert t[..|t| - 1][k] == t[k];
      TargetExists(t[..|t| - 1], id, service, k);
    }
  }

  lemma TargetIsSole(t: Table<Contract>, c: Contract, id: U64)
    requires ContractsIndexed(t) && FirstIn(c.objectives, id).Some? && Sole(t, c.id, id, c.service)
    requires exists k {:trigger t[k]} :: 0 <= k < |t| && t[k].value == c
    ensures Target(t, id, c.service) == Some(c)
  {
    var k :| 0 <= k < |t| && t[k].value == c;
    TargetExists(t, id, c.service, k);
    TargetIsEntry(t, id, c.service);
    TargetIsFiled(t, id, c.service);
    LookupEntry(t, k);
  }

  // ----- Generations -----

  /** The contract generation that the intent carries, or the policy generation, has been replaced
      by a higher one. */
  predicate Replaced(s: State, i: Intent, contractId: U64) {
    var c := Lookup(s.contracts, contractId);
    && c.Some?
    && (c.value.gen > i.contractGen
        || (c.value.gen == i.contractGen
            && var p := Lookup(s.policies, c.value.policyId); p.Some? && p.value.gen > i.policyGen))
  }

  /** Exactly when an intent is accepted although the generation it was issued for, by contract `k`,
      has been replaced: the last contract with its objective and service is another one, which has the
      old generation, may authorize, and is under a policy of the intent's generation. */
  lemma ReplacedAcceptedExactly(s: State, i: Intent, k: U64, now: I64)
    requires ContractsIndexed(s.contracts) && Replaced(s, i, k)
    ensures AuthorizeStatus(s, i, now) == Ok <==>
      && i.epoch == s.epoch && !i.action.NoAction?
      && var c := Target(s.contracts, i.objectiveId, i.service);
         && c.Some? && c.value.id != k && c.value.gen == i.contractGen && c.value.CanAuthorize(now)
         && Lookup(s.policies, c.value.policyId).Some? && Lookup(s.policies, c.value.policyId).value.gen == i.policyGen
  {
    if Target(s.contracts, i.objectiveId, i.service).Some? {
      TargetIsFiled(s.contracts, i.objectiveId, i.service);
    }
  }

  /** Another contract than `k` with the intent's objective and service, at the intent's generation. */
  predicate Rival(c: Contract, i: Intent, k: U64) {
    c.id != k && Serves(c, i.objectiveId, i.service) && c.gen == i.contractGen
  }

  predicate NoRival(t: Table<Contract>, i: Intent, k: U64) {
    forall j {:trigger t[j]} :: 0 <= j < |t| ==> !Rival(t[j].value, i, k)
  }

  lemma ReplacedIsRejected(s: State, i: Intent, k: U64, now: I64)
    requires ContractsIndexed(s.contracts) && Replaced(s, i, k) && NoRival(s.contracts, i, k)
    ensures AuthorizeStatus(s, i, now) != Ok
  {
    ReplacedAcceptedExactly(s, i, k, now);
    if Target(s.contracts, i.objectiveId, i.service).Some? {
      TargetIsEntry(s.contracts, i.objectiveId, i.service);
    }
  }

  lemma NoRivalPut(t: Table<Contract>, id: U64, c: Contract, i: Intent, k: U64)
    requires NoRival(t, i, k) && !Rival(c, i, k)
    ensures NoRival(Put(t, id, c), i, k)
  {
    PutMembers(t, id, c);
    var t' := Put(t, id, c);
    forall j | 0 <= j < |t'| ensures !Rival(t'[j].value, i, k) {
      assert t'[j] in t';
    }
  }

  lemma NoRivalAmended(s: State, id: U64, op: Op, i: Intent, k: U64)
    requires NoRival(s.contracts, i, k)
    ensures NoRival(DoAmend(s, id, op).0.contracts, i, k)
  {
    var c := Lookup(s.contracts, id);
    if c.Some? {
      LookupIsEntry(s.contracts, id);
      NoRivalPut(s.contracts, id, Amended(c.value, op), i, k);
    }
  }

  /** An accepted contract is no rival. */
  predicate BringsNoRival(s: State, op: Op, i: Intent, k: U64) {
    match op
    case AddContract(c) => DoAddContract(s, c).1 == Answer(Ok) ==> !Rival(c, i, k)
    case SupersedeContract(c) => DoSupersede(s, c).1 == Answer(Ok) ==> !Rival(c, i, k)
    case Load(_) => false
    case _ => true
  }

  lemma NoRivalAfter(s: State, op: Op, i: Intent, k: U64)
    requires NoRival(s.contracts, i, k) && BringsNoRival(s, op, i, k)
    ensures NoRival(ContractsAfter(s, op), i, k)
  {
    match op
    case AddContract(c) => if DoAddContract(s, c).1 == Answer(Ok) { NoRivalPut(s.contracts, c.id, c, i, k); }
    case SupersedeContract(c) => if DoSupersede(s, c).1 == Answer(Ok) { NoRivalPut(s.contracts, c.id, c, i, k); }
    case ActivateContract(id, _) => NoRivalAmended(s, id, op, i, k);
    case SuspendContract(id) => NoRivalAmended(s, id, op, i, k);
    case ExpireContract(id, _) => NoRivalAmended(s, id, op, i, k);
    case RetireContract(id) => NoRivalAmended(s, id, op, i, k);
    case _ =>
  }

  /** The run has no load, and no accepted contract in it is a rival. */
  ghost predicate NoneBringsRival(s: State, ops: seq<Op>, i: Intent, k: U64)
    requires LegalRun(s, ops)
  {
    ops == []
    || (NoneBringsRival(s, ops[..|ops| - 1], i, k) && BringsNoRival(Run(s, ops[..|ops| - 1]), ops[|ops| - 1], i, k))
  }

  /** A contract or policy is only ever replaced by one of a higher generation. */
  lemma GenerationsRise(s: State, op: Op, contractId: U64, policyId: U64)
    requires Legal(s, op) && !op.Load?
    ensures var s' := Step(s, op).0;
      && (Lookup(s.contracts, contractId).Some? ==>
            var c, c' := Lookup(s.contracts, contractId).value, Lookup(s'.contracts, contractId);
            c'.Some? && (c'.value.gen > c.gen || (c'.value.gen == c.gen && c'.value.policyId == c.policyId)))
      && (Lookup(s.policies, policyId).Some? ==>
            Lookup(s'.policies, policyId).Some?
            && Lookup(s'.policies, policyId).value.gen >= Lookup(s.policies, policyId).value.gen)
  {
    StepContracts(s, op);
    StepPolicies(s, op);
    if Lookup(s.contracts, contractId).Some? {
      ContractRises(s, op, contractId);
    }
    if op.SetPolicy? {
      LookupPut(s.policies, op.policy.id, op.policy, policyId);
    }
  }

  lemma StepPolicies(s: State, op: Op)
    requires Legal(s, op)
    ensures Step(s, op).0.policies ==
      match op
      case SetPolicy(p) => DoSetPolicy(s, p).0.policies
      case Load(d) => PolicyTable(d.policies)
      case _ => s.policies
  {}

  lemma ContractRises(s: State, op: Op, id: U64)
    requires !op.Load? && Lookup(s.contracts, id).Some?
    ensures var c, c' := Lookup(s.contracts, id).value, Lookup(ContractsAfter(s, op), id);
      c'.Some? && (c'.value.gen > c.gen || (c'.value.gen == c.gen && c'.value.policyId == c.policyId))
  {
    match op
    case AddContract(c) => LookupPut(s.contracts, c.id, c, id);
    case SupersedeContract(c) => LookupPut(s.contracts, c.id, c, id);
    case ActivateContract(k, _) => AmendRises(s, op, k, id);
    case SuspendContract(k) => AmendRises(s, op, k, id);
    case ExpireContract(k, _) => AmendRises(s, op, k, id);
    case RetireContract(k) => AmendRises(s, op, k, id);
    case _ =>
  }

  lemma AmendRises(s: State, op: Op, k: U64, id: U64)
    requires Lookup(s.contracts, id).Some?
    ensures var c, c' := Lookup(s.contracts, id).value, Lookup(DoAmend(s, k, op).0.contracts, id);
      c'.Some? && c'.value.gen == c.gen && c'.value.policyId == c.policyId
  {
    if Lookup(s.contracts, k).Some? {
      LookupPut(s.contracts, k, Amended(Lookup(s.contracts, k).value, op), id);
    }
  }

  lemma ReplacedStays(s: State, op: Op, i: Intent, contractId: U64)
    requires Legal(s, op) && !op.Load? && Replaced(s, i, contractId)
    ensures Replaced(Step(s, op).0, i, contractId)
  {
    GenerationsRise(s, op, contractId, Lookup(s.contracts, contractId).value.policyId);
  }

  ghost predicate NoLoad(ops: seq<Op>) {
    forall i {:trigger ops[i]} :: 0 <= i < |ops| ==> !ops[i].Load?
  }

  lemma {:induction false} ReplacedForever(s: State, ops: seq<Op>, i: Intent, k: U64)
    requires LegalRun(s, ops) && NoneBringsRival(s, ops, i, k) && Replaced(s, i, k) && NoRival(s.contracts, i, k)
    ensures Replaced(Run(s, ops), i, k) && NoRival(Run(s, ops).contracts, i, k)
  {
    if ops != [] {
      var past, op := ops[..|ops| - 1], ops[|ops| - 1];
      ReplacedForever(s, past, i, k);
      var t := Run(s, past);
      ReplacedStays(t, op, i, k);
      StepContracts(t, op);
      NoRivalAfter(t, op, i, k);
    }
  }

  /** Fencing is permanent: once the contract or policy generation that an intent carries has been
      replaced, no run of calls without a load makes it acceptable again, as long as no other contract
      comes with its objective and service at that generation. */
  lemma FencedForever(s: State, ops: seq<Op>, i: Intent, k: U64, now: I64)
    requires LegalRun(s, ops) && NoneBringsRival(s, ops, i, k)
    requires ContractsIndexed(s.contracts) && NoRival(s.contracts, i, k) && Replaced(s, i, k)
    ensures AuthorizeStatus(Run(s, ops), i, now) != Ok
  {
    ReplacedForever(s, ops, i, k);
    IndexedRun(s, ops);
    ReplacedIsRejected(Run(s, ops), i, k, now);
  }

  /** Superseding the contract that an intent was issued for replaces its generation, and so does a
      new generation of that contract's policy. */
  lemma AcceptedReplacement(s: State, op: Op, i: Intent, contractId: U64)
    requires Legal(s, op) && Step(s, op).1 == Answer(Ok)
    requires Lookup(s.contracts, contractId).Some? && Lookup(s.contracts, contractId).value.gen == i.contractGen
    requires
      || ((op.SupersedeContract? || op.AddContract?) && op.contract.id == contractId)
      || (op.SetPolicy? && op.policy.id == Lookup(s.contracts, contractId).value.policyId
          && Lookup(s.policies, op.policy.id).Some? && Lookup(s.policies, op.policy.id).value.gen == i.policyGen)
    ensures Replaced(Step(s, op).0, i, contractId)
  {
    if op.SetPolicy? {
      PolicyReplaced(s, op.policy, i, contractId);
    } else {
      LookupPut(s.contracts, op.contract.id, op.contract, contractId);
      StepContracts(s, op);
    }
  }

  lemma PolicyReplaced(s: State, p: Policy, i: Intent, contractId: U64)
    requires DoSetPolicy(s, p).1 == Answer(Ok)
    requires Lookup(s.contracts, contractId).Some? && Lookup(s.contracts, contractId).value.gen == i.contractGen
    requires p.id == Lookup(s.contracts, contractId).value.policyId
    requires Lookup(s.policies, p.id).Some? && Lookup(s.policies, p.id).value.gen == i.policyGen
    ensures Replaced(DoSetPolicy(s, p).0, i, contractId)
  {
    LookupPut(s.policies, p.id, p, p.id);
  }

  /** The fence can fail: a second contract, filed after the first, that has the same objective and
      service at the old generation gets an intent of the replaced contract accepted. */
  lemma SharedObjectiveDefeatsFence(s: State, first: Contract, second: Contract, i: Intent, now: I64)
    requires s.contracts == [Entry(first.id, first), Entry(second.id, second)] && first.id < second.id
    requires FirstIn(second.objectives, i.objectiveId).Some?
    requires second.service == i.service && second.gen == i.contractGen && second.CanAuthorize(now)
    requires first.gen > i.contractGen && i.epoch == s.epoch && !i.action.NoAction?
    requires Lookup(s.policies, second.policyId).Some? && Lookup(s.policies, second.policyId).value.gen == i.policyGen
    ensures Replaced(s, i, first.id) && AuthorizeStatus(s, i, now) == Ok
  {
    assert s.contracts[|s.contracts| - 1].value == second;
  }

  // ----- Epochs -----

  lemma StepEpoch(s: State, op: Op)
    requires Legal(s, op)
    ensures Step(s, op).0.epoch == if op.Load? then Successor(op.durable.epoch) else s.epoch
  {}

  lemma {:induction false} EpochStays(s: State, ops: seq<Op>)
    requires LegalRun(s, ops) && NoLoad(ops)
    ensures Run(s, ops).epoch == s.epoch
  {
    if ops != [] {
      var past, op := ops[..|ops| - 1], ops[|ops| - 1];
      assert forall k :: 0 <= k < |past| ==> past[k] == ops[k];
      EpochStays(s, past);
      StepEpoch(Run(s, past), op);
    }
  }

  /** The intents that a fabric issues carry its epoch. */
  lemma IntentsCarryEpoch(s: State, op: Op)
    requires Legal(s, op) && op.Evaluate? && Step(s, op).1.Evaluated?
    ensures Step(s, op).1.evaluation.intent.epoch == s.epoch
  {
    assert Step(s, op) == DoEvaluate(s, op);
  }

  /** Evidence stamped with another epoch than the current one reaches no accumulator. */
  lemma StrangeEvidence(s: State, e: Evidence)
    requires e.epoch != 0 && e.epoch != s.epoch
    ensures DoIngest(s, e).0.accs == s.accs && DoIngest(s, e).1 != Answer(Ok)
  {}

  /** After a saved state is loaded, in the same process or another, and through any run without a
      further load, every intent and every epoch-stamped record of the saving incarnation is refused. */
  lemma SavingIncarnationIsFenced(s: State, order: seq<U64>, t: State, ops: seq<Op>, i: Intent, e: Evidence, now: I64)
    requires Enumerates(order, s.accs) && i.epoch == s.epoch && e.epoch == s.epoch && e.epoch != 0
    requires var loaded := DoLoad(t, Saved(s, order)).0; LegalRun(loaded, ops) && NoLoad(ops)
    ensures var after := Run(DoLoad(t, Saved(s, order)).0, ops);
      && AuthorizeStatus(after, i, now) == StaleAuthority
      && DoIngest(after, e).0.accs == after.accs && DoIngest(after, e).1 != Answer(Ok)
  {
    var loaded := DoLoad(t, Saved(s, order)).0;
    EpochStays(loaded, ops);
    SuccessorDiffers(s.epoch);
    StrangeEvidence(Run(loaded, ops), e);
  }

  lemma SuccessorDiffers(x: U64)
    ensures Successor(x) != x
    ensures x < TWO_64 - 1 ==> Successor(x) == x + 1
  {}

  // ----- What the walks over the contracts find -----

  /** The definition in force is one with the highest generation; there is none exactly when no
      contract has the objective. */
  lemma {:induction false} NewestIsHighest(os: seq<Objective>, id: U64)
    ensures Newest(os, id).None? <==> forall i {:trigger os[i]} :: 0 <= i < |os| ==> os[i].id != id
    ensures Newest(os, id).Some? ==>
      && Newest(os, id).value in os && Newest(os, id).value.id == id
      && forall i {:trigger os[i]} :: 0 <= i < |os| && os[i].id == id ==> os[i].gen <= Newest(os, id).value.gen
  {
    if os != [] {
      var past := os[..|os| - 1];
      NewestIsHighest(past, id);
      assert forall i :: 0 <= i < |past| ==> past[i] == os[i];
    }
  }

  /** An evaluation decides on an authorizing contract of the scope with the highest generation, and
      finds none exactly when there is none. */
  lemma {:induction false} ScopedIsHighest(t: Table<Contract>, service: U64, workload: U64, now: int)
    ensures var found := Scoped(t, service, workload, now);
      forall i {:trigger t[i]} :: 0 <= i < |t| ==>
        var c := t[i].value;
        c.service == service && c.workload == workload && c.CanAuthorize(now) ==>
          found.Some? && c.gen <= found.value.gen
  {
    if t != [] {
      var past := t[..|t| - 1];
      ScopedIsHighest(past, service, workload, now);
      assert forall i :: 0 <= i < |past| ==> past[i] == t[i];
    }
  }

  /** Definition `i` is of objective `id`, and no other one of it has a higher generation. */
  ghost predicate InForce(os: seq<Objective>, id: U64, i: nat) {
    && i < |os| && os[i].id == id
    && forall j {:trigger os[j]} :: 0 <= j < |os| && os[j].id == id ==> os[j].gen <= os[i].gen
  }

  /** Exactly which new evidence reaches its objective: stamped with no epoch or the current one, for
      an objective that some contract has, and stamped with no generation or the highest one. */
  lemma EvidencePassesExactly(s: State, e: Evidence)
    ensures FenceStatus(s, e) == Ok <==>
      && (e.epoch == 0 || e.epoch == s.epoch)
      && exists i: nat :: InForce(Objectives(s.contracts), e.objectiveId, i)
                          && (e.objectiveGen == 0 || e.objectiveGen == Objectives(s.contracts)[i].gen)
  {
    var os := Objectives(s.contracts);
    var def := Newest(os, e.objectiveId);
    NewestIsHighest(os, e.objectiveId);
    if def.Some? {
      var k :| 0 <= k < |os| && os[k] == def.value;
      assert InForce(os, e.objectiveId, k);
      forall i: nat | InForce(os, e.objectiveId, i) ensures os[i].gen == def.value.gen {
        assert os[k].gen <= os[i].gen;
      }
    } else {
      forall i: nat ensures !InForce(os, e.objectiveId, i) {
        if i < |os| {
          assert os[i].id != e.objectiveId;
        }
      }
    }
  }

  // ----- Which contracts are accepted and may authorize -----

  lemma {:induction false} ObjectivesAccepted(os: seq<Objective>)
    ensures ObjectivesStatus(os) == Ok
      <==> forall i {:trigger os[i]} :: 0 <= i < |os| ==> os[i].id != 0 && os[i].gen != 0 && os[i].TargetUnitMatches()
  {
    if os != [] {
      var rest := os[1..];
      ObjectivesAccepted(rest);
      assert forall i :: 0 <= i < |rest| ==> rest[i] == os[i + 1];
      if ObjectivesStatus(os) == Ok {
        forall i | 0 <= i < |os| ensures os[i].id != 0 && os[i].gen != 0 && os[i].TargetUnitMatches() {
          if i > 0 {
            assert rest[i - 1] == os[i];
          }
        }
      }
    }
  }

  /** A contract is added exactly when it has objectives, each with an id, a generation and a target in
      its dimension's unit, and no contract of that id has its generation or a higher one. */
  lemma AddedExactly(s: State, c: Contract)
    ensures DoAddContract(s, c).1 == Answer(Ok) <==>
      && c.objectives != []
      && (forall i {:trigger c.objectives[i]} :: 0 <= i < |c.objectives| ==>
            c.objectives[i].id != 0 && c.objectives[i].gen != 0 && c.objectives[i].TargetUnitMatches())
      && (Lookup(s.contracts, c.id).Some? ==> Lookup(s.contracts, c.id).value.gen < c.gen)
    ensures DoAddContract(s, c).1 == Answer(Ok) ==> Lookup(DoAddContract(s, c).0.contracts, c.id) == Some(c)
    ensures DoAddContract(s, c).1 != Answer(Ok) ==> DoAddContract(s, c).0 == s
  {
    ObjectivesAccepted(c.objectives);
    LookupPut(s.contracts, c.id, c, c.id);
  }
}
