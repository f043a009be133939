/** What a whole run leaves behind: noted evidence, budgets, latched states and the age of samples. */
module Histories {
  import opened Types
  import opened SampleWindows
  import opened Trends
  import opened Decisions
  import opened Hysteresis
  import opened Binding
  import opened Accumulators
  import opened Lives
  import opened Tables
  import opened Engine
  import opened Runs
  import opened Fencing
  import opened Intents

  // ----- Duplicate evidence -----

  predicate Notes(s: State, op: Op) {
    op.IngestEvidence? && NoteStatus(s, op.e.id) == Ok
  }

  lemma StepRing(s: State, op: Op)
    requires Legal(s, op)
    ensures var s' := Step(s, op).0;
      if Notes(s, op) then
        s'.ring == Ringed(s.ring, op.e.id, RING_CAPACITY) && s'.known == Known(s.ring, s.known, op.e.id, RING_CAPACITY)
      else s'.ring == s.ring && s'.known == s.known
  {}

  /** The evidence ids that a run got noted, in order. */
  function NotedIds(s: State, ops: seq<Op>): seq<U64>
    requires LegalRun(s, ops)
  {
    if ops == [] then []
    else
      var past, op := ops[..|ops| - 1], ops[|ops| - 1];
      if Notes(Run(s, past), op) then NotedIds(s, past) + [op.e.id] else NotedIds(s, past)
  }

  /** The ring always holds the last 8192 noted ids, without repeats, and the set holds the same ids:
      through loads too, which leave both alone. */
  lemma {:induction false} RingIsLast(s: State, ops: seq<Op>)
    requires LegalRun(s, ops) && RingSound(s.ring, s.known, RING_CAPACITY)
    ensures var s' := Run(s, ops);
      && RingSound(s'.ring, s'.known, RING_CAPACITY)
      && s'.ring == LastOf(s.ring + NotedIds(s, ops), 8192)
  {
    if ops == [] {
      assert s.ring + NotedIds(s, ops) == s.ring;
    } else {
      var past, op := ops[..|ops| - 1], ops[|ops| - 1];
      RingIsLast(s, past);
      StepRing(Run(s, past), op);
      if Notes(Run(s, past), op) {
        RingGrows(s.ring, NotedIds(s, past), Run(s, past).ring, Run(s, past).known, op.e.id);
      }
    }
  }

  lemma RingGrows(start: seq<U64>, noted: seq<U64>, ring: seq<U64>, known: set<U64>, id: U64)
    requires RingSound(ring, known, RING_CAPACITY) && id !in known && ring == LastOf(start + noted, RING_CAPACITY)
    ensures RingSound(Ringed(ring, id, RING_CAPACITY), Known(ring, known, id, RING_CAPACITY), RING_CAPACITY)
    ensures Ringed(ring, id, RING_CAPACITY) == LastOf(start + (noted + [id]), RING_CAPACITY)
  {
    RingStep(ring, known, id, RING_CAPACITY);
    LastOfLast(start + noted, [id], RING_CAPACITY);
    assert start + (noted + [id]) == start + noted + [id];
  }

  /** Evidence with an id that was noted is refused, with no effect at all, until 8192 further ids
      have been noted. */
  lemma RefusedWhileNoted(s: State, first: Evidence, ops: seq<Op>, again: Evidence)
    requires RingSound(s.ring, s.known, RING_CAPACITY) && NoteStatus(s, first.id) == Ok && again.id == first.id
    requires var s1 := DoIngest(s, first).0; LegalRun(s1, ops) && |NotedIds(s1, ops)| < 8192
    ensures var after := Run(DoIngest(s, first).0, ops); DoIngest(after, again) == (after, Answer(Status.Cancelled))
  {
    var s1 := DoIngest(s, first).0;
    NotedOnce(s, first);
    RingIsLast(s1, ops);
    StillThere(s1.ring, NotedIds(s1, ops), first.id);
    KnownIsRefused(Run(s1, ops), again);
  }

  lemma NotedOnce(s: State, e: Evidence)
    requires RingSound(s.ring, s.known, RING_CAPACITY) && NoteStatus(s, e.id) == Ok
    ensures var s1 := DoIngest(s, e).0;
      && RingSound(s1.ring, s1.known, RING_CAPACITY) && s1.ring != [] && s1.ring[|s1.ring| - 1] == e.id
  {
    RingStep(s.ring, s.known, e.id, RING_CAPACITY);
    var s1 := DoIngest(s, e).0;
    assert s1.ring == Noted(s, e.id).ring && s1.known == Noted(s, e.id).known;
  }

  lemma StillThere(ring: seq<U64>, noted: seq<U64>, id: U64)
    requires ring != [] && ring[|ring| - 1] == id && |noted| < RING_CAPACITY
    ensures id in Elements(LastOf(ring + noted, RING_CAPACITY))
  {
    AmongLast(ring + noted, |ring| - 1, RING_CAPACITY);
  }

  lemma KnownIsRefused(s: State, e: Evidence)
    requires e.id in s.known && e.id != 0
    ensures DoIngest(s, e) == (s, Answer(Status.Cancelled))
  {}

  /** Within one generation of an objective, through any run without a load, the objective's own
      memory holds exactly the last 4096 ids it was given. */
  lemma RecentOverRun(s: State, ops: seq<Op>, id: U64, gen: U64)
    requires LegalRun(s, ops) && NoLoad(ops) && InGeneration(Slot(s.accs, id), gen)
    requires Every(s.contracts, OneGeneration(id, gen)) && AllBring(s, ops, OneGeneration(id, gen))
    requires RingSound(RecentOf(Slot(s.accs, id)), RecentSetOf(Slot(s.accs, id)), RECENT_CAPACITY)
    ensures var slot, after := Slot(s.accs, id), Slot(Run(s, ops).accs, id);
      && InGeneration(after, gen) && RingSound(RecentOf(after), RecentSetOf(after), RECENT_CAPACITY)
      && RecentOf(after) == LastOf(RecentOf(slot) + Remembered(slot, RunUpdates(s, ops, id)), 4096)
  {
    GenerationOverRun(s, ops, id, gen);
    RecentIsLast(Slot(s.accs, id), RunUpdates(s, ops, id), gen);
    RunIsLife(s, ops, id);
  }

  lemma GenerationOverRun(s: State, ops: seq<Op>, id: U64, gen: U64)
    requires LegalRun(s, ops) && NoLoad(ops)
    requires Every(s.contracts, OneGeneration(id, gen)) && AllBring(s, ops, OneGeneration(id, gen))
    ensures AllOfGeneration(RunUpdates(s, ops, id), gen)
  {
    RunUpdatesCaused(s, ops, id, OneGeneration(id, gen));
    var us := RunUpdates(s, ops, id);
    forall i | 0 <= i < |us| ensures Generation(us[i], gen) {
      assert CausedBySome(us[i], ops, id, OneGeneration(id, gen));
    }
  }

  /** The ring and the set of every accumulator hold the same ids, without repeats and within
      capacity, in every state that a run reaches. */
  lemma RecentSoundAlways(ops: seq<Op>, id: U64)
    requires LegalRun(Initial, ops)
    ensures var accs := Run(Initial, ops).accs;
      id in accs ==> RingSound(accs[id].recent, accs[id].recentSet, RECENT_CAPACITY)
  {
    LifeRingSound(None, RunUpdates(Initial, ops, id));
    RunIsLife(Initial, ops, id);
  }

  // ----- Budgets -----

  /** The ledger of one objective, kept from outside: by the calls made and the answers given. */
  function Audit(l: Option<Ledger>, s: State, op: Op, id: U64): Option<Ledger>
    requires Legal(s, op)
  {
    match op
    case SetBudget(k, total, window) =>
      if k == id && Step(s, op).1 == Answer(Ok) then Some(Ledger(total, if window < 0 then 0 else window, 0, 0)) else l
    case ViolationEvent(k) =>
      if k == id && Step(s, op).1 == Answer(Ok) && l.Some? then Some(l.value.(events := l.value.events + 1)) else l
    case Evaluate(_, _, now, _) =>
      if Chosen(s, op).Some? && FirstIn(Chosen(s, op).value.objectives, id).Some? then RolledLedger(l, now) else l
    case _ => l
  }

  function RolledLedger(l: Option<Ledger>, now: I64): Option<Ledger> {
    if l.Some? && l.value.window > 0 && now - l.value.start >= l.value.window
    then Some(l.value.(events := 0, start := now))
    else l
  }

  function AuditRun(l: Option<Ledger>, s: State, ops: seq<Op>, id: U64): Option<Ledger>
    requires LegalRun(s, ops)
  {
    if ops == [] then l
    else
      var past, op := ops[..|ops| - 1], ops[|ops| - 1];
      Audit(AuditRun(l, s, past, id), Run(s, past), op, id)
  }

  predicate KeepsBooks(u: Update) {
    !u.Grant? && !u.Charge? && !u.Assess? && !u.Loads()
  }

  lemma {:induction false} BooksKept(l: Option<Ledger>, us: seq<Update>)
    requires forall i {:trigger us[i]} :: 0 <= i < |us| ==> KeepsBooks(us[i])
    ensures Books(l, us) == l
  {
    if us != [] {
      var past := us[..|us| - 1];
      assert forall i :: 0 <= i < |past| ==> past[i] == us[i];
      BooksKept(l, past);
      assert KeepsBooks(us[|us| - 1]);
    }
  }

  lemma BooksSnoc(l: Option<Ledger>, us: seq<Update>, u: Update)
    ensures Books(l, us + [u]) == Book(Books(l, us), u)
  {
    assert (us + [u])[..|us|] == us;
  }

  lemma {:induction false} FirstInSnoc(os: seq<Objective>, id: U64)
    requires os != []
    ensures FirstIn(os, id).Some? <==> FirstIn(os[..|os| - 1], id).Some? || os[|os| - 1].id == id
  {
    if |os| > 1 {
      var rest := os[1..];
      FirstInSnoc(rest, id);
      assert rest[..|rest| - 1] == os[..|os| - 1][1..];
    }
  }

  lemma {:induction false} AssessedBooks(l: Option<Ledger>, os: seq<Objective>, now: I64, id: U64)
    ensures Books(l, Of(Assessments(os, now), id)) == if FirstIn(os, id).Some? then RolledLedger(l, now) else l
  {
    if os != [] {
      var past, o := os[..|os| - 1], os[|os| - 1];
      AssessedBooks(l, past, now, id);
      FirstInSnoc(os, id);
      var us := Of(Assessments(past, now), id);
      OfSnoc(Assessments(past, now), Touch(o.id, Assess(o, now)), id);
      if o.id == id {
        AssessedTwice(l, us, o, now, FirstIn(past, id).Some?);
      }
    }
  }

  lemma AssessedTwice(l: Option<Ledger>, us: seq<Update>, o: Objective, now: I64, before: bool)
    requires Books(l, us) == if before then RolledLedger(l, now) else l
    ensures Books(l, us + [Assess(o, now)]) == RolledLedger(l, now)
  {
    BooksSnoc(l, us, Assess(o, now));
  }

  lemma {:induction false} LookupsOpen(t: Table<Contract>, id: U64, k: U64)
    ensures var us := Of(Lookups(t, id), k);
      && (k != id ==> us == []) && (k == id ==> |us| == |Lookups(t, id)|)
      && forall i {:trigger us[i]} :: 0 <= i < |us| ==> us[i].Open?
  {
    if t != [] {
      var past, o := t[..|t| - 1], FirstIn(t[|t| - 1].value.objectives, id);
      LookupsOpen(past, id, k);
      if o.Some? {
        OfSnoc(Lookups(past, id), Touch(id, Open(o.value)), k);
      }
    }
  }

  lemma {:induction false} OpensKeepBudget(slot: Option<Accumulator>, us: seq<Update>)
    requires forall i {:trigger us[i]} :: 0 <= i < |us| ==> us[i].Open?
    ensures BudgetOf(Life(slot, us)) == BudgetOf(slot)
  {
    if us != [] {
      var past := us[..|us| - 1];
      assert forall i :: 0 <= i < |past| ==> past[i] == us[i];
      OpensKeepBudget(slot, past);
      assert us[|us| - 1].Open?;
    }
  }

  lemma ViolationAudited(s: State, l: Option<Ledger>, k: U64, id: U64)
    requires Agrees(BudgetOf(Slot(s.accs, id)), l)
    ensures Books(l, Updates(s, ViolationEvent(k), id))
         == if k == id && DoViolation(s, k).1 == Answer(Ok) && l.Some? then Some(l.value.(events := l.value.events + 1)) else l
  {
    ViolationBooked(s, l, k, id);
    if k == id {
      ViolationAnswered(s, k);
    }
  }

  lemma ViolationBooked(s: State, l: Option<Ledger>, k: U64, id: U64)
    ensures Books(l, Updates(s, ViolationEvent(k), id))
         == if k == id && Lookups(s.contracts, k) != [] then Book(l, Charge) else l
  {
    var ts := Lookups(s.contracts, k);
    if ts != [] {
      LookupsOpen(s.contracts, k, id);
      OfSnoc(ts, Touch(k, Charge), id);
      BooksKept(l, Of(ts, id));
      if k == id {
        BooksSnoc(l, Of(ts, id), Charge);
      }
    }
  }

  lemma ViolationAnswered(s: State, id: U64)
    ensures DoViolation(s, id).1 == Answer(Ok) <==> Lookups(s.contracts, id) != [] && BudgetOf(Slot(s.accs, id)).Some?
  {
    var ts := Lookups(s.contracts, id);
    LookupsOpen(s.contracts, id, id);
    TouchAllAt(s.accs, ts, id);
    OpensKeepBudget(Slot(s.accs, id), Of(ts, id));
  }

  lemma GrantAudited(s: State, l: Option<Ledger>, k: U64, total: I64, window: I64, id: U64)
    ensures Books(l, Updates(s, SetBudget(k, total, window), id))
         == if k == id && DoSetBudget(s, k, total, window).1 == Answer(Ok)
            then Some(Ledger(total, if window < 0 then 0 else window, 0, 0)) else l
  {
    GrantAnswered(s, k, total, window);
    var def := Definition(s.contracts, k);
    if def.Some? {
      GrantBooked(l, Touch(k, Grant(def.value, total, window)), id);
    }
  }

  lemma GrantAnswered(s: State, k: U64, total: I64, window: I64)
    ensures DoSetBudget(s, k, total, window).1 == Answer(Ok) <==> Definition(s.contracts, k).Some? && total >= 0
  {}

  lemma GrantBooked(l: Option<Ledger>, t: Touch, id: U64)
    ensures Books(l, Of([t], id)) == if t.id == id then Book(l, t.update) else l
  {
    OfOne(t, id);
    BooksSnoc(l, [], t.update);
    assert [] + [t.update] == [t.update];
  }

  /** One call leaves the books as the audit has them. */
  lemma BooksAreAudited(s: State, op: Op, id: U64, l: Option<Ledger>)
    requires Legal(s, op) && !op.Load? && Agrees(BudgetOf(Slot(s.accs, id)), l)
    ensures Books(l, Updates(s, op, id)) == Audit(l, s, op, id)
  {
    if op.ViolationEvent? {
      ViolationAudited(s, l, op.id, id);
    } else if op.SetBudget? {
      GrantAudited(s, l, op.id, op.total, op.window, id);
    } else if op.Evaluate? {
      if Chosen(s, op).Some? {
        AssessedBooks(l, Chosen(s, op).value.objectives, op.now, id);
      }
    } else {
      OtherBooks(s, op, id, l);
    }
  }

  lemma OtherBooks(s: State, op: Op, id: U64, l: Option<Ledger>)
    requires !op.Load? && !op.ViolationEvent? && !op.SetBudget? && !op.Evaluate?
    ensures Books(l, Updates(s, op, id)) == l
  {
    UpdatesCaused(s, op, id, Any());
    var us := Updates(s, op, id);
    forall i | 0 <= i < |us| ensures KeepsBooks(us[i]) {
      assert Caused(us[i], op, id, Any());
    }
    BooksKept(l, us);
  }

  lemma NoLoadUpdates(s: State, op: Op, id: U64)
    requires !op.Load?
    ensures NoneLoads(Updates(s, op, id))
  {
    UpdatesCaused(s, op, id, Any());
    var us := Updates(s, op, id);
    forall i | 0 <= i < |us| ensures !us[i].Loads() {
      assert Caused(us[i], op, id, Any());
    }
  }

  /** Budget accounting over any interleaving without a load: what is consumed is the number of
      violation events answered Ok since the budget was set or an evaluation rolled it over, up to the
      largest machine integer; objective generations do not matter. */
  lemma {:induction false} BudgetIsAudited(s: State, ops: seq<Op>, id: U64, l: Option<Ledger>)
    requires LegalRun(s, ops) && NoLoad(ops) && Agrees(BudgetOf(Slot(s.accs, id)), l)
    ensures Agrees(BudgetOf(Slot(Run(s, ops).accs, id)), AuditRun(l, s, ops, id))
  {
    if ops != [] {
      var past, op := ops[..|ops| - 1], ops[|ops| - 1];
      assert forall i :: 0 <= i < |past| ==> past[i] == ops[i];
      BudgetIsAudited(s, past, id, l);
      var s1, l1 := Run(s, past), AuditRun(l, s, past, id);
      NoLoadUpdates(s1, op, id);
      BudgetFollowsLedger(Slot(s1.accs, id), l1, Updates(s1, op, id));
      BooksAreAudited(s1, op, id, l1);
      StepUpdates(s1, op, id);
    }
  }

  // ----- Hysteresis -----

  /** Definitions of objective `id` all have generation `gen` and limits `l`. */
  ghost function OneLimit(id: U64, gen: U64, l: Limits): Objective -> bool {
    (o: Objective) => o.id == id ==> o.gen == gen && LimitsOf(o) == l
  }

  /** Over any run that keeps the generation and the limits of an objective, from a start that is not
      latched: its noted state is Violating exactly when some evaluation saw a breach and since then
      all saw usable evidence and none saw a clear measurement. */
  lemma HysteresisOverRun(s: State, ops: seq<Op>, id: U64, gen: U64, l: Limits)
    requires LegalRun(s, ops) && NoLoad(ops) && InGeneration(Slot(s.accs, id), gen)
    requires !StateOf(Slot(s.accs, id)).Violating? && !StateOf(Slot(s.accs, id)).Recovering?
    requires Every(s.contracts, OneLimit(id, gen, l)) && AllBring(s, ops, OneLimit(id, gen, l))
    ensures StateOf(Slot(Run(s, ops).accs, id)).Violating?
      <==> Latched(l, Sightings(Slot(s.accs, id), RunUpdates(s, ops, id)))
  {
    ConstantOverRun(s, ops, id, gen, l);
    HysteresisOverLife(Slot(s.accs, id), RunUpdates(s, ops, id), gen, l);
    RunIsLife(s, ops, id);
  }

  /** The same by the numbers: exactly when some evaluation measured beyond the breach threshold of `o`, and
      since then all had usable evidence and none measured inside. */
  lemma ViolatingOverRun(s: State, ops: seq<Op>, id: U64, gen: U64, o: Objective)
    requires LegalRun(s, ops) && NoLoad(ops) && InGeneration(Slot(s.accs, id), gen)
    requires !StateOf(Slot(s.accs, id)).Violating? && !StateOf(Slot(s.accs, id)).Recovering?
    requires Every(s.contracts, OneLimit(id, gen, LimitsOf(o))) && AllBring(s, ops, OneLimit(id, gen, LimitsOf(o)))
    ensures StateOf(Slot(Run(s, ops).accs, id)).Violating?
      <==> exists i: nat :: BeyondSince(o, Sightings(Slot(s.accs, id), RunUpdates(s, ops, id)), i)
  {
    HysteresisOverRun(s, ops, id, gen, LimitsOf(o));
    LatchedByNumbers(o, Sightings(Slot(s.accs, id), RunUpdates(s, ops, id)));
  }

  /** In every state that a run reaches, loads included, no objective is noted as AtRisk, Recovering or
      Suspended. */
  lemma StatesProduced(ops: seq<Op>, id: U64)
    requires LegalRun(Initial, ops)
    ensures !Unproduced(StateOf(Slot(Run(Initial, ops).accs, id)))
  {
    LifeProduces(None, RunUpdates(Initial, ops, id));
    RunIsLife(Initial, ops, id);
  }

  /** No evaluation that a run leads to reports one of them, of an objective or overall. */
  lemma StatesReported(ops: seq<Op>, op: Op, k: nat)
    requires LegalRun(Initial, ops) && op.Evaluate? && Legal(Run(Initial, ops), op)
    requires Step(Run(Initial, ops), op).1.Evaluated?
    ensures var ev := Step(Run(Initial, ops), op).1.evaluation;
      !Unproduced(ev.compliance) && (k < |ev.judgements| ==> !Unproduced(ev.judgements[k].state))
  {
    var s := Run(Initial, ops);
    EvaluationParts(s, op);
    var os := Chosen(s, op).value.objectives;
    var js := JudgeAll(s.accs, os, op.now);
    forall i | 0 <= i < |js| ensures !Unproduced(js[i].state) {
      StatesProduced(ops, os[i].id);
      JudgedProduced(s.accs, os, op.now, i);
    }
    if Decide(js).binding.Some? {
      BindingNeedsEvidence(js);
    }
  }

  lemma JudgedProduced(accs: map<U64, Accumulator>, os: seq<Objective>, now: I64, k: nat)
    requires k < |os| && !Unproduced(StateOf(Slot(accs, os[k].id)))
    ensures !Unproduced(JudgeAll(accs, os, now)[k].state)
  {
    var ts := Assessments(os[..k], now);
    TouchAllAt(accs, ts, os[k].id);
    LifeProduces(Slot(accs, os[k].id), Of(ts, os[k].id));
    JudgeAllAt(accs, os, now, k);
    JudgementProduced(JudgedAt(accs, os, now, k), os[k], now);
  }

  lemma JudgementProduced(acc: Accumulator, o: Objective, now: I64)
    requires !Unproduced(acc.lastState)
    ensures !Unproduced(JudgementOn(acc, o, now).state)
  {}

  lemma ConstantOverRun(s: State, ops: seq<Op>, id: U64, gen: U64, l: Limits)
    requires LegalRun(s, ops) && NoLoad(ops)
    requires Every(s.contracts, OneLimit(id, gen, l)) && AllBring(s, ops, OneLimit(id, gen, l))
    ensures AllConstant(RunUpdates(s, ops, id), gen, l)
  {
    RunUpdatesCaused(s, ops, id, OneLimit(id, gen, l));
    var us := RunUpdates(s, ops, id);
    forall i | 0 <= i < |us| ensures Constant(us[i], gen, l) {
      assert CausedBySome(us[i], ops, id, OneLimit(id, gen, l));
    }
  }

  // ----- Recovery -----

  /** The time of the last recovery event of a phase that was answered Ok, or else the one the
      accumulator started with. */
  function LastReached(start: Option<int>, s: State, ops: seq<Op>, id: U64, phase: Phase): Option<int>
    requires LegalRun(s, ops)
  {
    if ops == [] then start
    else
      var past, op := ops[..|ops| - 1], ops[|ops| - 1];
      if op.RecoveryEvent? && op.id == id && op.phase == phase
         && DoRecovery(Run(s, past), id, phase, op.now).1 == Answer(Ok)
      then Some(op.now)
      else LastReached(start, s, past, id, phase)
  }

  lemma {:induction false} EventsConcat(start: Option<int>, us: seq<Update>, vs: seq<Update>, phase: Phase)
    ensures LastEvent(start, us + vs, phase) == LastEvent(LastEvent(start, us, phase), vs, phase)
  {
    if vs == [] {
      assert us + vs == us;
    } else {
      assert (us + vs)[..|us + vs| - 1] == us + vs[..|vs| - 1];
      EventsConcat(start, us, vs[..|vs| - 1], phase);
    }
  }

  lemma {:induction false} NoEvents(start: Option<int>, us: seq<Update>, phase: Phase)
    requires forall i {:trigger us[i]} :: 0 <= i < |us| ==> !(us[i].Reach? && us[i].phase == phase)
    ensures LastEvent(start, us, phase) == start
  {
    if us != [] {
      var past := us[..|us| - 1];
      assert forall i :: 0 <= i < |past| ==> past[i] == us[i];
      NoEvents(start, past, phase);
      assert !(us[|us| - 1].Reach? && us[|us| - 1].phase == phase);
    }
  }

  lemma ReachedOnce(start: Option<int>, s: State, op: Op, id: U64, phase: Phase)
    ensures LastEvent(start, Updates(s, op, id), phase)
         == if op.RecoveryEvent? && op.id == id && op.phase == phase && DoRecovery(s, id, phase, op.now).1 == Answer(Ok)
            then Some(op.now) else start
  {
    if op.RecoveryEvent? && op.id == id && op.phase == phase {
      var def := Definition(s.contracts, id);
      if def.Some? {
        var t := Touch(id, Update.Reach(def.value, phase, op.now));
        OfOne(t, id);
        EventSnoc(start, [], t.update, phase);
        assert [] + [t.update] == [t.update];
      }
    } else {
      NotReached(start, s, op, id, phase);
    }
  }

  lemma NotReached(start: Option<int>, s: State, op: Op, id: U64, phase: Phase)
    requires !(op.RecoveryEvent? && op.id == id && op.phase == phase)
    ensures LastEvent(start, Updates(s, op, id), phase) == start
  {
    EventsCaused(s, op, id, phase);
    NoEvents(start, Updates(s, op, id), phase);
  }

  lemma EventsCaused(s: State, op: Op, id: U64, phase: Phase)
    requires !(op.RecoveryEvent? && op.id == id && op.phase == phase)
    ensures var us := Updates(s, op, id);
      forall i {:trigger us[i]} :: 0 <= i < |us| ==> !(us[i].Reach? && us[i].phase == phase)
  {
    var us := Updates(s, op, id);
    if op.Load? {
      LoadCaused(s, op.durable, id, Any());
    } else {
      UpdatesCaused(s, op, id, Any());
    }
    forall i | 0 <= i < |us| ensures !(us[i].Reach? && us[i].phase == phase) {
      assert Caused(us[i], op, id, Any());
    }
  }

  lemma {:induction false} EventsAreCalls(start: Option<int>, s: State, ops: seq<Op>, id: U64, phase: Phase)
    requires LegalRun(s, ops)
    ensures LastEvent(start, RunUpdates(s, ops, id), phase) == LastReached(start, s, ops, id, phase)
  {
    if ops != [] {
      var past, op := ops[..|ops| - 1], ops[|ops| - 1];
      EventsAreCalls(start, s, past, id, phase);
      EventsConcat(start, RunUpdates(s, past, id), Updates(Run(s, past), op, id), phase);
      ReachedOnce(LastEvent(start, RunUpdates(s, past, id), phase), Run(s, past), op, id, phase);
    }
  }

  /** What a recovery objective measures after any run that keeps its generation: from the last failure
      to the last verification, or else to the last restoration, or else to now, in whichever order
      these were recorded. */
  lemma RecoveryOverRun(s: State, ops: seq<Op>, id: U64, gen: U64, now: int)
    requires LegalRun(s, ops) && NoLoad(ops) && InGeneration(Slot(s.accs, id), gen)
    requires Every(s.contracts, OneGeneration(id, gen)) && AllBring(s, ops, OneGeneration(id, gen))
    ensures var r := RecoveryOf(Slot(s.accs, id));
      var failed := LastReached(Mark(r, Authoritative), s, ops, id, Authoritative);
      var restored := LastReached(Mark(r, Restored), s, ops, id, Restored);
      var verified := LastReached(Mark(r, Verified), s, ops, id, Verified);
      RecoveryOf(Slot(Run(s, ops).accs, id)).Lasted(now)
      == if failed.None? then 0
         else (if verified.Some? then verified.value else if restored.Some? then restored.value else now) - failed.value
  {
    var r := RecoveryOf(Slot(s.accs, id));
    GenerationOverRun(s, ops, id, gen);
    RunIsLife(s, ops, id);
    RecoveryOverLife(Slot(s.accs, id), RunUpdates(s, ops, id), gen, now);
    EventsAreCalls(Mark(r, Authoritative), s, ops, id, Authoritative);
    EventsAreCalls(Mark(r, Restored), s, ops, id, Restored);
    EventsAreCalls(Mark(r, Verified), s, ops, id, Verified);
  }

  // ----- The age of evidence -----

  /** In every evaluation that any run leads to, loads included: each sample behind a definite verdict
      on a sliding-window objective is from no later than now, and younger than its freshness limit
      and a window, or than two windows where no limit is set. */
  lemma AgeBoundOverRun(ops: seq<Op>, op: Op, k: nat, i: nat)
    requires LegalRun(Initial, ops) && op.Evaluate? && Chosen(Run(Initial, ops), op).Some?
    requires k < |Chosen(Run(Initial, ops), op).value.objectives|
    requires var s := Run(Initial, ops);
      var acc := JudgedAt(s.accs, Chosen(s, op).value.objectives, op.now, k);
      && UsesWindow(acc.def.dim) && acc.def.windowType.Sliding? && acc.def.windowDuration > 0
      && Observe(acc, op.now).Usable? && i < |acc.window.samples|
    ensures var s := Run(Initial, ops);
      var acc := JudgedAt(s.accs, Chosen(s, op).value.objectives, op.now, k);
      0 <= op.now - acc.window.samples[i].time
        < (if acc.def.freshnessTtl > 0 then acc.def.freshnessTtl else acc.def.windowDuration) + acc.def.windowDuration
  {
    var s := Run(Initial, ops);
    var os := Chosen(s, op).value.objectives;
    WindowsSoundAlways(ops, os[k].id);
    JudgedSound(s.accs, os, op.now, k);
    AgeBound(JudgedAt(s.accs, os, op.now, k), op.now, i);
  }

  lemma WindowsSoundAlways(ops: seq<Op>, id: U64)
    requires LegalRun(Initial, ops)
    ensures SlotWindowSound(Slot(Run(Initial, ops).accs, id))
  {
    LifeWindowSound(None, RunUpdates(Initial, ops, id));
    RunIsLife(Initial, ops, id);
  }

  lemma JudgedSound(accs: map<U64, Accumulator>, os: seq<Objective>, now: I64, k: nat)
    requires k < |os| && SlotWindowSound(Slot(accs, os[k].id))
    ensures WindowSound(JudgedAt(accs, os, now, k))
  {
    var ts := Assessments(os[..k], now);
    TouchAllAt(accs, ts, os[k].id);
    LifeWindowSound(Slot(accs, os[k].id), Of(ts, os[k].id));
    OpenedWindowSound(Slot(TouchAll(accs, ts), os[k].id), os[k]);
  }

  // ----- Predictions -----

  /** In every evaluation that any run leads to, a window-valued objective whose held samples never
      rise over time predicts no risk. */
  lemma NoRiskOverRun(ops: seq<Op>, op: Op, k: nat, measured: real)
    requires LegalRun(Initial, ops) && op.Evaluate? && Chosen(Run(Initial, ops), op).Some?
    requires k < |Chosen(Run(Initial, ops), op).value.objectives|
    requires var s := Run(Initial, ops);
      var os := Chosen(s, op).value.objectives;
      UsesWindow(os[k].dim) && NeverRises(JudgedAt(s.accs, os, op.now, k).window.samples)
    ensures var s := Run(Initial, ops);
      var os := Chosen(s, op).value.objectives;
      PredictRisk(os[k], JudgedAt(s.accs, os, op.now, k), op.now, measured) == NoRisk
  {
    var s := Run(Initial, ops);
    var os := Chosen(s, op).value.objectives;
    WindowsSoundAlways(ops, os[k].id);
    JudgedSound(s.accs, os, op.now, k);
    QuietPrediction(os[k], JudgedAt(s.accs, os, op.now, k), op.now, measured);
  }

  lemma QuietPrediction(o: Objective, acc: Accumulator, now: int, measured: real)
    requires UsesWindow(o.dim) && WindowSound(acc) && NeverRises(acc.window.samples)
    ensures PredictRisk(o, acc, now, measured) == NoRisk
  {
    var h :| Holds(acc.window, h);
    NoRiskWithoutRise(acc.window, h, o.windowDuration, measured, LimitsOf(o).breach);
  }

  // ----- Evidence counts once -----

  /** Evidence that an objective has been given is not taken in again, by whatever way it comes back,
      until 4096 further records have been remembered there at the same generation: not even when the
      fabric's own ring has forgotten it. */
  lemma TakenOnce(s: State, ops: seq<Op>, id: U64, gen: U64, again: Evidence)
    requires LegalRun(s, ops) && NoLoad(ops) && id in s.accs && s.accs[id].def.gen == gen
    requires Every(s.contracts, OneGeneration(id, gen)) && AllBring(s, ops, OneGeneration(id, gen))
    requires RingSound(s.accs[id].recent, s.accs[id].recentSet, RECENT_CAPACITY)
    requires s.accs[id].recent != [] && s.accs[id].recent[|s.accs[id].recent| - 1] == again.id && again.objectiveId == id
    requires |Remembered(Slot(s.accs, id), RunUpdates(s, ops, id))| < 4096
    ensures var after := Run(s, ops);
      DoIngest(after, again).1 != Answer(Ok) && Slot(DoIngest(after, again).0.accs, id) == Slot(after.accs, id)
  {
    RecentAfterRun(s, ops, id, gen);
    EveryRun(s, ops, OneGeneration(id, gen));
    RecentIsNotTaken(Run(s, ops), id, gen, again);
  }

  lemma RecentAfterRun(s: State, ops: seq<Op>, id: U64, gen: U64)
    requires LegalRun(s, ops) && NoLoad(ops) && id in s.accs && s.accs[id].def.gen == gen && s.accs[id].recent != []
    requires Every(s.contracts, OneGeneration(id, gen)) && AllBring(s, ops, OneGeneration(id, gen))
    requires RingSound(s.accs[id].recent, s.accs[id].recentSet, RECENT_CAPACITY)
    requires |Remembered(Slot(s.accs, id), RunUpdates(s, ops, id))| < RECENT_CAPACITY
    ensures var accs := Run(s, ops).accs;
      && id in accs && accs[id].def.gen == gen
      && s.accs[id].recent[|s.accs[id].recent| - 1] in accs[id].recentSet
  {
    RecentOverRun(s, ops, id, gen);
    LastRemembered(s.accs[id].recent, Remembered(Slot(s.accs, id), RunUpdates(s, ops, id)), Slot(Run(s, ops).accs, id));
  }

  lemma LastRemembered(recent: seq<U64>, more: seq<U64>, after: Option<Accumulator>)
    requires recent != [] && |more| < RECENT_CAPACITY && RingSound(RecentOf(after), RecentSetOf(after), RECENT_CAPACITY)
    requires RecentOf(after) == LastOf(recent + more, RECENT_CAPACITY)
    ensures after.Some? && recent[|recent| - 1] in after.value.recentSet
  {
    AmongLast(recent + more, |recent| - 1, RECENT_CAPACITY);
  }

  lemma RecentIsNotTaken(s: State, id: U64, gen: U64, e: Evidence)
    requires id in s.accs && s.accs[id].def.gen == gen && e.objectiveId == id && e.id in s.accs[id].recentSet
    requires Every(s.contracts, OneGeneration(id, gen))
    ensures DoIngest(s, e).1 != Answer(Ok) && Slot(DoIngest(s, e).0.accs, id) == Slot(s.accs, id)
  {
    EveryFlat(s.contracts, OneGeneration(id, gen));
    NewestFits(Objectives(s.contracts), id, OneGeneration(id, gen));
    var def := Definition(s.contracts, id);
    if NoteStatus(s, e.id) == Ok && FenceStatus(s, e) == Ok {
      SeenIsRefused(s.accs[id], def.value, e);
      var t := Touch(id, Take(def.value, e));
      TouchAllAt(s.accs, [t], id);
      OfOne(t, id);
      LifeOne(Slot(s.accs, id), t.update);
    }
  }

  lemma LifeOne(slot: Option<Accumulator>, u: Update)
    ensures Life(slot, [u]) == Apply(slot, u)
  {
    assert [u][..0] == [];
  }
}
