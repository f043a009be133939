/** The life of one objective's accumulator: every update the engine can make to it, and what holds
    over any sequence of updates. */
module Lives {
  import opened Types
  import opened SampleWindows
  import opened Budgets
  import opened Decisions
  import opened Accumulators

  datatype Update =
    | Open(o: Objective)
    | Take(o: Objective, e: Evidence)
    | Reach(o: Objective, phase: Phase, time: I64)
    | Charge
    | Grant(o: Objective, total: I64, window: I64)
    | Assess(o: Objective, now: I64)
    | Cool(until: I64)
    | Restore(o: Objective, snap: ObjectiveSnapshot)
    | Forget
  {
    /** The update looks the accumulator up by the definition `o`. */
    predicate Opens() {
      !Charge? && !Cool? && !Forget?
    }

    predicate Loads() {
      Restore? || Forget?
    }
  }

  function RestoredFrom(acc: Accumulator, snap: ObjectiveSnapshot): Accumulator {
    acc.(budget := if snap.budgetTotal != 0
                   then Some(NewBudget(snap.budgetTotal, snap.budgetWindow).(start := snap.budgetWindowStart)
                             .ConsumeCount(snap.budgetConsumed))
                   else acc.budget,
         lastState := RevalidationRequired,
         lastStateTime := snap.lastStateTime,
         cooldownUntil := snap.cooldownUntil)
  }

  /** What an update makes of an accumulator that the update has opened. */
  function Change(acc: Accumulator, u: Update): Accumulator
    requires u.Opens()
  {
    match u
    case Open(_) => acc
    case Take(o, e) => Absorb(acc, o, e).0
    case Reach(_, phase, time) => acc.(recovery := acc.recovery.Reach(phase, time))
    case Grant(_, total, window) => if total < 0 then acc else acc.(budget := Some(NewBudget(total, window)))
    case Assess(o, now) => Assessed(acc, o, now)
    case Restore(_, snap) => RestoredFrom(acc, snap)
  }

  function Apply(slot: Option<Accumulator>, u: Update): Option<Accumulator> {
    if u.Opens() then Some(Change(Opened(slot, u.o), u))
    else if u.Forget? || slot.None? then None
    else
      var acc := slot.value;
      if u.Cool? then Some(acc.(cooldownUntil := u.until))
      else Some(acc.(budget := if acc.budget.Some? then Some(acc.budget.value.Consume()) else None))
  }

  function Life(slot: Option<Accumulator>, us: seq<Update>): Option<Accumulator> {
    if us == [] then slot else Apply(Life(slot, us[..|us| - 1]), us[|us| - 1])
  }

  lemma {:induction false} LifeConcat(slot: Option<Accumulator>, us: seq<Update>, vs: seq<Update>)
    ensures Life(slot, us + vs) == Life(Life(slot, us), vs)
  {
    if vs == [] {
      assert us + vs == us;
    } else {
      assert (us + vs)[..|us + vs| - 1] == us + vs[..|vs| - 1];
      LifeConcat(slot, us, vs[..|vs| - 1]);
    }
  }

  // ----- Windows: the age of evidence -----

  ghost predicate Reached(w: Window) {
    exists h: seq<Sample> :: Holds(w, h)
  }

  /** The window was built for the definition and filled by ingesting alone. */
  ghost predicate WindowSound(acc: Accumulator) {
    && acc.window.kind == acc.def.windowType && acc.window.interval == acc.def.windowDuration
    && Reached(acc.window)
  }

  ghost predicate SlotWindowSound(slot: Option<Accumulator>) {
    slot.Some? ==> WindowSound(slot.value)
  }

  lemma EmptyReached(o: Objective)
    ensures Reached(WindowFor(o))
  {
    assert Holds(WindowFor(o), []);
  }

  lemma IngestKeepsReached(w: Window, x: Sample)
    requires Reached(w)
    ensures Reached(Ingest(w, x).0)
  {
    var h :| Holds(w, h);
    IngestKeepsBatch(w, h, x);
  }

  lemma IngestKeepsShape(w: Window, x: Sample)
    ensures Ingest(w, x).0.kind == w.kind && Ingest(w, x).0.interval == w.interval
  {}

  lemma PushKeepsReached(acc: Accumulator, time: int, reading: Reading)
    requires Reached(acc.window)
    ensures var acc' := PushSample(acc, time, reading).0;
      && Reached(acc'.window)
      && acc'.window.kind == acc.window.kind && acc'.window.interval == acc.window.interval && acc'.def == acc.def
  {
    if reading.Number? {
      IngestKeepsReached(acc.window, Sample(time, reading.value, acc.nextSeq));
      IngestKeepsShape(acc.window, Sample(time, reading.value, acc.nextSeq));
    }
  }

  lemma OpenedWindowSound(slot: Option<Accumulator>, o: Objective)
    requires SlotWindowSound(slot)
    ensures WindowSound(Opened(slot, o))
  {
    EmptyReached(o);
  }

  lemma AbsorbWindow(acc: Accumulator, o: Objective, e: Evidence)
    ensures var acc' := Absorb(acc, o, e).0;
      && acc'.def == acc.def
      && (acc'.window == acc.window || acc'.window == PushSample(acc, e.time, Doubles.ReadingOf(e.value)).0.window)
  {}

  lemma AbsorbWindowSound(acc: Accumulator, o: Objective, e: Evidence)
    requires WindowSound(acc)
    ensures WindowSound(Absorb(acc, o, e).0)
  {
    AbsorbWindow(acc, o, e);
    PushKeepsReached(acc, e.time, Doubles.ReadingOf(e.value));
  }

  lemma ApplyWindowSound(slot: Option<Accumulator>, u: Update)
    requires SlotWindowSound(slot)
    ensures SlotWindowSound(Apply(slot, u))
  {
    if u.Opens() {
      OpenedWindowSound(slot, u.o);
      if u.Take? {
        AbsorbWindowSound(Opened(slot, u.o), u.o, u.e);
      }
    }
  }

  /** In every life that starts with no accumulator, the window is one that ingesting built. */
  lemma {:induction false} LifeWindowSound(slot: Option<Accumulator>, us: seq<Update>)
    requires SlotWindowSound(slot)
    ensures SlotWindowSound(Life(slot, us))
  {
    if us != [] {
      LifeWindowSound(slot, us[..|us| - 1]);
      ApplyWindowSound(Life(slot, us[..|us| - 1]), us[|us| - 1]);
    }
  }

  predicate UsesWindow(dim: Dimension) {
    dim.Latency? || dim.Throughput? || dim.MemoryPressure?
  }

  /** Evaluation evicts nothing, and still every sample behind a definite verdict on a sliding window
      is young: younger than two windows when no freshness limit is set, and otherwise younger than
      that limit and a window. */
  lemma AgeBound(acc: Accumulator, now: I64, i: nat)
    requires WindowSound(acc) && UsesWindow(acc.def.dim) && acc.def.windowType.Sliding? && acc.def.windowDuration > 0
    requires Observe(acc, now).Usable? && i < |acc.window.samples|
    ensures 0 <= now - acc.window.samples[i].time
    ensures now - acc.window.samples[i].time <
      (if acc.def.freshnessTtl > 0 then acc.def.freshnessTtl else acc.def.windowDuration) + acc.def.windowDuration
  {
    NewestAge(acc, now);
    SpanOfWindow(acc.window, i);
  }

  lemma SpanOfWindow(w: Window, i: nat)
    requires Reached(w) && w.kind.Sliding? && w.interval > 0 && i < |w.samples|
    ensures 0 <= w.samples[|w.samples| - 1].time - w.samples[i].time < w.interval
  {
    var h :| Holds(w, h);
    HeldIsOrdered(w, h);
    if i < |w.samples| - 1 {
      OrderedPair(w.samples, i, |w.samples| - 1);
    }
  }

  lemma NewestAge(acc: Accumulator, now: I64)
    requires UsesWindow(acc.def.dim) && Observe(acc, now).Usable? && acc.def.windowDuration > 0
    ensures acc.window.samples != []
    ensures var age := now - acc.window.samples[|acc.window.samples| - 1].time;
      0 <= age && if acc.def.freshnessTtl > 0 then age <= acc.def.freshnessTtl else age < acc.def.windowDuration
  {}

  // ----- Budgets: the ledger -----

  /** The account of violations that a budget should keep: it counts without bound, and knows
      nothing of objective generations. */
  datatype Ledger = Ledger(total: int, window: int, start: int, events: nat)

  function Book(l: Option<Ledger>, u: Update): Option<Ledger> {
    match u
    case Grant(_, total, window) => if total < 0 then l else Some(Ledger(total, if window < 0 then 0 else window, 0, 0))
    case Charge => if l.Some? then Some(l.value.(events := l.value.events + 1)) else None
    case Assess(_, now) =>
      if l.Some? && l.value.window > 0 && now - l.value.start >= l.value.window
      then Some(l.value.(events := 0, start := now))
      else l
    case _ => l
  }

  function Books(l: Option<Ledger>, us: seq<Update>): Option<Ledger> {
    if us == [] then l else Book(Books(l, us[..|us| - 1]), us[|us| - 1])
  }

  function BudgetOf(slot: Option<Accumulator>): Option<Budget> {
    if slot.Some? then slot.value.budget else None
  }

  predicate Agrees(b: Option<Budget>, l: Option<Ledger>) {
    if b.None? then l.None?
    else
      && l.Some? && l.value.total == b.value.total && l.value.window == b.value.window && l.value.start == b.value.start
      && b.value.consumed == if l.value.events <= MAX_I64 then l.value.events else MAX_I64
  }

  lemma BookStep(slot: Option<Accumulator>, l: Option<Ledger>, u: Update)
    requires Agrees(BudgetOf(slot), l) && !u.Loads()
    ensures Agrees(BudgetOf(Apply(slot, u)), Book(l, u))
  {
    if u.Opens() {
      assert Opened(slot, u.o).budget == BudgetOf(slot);
      match u
      case Take(o, e) => AbsorbKeeps(Opened(slot, o), o, e);
      case _ =>
    }
  }

  lemma AbsorbKeeps(acc: Accumulator, o: Objective, e: Evidence)
    ensures var acc' := Absorb(acc, o, e).0;
      && acc'.budget == acc.budget && acc'.cooldownUntil == acc.cooldownUntil && acc'.def == acc.def
      && acc'.lastState == acc.lastState && acc'.recovery == acc.recovery
  {}

  ghost predicate NoneLoads(us: seq<Update>) {
    forall i {:trigger us[i]} :: 0 <= i < |us| ==> !us[i].Loads()
  }

  /** Budget accounting over any life without a load: the budget is the ledger's, and its count is
      the number of violations since the budget was set or last rolled over, up to the largest
      machine integer. */
  lemma {:induction false} BudgetFollowsLedger(slot: Option<Accumulator>, l: Option<Ledger>, us: seq<Update>)
    requires Agrees(BudgetOf(slot), l) && NoneLoads(us)
    ensures Agrees(BudgetOf(Life(slot, us)), Books(l, us))
  {
    if us != [] {
      var past := us[..|us| - 1];
      assert forall i :: 0 <= i < |past| ==> past[i] == us[i];
      BudgetFollowsLedger(slot, l, past);
      BookStep(Life(slot, past), Books(l, past), us[|us| - 1]);
    }
  }

  /** A count is never negative and a window length never is, whatever was loaded. */
  predicate BudgetSound(b: Option<Budget>) {
    b.Some? ==> b.value.consumed >= 0 && b.value.window >= 0
  }

  lemma {:induction false} LifeBudgetSound(slot: Option<Accumulator>, us: seq<Update>)
    requires BudgetSound(BudgetOf(slot))
    ensures BudgetSound(BudgetOf(Life(slot, us)))
  {
    if us != [] {
      var past, u := us[..|us| - 1], us[|us| - 1];
      LifeBudgetSound(slot, past);
      ApplyBudgetSound(Life(slot, past), u);
    }
  }

  lemma ApplyBudgetSound(slot: Option<Accumulator>, u: Update)
    requires BudgetSound(BudgetOf(slot))
    ensures BudgetSound(BudgetOf(Apply(slot, u)))
  {
    if u.Opens() {
      assert Opened(slot, u.o).budget == BudgetOf(slot);
      match u
      case Take(o, e) => AbsorbKeeps(Opened(slot, o), o, e);
      case _ =>
    }
  }

  // ----- Cooldown -----

  /** The update neither sets a cooldown nor changes the generation. */
  predicate Steady(u: Update, gen: U64) {
    !u.Cool? && !u.Loads() && (u.Opens() ==> u.o.gen == gen)
  }

  ghost predicate AllSteady(us: seq<Update>, gen: U64) {
    forall i {:trigger us[i]} :: 0 <= i < |us| ==> Steady(us[i], gen)
  }

  /** A cooldown lasts through every life that stays within the generation and sets no other. */
  lemma {:induction false} CooldownLasts(slot: Option<Accumulator>, us: seq<Update>, gen: U64)
    requires slot.Some? && slot.value.def.gen == gen && AllSteady(us, gen)
    ensures var after := Life(slot, us);
      after.Some? && after.value.def.gen == gen && after.value.cooldownUntil == slot.value.cooldownUntil
  {
    if us != [] {
      var past, u := us[..|us| - 1], us[|us| - 1];
      assert forall i :: 0 <= i < |past| ==> past[i] == us[i];
      CooldownLasts(slot, past, gen);
      assert Steady(u, gen);
      if u.Take? {
        AbsorbKeeps(Life(slot, past).value, u.o, u.e);
      }
    }
  }

  // ----- Objectives that may not have an accumulator yet -----

  predicate InGeneration(slot: Option<Accumulator>, gen: U64) {
    slot.Some? ==> slot.value.def.gen == gen
  }

  /** What is noted of an objective; without an accumulator, what a new one would say. */
  function StateOf(slot: Option<Accumulator>): ComplianceState {
    if slot.Some? then slot.value.lastState else InsufficientEvidence
  }

  function RecoveryOf(slot: Option<Accumulator>): Recovery {
    if slot.Some? then slot.value.recovery else Recovery(false, false, false, false, false, 0, 0, 0)
  }

  function RecentOf(slot: Option<Accumulator>): seq<U64> {
    if slot.Some? then slot.value.recent else []
  }

  function RecentSetOf(slot: Option<Accumulator>): set<U64> {
    if slot.Some? then slot.value.recentSet else {}
  }

  /** An update that opens an absent accumulator finds a new one. */
  lemma OpensNew(u: Update)
    requires u.Opens()
    ensures Apply(None, u) == Apply(Some(Fresh(u.o, None)), u)
  {}

  // ----- Hysteresis -----

  /** What the evaluations in a life saw, in order. */
  function Sightings(slot: Option<Accumulator>, us: seq<Update>): seq<Observation> {
    if us == [] then []
    else
      var past, u := us[..|us| - 1], us[|us| - 1];
      if u.Assess? then Sightings(slot, past) + [Observe(Opened(Life(slot, past), u.o), u.now)]
      else Sightings(slot, past)
  }

  /** The update stays within the generation and judges by the limits `l`. */
  predicate Constant(u: Update, gen: U64, l: Limits) {
    !u.Loads() && (u.Opens() ==> u.o.gen == gen) && (u.Assess? ==> LimitsOf(u.o) == l)
  }

  ghost predicate AllConstant(us: seq<Update>, gen: U64, l: Limits) {
    forall i {:trigger us[i]} :: 0 <= i < |us| ==> Constant(us[i], gen, l)
  }

  /** Whatever else happens between evaluations, the state is what the evaluations alone lead to. */
  lemma {:induction false} StateFollowsSightings(slot: Option<Accumulator>, us: seq<Update>, gen: U64, l: Limits)
    requires InGeneration(slot, gen) && AllConstant(us, gen, l)
    ensures InGeneration(Life(slot, us), gen)
    ensures StateOf(Life(slot, us)) == StateAfter(l, StateOf(slot), Sightings(slot, us))
  {
    if us != [] {
      var past, u := us[..|us| - 1], us[|us| - 1];
      assert forall i :: 0 <= i < |past| ==> past[i] == us[i];
      StateFollowsSightings(slot, past, gen, l);
      assert Constant(u, gen, l);
      SlotSightingStep(Life(slot, past), u, gen, l, StateOf(slot), Sightings(slot, past));
    }
  }

  lemma SlotSightingStep(slot: Option<Accumulator>, u: Update, gen: U64, l: Limits, start: ComplianceState, seen: seq<Observation>)
    requires InGeneration(slot, gen) && Constant(u, gen, l) && StateOf(slot) == StateAfter(l, start, seen)
    ensures InGeneration(Apply(slot, u), gen)
    ensures StateOf(Apply(slot, u))
         == StateAfter(l, start, if u.Assess? then seen + [Observe(Opened(slot, u.o), u.now)] else seen)
  {
    if slot.Some? {
      SightingStep(slot.value, u, gen, l, start, seen);
    } else if u.Opens() {
      OpensNew(u);
      SightingStep(Fresh(u.o, None), u, gen, l, start, seen);
    }
  }

  lemma SightingStep(acc: Accumulator, u: Update, gen: U64, l: Limits, start: ComplianceState, seen: seq<Observation>)
    requires acc.def.gen == gen && Constant(u, gen, l) && acc.lastState == StateAfter(l, start, seen)
    ensures var after := Apply(Some(acc), u);
      && after.Some? && after.value.def.gen == gen
      && after.value.lastState
         == StateAfter(l, start, if u.Assess? then seen + [Observe(Opened(Some(acc), u.o), u.now)] else seen)
  {
    match u
    case Take(o, e) => AbsorbKeeps(acc, o, e);
    case Assess(o, now) => assert (seen + [Observe(acc, now)])[..|seen|] == seen;
    case _ =>
  }

  /** Hysteresis as the engine shows it: from a start that is not latched, the state is Violating
      exactly when some evaluation breached and since then every evaluation had usable evidence and
      none was clear. */
  lemma HysteresisOverLife(slot: Option<Accumulator>, us: seq<Update>, gen: U64, l: Limits)
    requires InGeneration(slot, gen) && AllConstant(us, gen, l)
    requires !StateOf(slot).Violating? && !StateOf(slot).Recovering?
    ensures StateOf(Life(slot, us)).Violating? <==> Latched(l, Sightings(slot, us))
  {
    StateFollowsSightings(slot, us, gen, l);
    ViolatingExactly(l, StateOf(slot), Sightings(slot, us));
  }

  /** The states that nothing produces. */
  predicate Unproduced(state: ComplianceState) {
    state.AtRisk? || state.Recovering? || state.ContractSuspended?
  }

  lemma ApplyProduces(slot: Option<Accumulator>, u: Update)
    requires !Unproduced(StateOf(slot))
    ensures !Unproduced(StateOf(Apply(slot, u)))
  {
    if u.Opens() {
      assert !Unproduced(Opened(slot, u.o).lastState);
      if u.Take? {
        AbsorbKeeps(Opened(slot, u.o), u.o, u.e);
      }
    }
  }

  lemma {:induction false} LifeProduces(slot: Option<Accumulator>, us: seq<Update>)
    requires !Unproduced(StateOf(slot))
    ensures !Unproduced(StateOf(Life(slot, us)))
  {
    if us != [] {
      LifeProduces(slot, us[..|us| - 1]);
      ApplyProduces(Life(slot, us[..|us| - 1]), us[|us| - 1]);
    }
  }

  // ----- Recovery -----

  /** The time at which a recovery last passed a phase, for the phases that are timed. */
  function Mark(r: Recovery, phase: Phase): Option<int> {
    match phase
    case Authoritative => if r.authoritative then Some(r.authoritativeAt) else None
    case Restored => if r.restored then Some(r.restoredAt) else None
    case Verified => if r.verified then Some(r.verifiedAt) else None
    case _ => None
  }

  predicate Timed(phase: Phase) {
    phase.Authoritative? || phase.Restored? || phase.Verified?
  }

  /** The time of the last event of a phase in a life, or else the one it started with. */
  function LastEvent(start: Option<int>, us: seq<Update>, phase: Phase): Option<int> {
    if us == [] then start
    else
      var u := us[|us| - 1];
      if u.Reach? && u.phase == phase then Some(u.time) else LastEvent(start, us[..|us| - 1], phase)
  }

  lemma MarkStep(acc: Accumulator, u: Update, gen: U64, phase: Phase)
    requires acc.def.gen == gen && Generation(u, gen) && Timed(phase)
    ensures var after := Apply(Some(acc), u);
      && after.Some? && after.value.def.gen == gen
      && Mark(after.value.recovery, phase) == if u.Reach? && u.phase == phase then Some(u.time) else Mark(acc.recovery, phase)
  {
    if u.Take? {
      AbsorbKeeps(acc, u.o, u.e);
    }
  }

  lemma SlotMarkStep(slot: Option<Accumulator>, u: Update, gen: U64, phase: Phase)
    requires InGeneration(slot, gen) && Generation(u, gen) && Timed(phase)
    ensures InGeneration(Apply(slot, u), gen) && (u.Opens() ==> Apply(slot, u).Some?)
    ensures Mark(RecoveryOf(Apply(slot, u)), phase)
         == if u.Reach? && u.phase == phase then Some(u.time) else Mark(RecoveryOf(slot), phase)
  {
    if slot.Some? {
      MarkStep(slot.value, u, gen, phase);
    } else if u.Opens() {
      OpensNew(u);
      MarkStep(Fresh(u.o, None), u, gen, phase);
    }
  }

  /** Within a generation the tracker knows the last event of each phase, and nothing ever clears one. */
  lemma {:induction false} MarksFollowEvents(slot: Option<Accumulator>, us: seq<Update>, gen: U64, phase: Phase)
    requires InGeneration(slot, gen) && AllOfGeneration(us, gen) && Timed(phase)
    ensures InGeneration(Life(slot, us), gen)
    ensures Mark(RecoveryOf(Life(slot, us)), phase) == LastEvent(Mark(RecoveryOf(slot), phase), us, phase)
  {
    if us != [] {
      var past, u := us[..|us| - 1], us[|us| - 1];
      assert forall i :: 0 <= i < |past| ==> past[i] == us[i];
      MarksFollowEvents(slot, past, gen, phase);
      assert Generation(u, gen);
      SlotMarkStep(Life(slot, past), u, gen, phase);
    }
  }

  /** What a recovery objective measures over every life within a generation: from the last
      authoritative event to the last verification, whichever came first; without one to the last
      restoration; without either to now; and zero without a failure. */
  lemma RecoveryOverLife(slot: Option<Accumulator>, us: seq<Update>, gen: U64, now: int)
    requires InGeneration(slot, gen) && AllOfGeneration(us, gen)
    ensures var r := RecoveryOf(slot);
      var failed := LastEvent(Mark(r, Authoritative), us, Authoritative);
      var restored := LastEvent(Mark(r, Restored), us, Restored);
      var verified := LastEvent(Mark(r, Verified), us, Verified);
      RecoveryOf(Life(slot, us)).Lasted(now)
      == if failed.None? then 0
         else (if verified.Some? then verified.value else if restored.Some? then restored.value else now) - failed.value
  {
    MarksFollowEvents(slot, us, gen, Authoritative);
    MarksFollowEvents(slot, us, gen, Restored);
    MarksFollowEvents(slot, us, gen, Verified);
  }

  lemma EventSnoc(start: Option<int>, us: seq<Update>, u: Update, phase: Phase)
    ensures LastEvent(start, us + [u], phase)
         == if u.Reach? && u.phase == phase then Some(u.time) else LastEvent(start, us, phase)
  {
    assert (us + [u])[..|us|] == us;
  }

  /** Neither a restoration nor a verification has been recorded. */
  predicate Unended(r: Recovery, us: seq<Update>) {
    LastEvent(Mark(r, Restored), us, Restored).None? && LastEvent(Mark(r, Verified), us, Verified).None?
  }

  /** A failure is measured while it lasts, as the time since it became authoritative, exactly when no
      restoration and no verification preceded it in its generation. */
  lemma FailureIsMeasuredExactly(slot: Option<Accumulator>, us: seq<Update>, gen: U64, u: Update)
    requires InGeneration(slot, gen) && AllOfGeneration(us, gen)
    requires u.Reach? && u.phase.Authoritative? && u.o.gen == gen
    ensures (forall now: int {:trigger RecoveryOf(Life(slot, us + [u])).Lasted(now)} ::
               RecoveryOf(Life(slot, us + [u])).Lasted(now) == now - u.time)
      <==> Unended(RecoveryOf(slot), us)
  {
    var r, after := RecoveryOf(slot), Life(slot, us + [u]);
    FailureEnds(slot, us, gen, u, 0);
    if Unended(r, us) {
      forall now: int ensures RecoveryOf(after).Lasted(now) == now - u.time {
        FailureEnds(slot, us, gen, u, now);
      }
    } else {
      var end := RecoveryOf(after).Lasted(0) + u.time;
      FailureEnds(slot, us, gen, u, end + 1);
      assert RecoveryOf(after).Lasted(end + 1) == end - u.time;
    }
  }

  lemma FailureEnds(slot: Option<Accumulator>, us: seq<Update>, gen: U64, u: Update, now: int)
    requires InGeneration(slot, gen) && AllOfGeneration(us, gen)
    requires u.Reach? && u.phase.Authoritative? && u.o.gen == gen
    ensures var r := RecoveryOf(slot);
      var restored, verified := LastEvent(Mark(r, Restored), us, Restored), LastEvent(Mark(r, Verified), us, Verified);
      RecoveryOf(Life(slot, us + [u])).Lasted(now)
      == (if verified.Some? then verified.value else if restored.Some? then restored.value else now) - u.time
  {
    var r := RecoveryOf(slot);
    assert AllOfGeneration(us + [u], gen);
    RecoveryOverLife(slot, us + [u], gen, now);
    EventSnoc(Mark(r, Authoritative), us, u, Authoritative);
    EventSnoc(Mark(r, Restored), us, u, Restored);
    EventSnoc(Mark(r, Verified), us, u, Verified);
  }

  /** A failure measures no positive duration, however long it goes on, exactly when it comes after a
      recorded verification, or after a recorded restoration with no verification. */
  lemma SecondFailureGoesUnseen(slot: Option<Accumulator>, us: seq<Update>, gen: U64, u: Update)
    requires InGeneration(slot, gen) && AllOfGeneration(us, gen)
    requires u.Reach? && u.phase.Authoritative? && u.o.gen == gen
    ensures var r := RecoveryOf(slot);
      var restored, verified := LastEvent(Mark(r, Restored), us, Restored), LastEvent(Mark(r, Verified), us, Verified);
      (forall now: int {:trigger RecoveryOf(Life(slot, us + [u])).Lasted(now)} ::
         RecoveryOf(Life(slot, us + [u])).Lasted(now) <= 0)
      <==> if verified.Some? then verified.value <= u.time else restored.Some? && restored.value <= u.time
  {
    var after := Life(slot, us + [u]);
    FailureEnds(slot, us, gen, u, u.time + 1);
    var lasted := RecoveryOf(after).Lasted(u.time + 1);
    forall now: int ensures !Unended(RecoveryOf(slot), us) ==> RecoveryOf(after).Lasted(now) == lasted {
      FailureEnds(slot, us, gen, u, now);
    }
  }

  /** A verification recorded for a failure makes it measure its real duration, whatever came before. */
  lemma VerifiedFailureIsMeasured(slot: Option<Accumulator>, us: seq<Update>, gen: U64, u: Update, v: Update, now: int)
    requires InGeneration(slot, gen) && AllOfGeneration(us, gen) && u.Reach? && v.Reach?
    requires u.phase.Authoritative? && u.o.gen == gen && v.phase.Verified? && v.o.gen == gen
    ensures RecoveryOf(Life(slot, us + [u] + [v])).Lasted(now) == v.time - u.time
  {
    var r, ws := RecoveryOf(slot), us + [u];
    assert AllOfGeneration(ws, gen) && AllOfGeneration(ws + [v], gen);
    RecoveryOverLife(slot, ws + [v], gen, now);
    EventSnoc(Mark(r, Authoritative), us, u, Authoritative);
    EventSnoc(Mark(r, Authoritative), ws, v, Authoritative);
    EventSnoc(Mark(r, Verified), ws, v, Verified);
  }

  // ----- Restart: no evidence -----

  /** Nothing has been taken in that a measurement could be made from. */
  predicate Bare(acc: Accumulator) {
    acc.window.samples == [] && acc.account.eligible <= 0 && acc.account.eligibleTime <= 0 && acc.cost == []
  }

  predicate BareSlot(slot: Option<Accumulator>) {
    slot.Some? ==> Bare(slot.value)
  }

  ghost predicate NoneTakes(us: seq<Update>) {
    forall i {:trigger us[i]} :: 0 <= i < |us| ==> !us[i].Take?
  }

  lemma {:induction false} StaysBare(slot: Option<Accumulator>, us: seq<Update>)
    requires BareSlot(slot) && NoneTakes(us)
    ensures BareSlot(Life(slot, us))
  {
    if us != [] {
      var past, u := us[..|us| - 1], us[|us| - 1];
      assert forall i :: 0 <= i < |past| ==> past[i] == us[i];
      StaysBare(slot, past);
      assert !u.Take?;
      StaysBareOnce(Life(slot, past), u);
    }
  }

  lemma StaysBareOnce(slot: Option<Accumulator>, u: Update)
    requires BareSlot(slot) && !u.Take?
    ensures BareSlot(Apply(slot, u))
  {
    if u.Opens() {
      assert BareSlot(Some(Opened(slot, u.o)));
    }
  }

  /** The accumulator is not one of a recovery-time objective, which needs no evidence. */
  predicate NeedsEvidence(slot: Option<Accumulator>) {
    slot.Some? ==> !slot.value.def.dim.RecoveryTime?
  }

  ghost predicate AllNeedEvidence(us: seq<Update>) {
    forall i {:trigger us[i]} :: 0 <= i < |us| && us[i].Opens() ==> !us[i].o.dim.RecoveryTime?
  }

  lemma {:induction false} StaysNeedy(slot: Option<Accumulator>, us: seq<Update>)
    requires NeedsEvidence(slot) && AllNeedEvidence(us)
    ensures NeedsEvidence(Life(slot, us))
  {
    if us != [] {
      var past, u := us[..|us| - 1], us[|us| - 1];
      assert forall i :: 0 <= i < |past| ==> past[i] == us[i];
      StaysNeedy(slot, past);
      assert u.Opens() ==> !u.o.dim.RecoveryTime?;
      NeedyOnce(Life(slot, past), u);
    }
  }

  lemma NeedyOnce(slot: Option<Accumulator>, u: Update)
    requires NeedsEvidence(slot) && (u.Opens() ==> !u.o.dim.RecoveryTime?)
    ensures NeedsEvidence(Apply(slot, u))
  {
    if u.Take? {
      AbsorbKeeps(Opened(slot, u.o), u.o, u.e);
    }
  }

  /** Without samples nothing is stale. */
  lemma BareIsNotStale(acc: Accumulator, now: I64)
    requires Bare(acc)
    ensures Observe(acc, now) != Unusable(true)
  {}

  lemma BareIsUnusable(acc: Accumulator, now: I64)
    requires Bare(acc) && !acc.def.dim.RecoveryTime?
    ensures Observe(acc, now) == Unusable(false)
  {}

  // ----- Duplicate evidence -----

  /** The elements of a sequence, none of which may occur twice. */
  function Elements(s: seq<U64>): set<U64> {
    set x | x in s
  }

  /** No entry is among those before it. */
  predicate NoRepeats(s: seq<U64>) {
    s == [] || (s[|s| - 1] !in s[..|s| - 1] && NoRepeats(s[..|s| - 1]))
  }

  /** A bounded memory of ids: the ring and the set hold the same ids, without repeats. */
  ghost predicate RingSound(ring: seq<U64>, known: set<U64>, capacity: nat) {
    |ring| <= capacity && NoRepeats(ring) && known == Elements(ring)
  }

  function Ringed(ring: seq<U64>, id: U64, capacity: nat): seq<U64> {
    if |ring| >= capacity && ring != [] then ring[1..] + [id] else ring + [id]
  }

  function Known(ring: seq<U64>, known: set<U64>, id: U64, capacity: nat): set<U64> {
    if |ring| >= capacity && ring != [] then known - {ring[0]} + {id} else known + {id}
  }

  lemma RingStep(ring: seq<U64>, known: set<U64>, id: U64, capacity: nat)
    requires RingSound(ring, known, capacity) && capacity >= 1 && id !in known
    ensures RingSound(Ringed(ring, id, capacity), Known(ring, known, id, capacity), capacity)
    ensures Ringed(ring, id, capacity) == LastOf(ring + [id], capacity)
  {
    RingedIsLast(ring, id, capacity);
    assert id !in ring;
    if |ring| >= capacity {
      ElementsRest(ring);
      assert id !in ring[1..];
      ElementsSnoc(ring[1..], id);
    } else {
      ElementsSnoc(ring, id);
    }
  }

  lemma RingedIsLast(ring: seq<U64>, id: U64, capacity: nat)
    requires |ring| <= capacity && capacity >= 1
    ensures Ringed(ring, id, capacity) == LastOf(ring + [id], capacity)
  {
    if |ring| == capacity {
      assert (ring + [id])[1..] == ring[1..] + [id];
    }
  }

  lemma ElementsSnoc(ring: seq<U64>, id: U64)
    requires NoRepeats(ring) && id !in ring
    ensures NoRepeats(ring + [id]) && Elements(ring + [id]) == Elements(ring) + {id}
  {
    assert (ring + [id])[..|ring|] == ring;
  }

  lemma ElementsRest(ring: seq<U64>)
    requires NoRepeats(ring) && ring != []
    ensures NoRepeats(ring[1..]) && Elements(ring[1..]) == Elements(ring) - {ring[0]}
  {
    RestRepeatsNothing(ring);
    assert ring == [ring[0]] + ring[1..];
  }

  lemma {:induction false} RestRepeatsNothing(ring: seq<U64>)
    requires NoRepeats(ring) && ring != []
    ensures NoRepeats(ring[1..]) && ring[0] !in ring[1..]
  {
    if |ring| > 1 {
      var past, last := ring[..|ring| - 1], ring[|ring| - 1];
      RestRepeatsNothing(past);
      assert ring[1..] == past[1..] + [last];
      assert ring[1..][..|past| - 1] == past[1..];
      assert past[0] in past;
    }
  }

  /** Two places hold two ids. */
  lemma {:induction false} RepeatsNothing(s: seq<U64>, i: nat, j: nat)
    requires NoRepeats(s) && i < j < |s|
    ensures s[i] != s[j]
  {
    var past := s[..|s| - 1];
    if j < |past| {
      RepeatsNothing(past, i, j);
    } else {
      assert past[i] in past;
    }
  }

  /** An entry with fewer than `n` newer ones is among the last `n`. */
  lemma AmongLast<T>(h: seq<T>, i: nat, n: nat)
    requires i < |h| <= i + n
    ensures h[i] in LastOf(h, n)
  {
    if |h| > n {
      assert h[|h| - n..][i - (|h| - n)] == h[i];
    }
  }

  lemma LastOfLast<T>(h: seq<T>, t: seq<T>, n: nat)
    ensures LastOf(LastOf(h, n) + t, n) == LastOf(h + t, n)
  {
    if |h| > n {
      var k := |h| - n;
      assert h[k..] + t == (h + t)[k..];
      if |t| > 0 {
        assert (h + t)[k..][|t|..] == (h + t)[k + |t|..];
      }
    }
  }

  /** The id that an update makes an objective remember, if it does. */
  function Added(slot: Option<Accumulator>, u: Update): seq<U64> {
    if u.Take? && u.e.id !in Opened(slot, u.o).recentSet then [u.e.id] else []
  }

  /** The ids that a life of one generation got remembered, in order. */
  function Remembered(slot: Option<Accumulator>, us: seq<Update>): seq<U64> {
    if us == [] then []
    else
      var past := us[..|us| - 1];
      Remembered(slot, past) + Added(Life(slot, past), us[|us| - 1])
  }

  predicate Generation(u: Update, gen: U64) {
    !u.Loads() && (u.Opens() ==> u.o.gen == gen)
  }

  ghost predicate AllOfGeneration(us: seq<Update>, gen: U64) {
    forall i {:trigger us[i]} :: 0 <= i < |us| ==> Generation(us[i], gen)
  }

  lemma AbsorbRemembers(acc: Accumulator, o: Objective, e: Evidence)
    ensures var acc' := Absorb(acc, o, e).0;
      if e.id in acc.recentSet then acc' == acc
      else
        && acc'.recent == Ringed(acc.recent, e.id, RECENT_CAPACITY)
        && acc'.recentSet == Known(acc.recent, acc.recentSet, e.id, RECENT_CAPACITY)
  {}

  /** Within one generation an objective remembers exactly the last 4096 distinct ids it was given:
      the ring and the set agree, and nothing else touches them. */
  lemma RecentIsLast(slot: Option<Accumulator>, us: seq<Update>, gen: U64)
    requires InGeneration(slot, gen) && AllOfGeneration(us, gen)
    requires RingSound(RecentOf(slot), RecentSetOf(slot), RECENT_CAPACITY)
    ensures var after := Life(slot, us);
      && InGeneration(after, gen) && (slot.Some? ==> after.Some?)
      && RingSound(RecentOf(after), RecentSetOf(after), RECENT_CAPACITY)
      && RecentOf(after) == LastOf(RecentOf(slot) + Remembered(slot, us), 4096)
  {
    var after, h := RecentFollows(slot, us, gen);
    LifeRingSound(slot, us);
  }

  lemma {:induction false} RecentFollows(slot: Option<Accumulator>, us: seq<Update>, gen: U64)
    returns (after: Option<Accumulator>, h: seq<U64>)
    requires InGeneration(slot, gen) && AllOfGeneration(us, gen) && |RecentOf(slot)| <= RECENT_CAPACITY
    ensures after == Life(slot, us) && h == RecentOf(slot) + Remembered(slot, us)
    ensures InGeneration(after, gen) && (slot.Some? ==> after.Some?) && RecentOf(after) == LastOf(h, RECENT_CAPACITY)
  {
    if us == [] {
      after, h := slot, RecentOf(slot);
    } else {
      var past, u := us[..|us| - 1], us[|us| - 1];
      assert forall i :: 0 <= i < |past| ==> past[i] == us[i];
      var before, g := RecentFollows(slot, past, gen);
      assert Generation(u, gen);
      var added := Added(before, u);
      SlotRecentStep(g, before, u, gen, added);
      after, h := Apply(before, u), g + added;
    }
  }

  lemma SlotRecentStep(h: seq<U64>, slot: Option<Accumulator>, u: Update, gen: U64, added: seq<U64>)
    requires InGeneration(slot, gen) && Generation(u, gen) && added == Added(slot, u)
    requires RecentOf(slot) == LastOf(h, RECENT_CAPACITY)
    ensures var after := Apply(slot, u);
      && InGeneration(after, gen) && (slot.Some? ==> after.Some?)
      && RecentOf(after) == LastOf(h + added, RECENT_CAPACITY)
  {
    if added == [] {
      assert h + added == h;
    }
    if slot.Some? {
      RecentStep(h, slot.value, u, gen);
    } else if u.Opens() {
      OpensNew(u);
      RecentStep(h, Fresh(u.o, None), u, gen);
    }
  }

  lemma RecentStep(h: seq<U64>, acc: Accumulator, u: Update, gen: U64)
    requires acc.def.gen == gen && Generation(u, gen) && acc.recent == LastOf(h, RECENT_CAPACITY)
    ensures var after := Apply(Some(acc), u);
      && after.Some? && after.value.def.gen == gen
      && after.value.recent
         == LastOf(if u.Take? && u.e.id !in acc.recentSet then h + [u.e.id] else h, RECENT_CAPACITY)
  {
    if u.Take? {
      AbsorbKeeps(acc, u.o, u.e);
      AbsorbRemembers(acc, u.o, u.e);
      RingedIsLast(acc.recent, u.e.id, RECENT_CAPACITY);
      LastOfLast(h, [u.e.id], RECENT_CAPACITY);
    }
  }

  /** An id that an objective has remembered is refused there until 4096 further ids have been
      remembered at the same generation. */
  lemma RefusedWhileRecent(slot: Option<Accumulator>, us: seq<Update>, gen: U64, id: U64, o: Objective, e: Evidence)
    requires slot.Some? && slot.value.def.gen == gen && o.gen == gen && e.id == id
    requires RingSound(slot.value.recent, slot.value.recentSet, RECENT_CAPACITY)
    requires slot.value.recent != [] && slot.value.recent[|slot.value.recent| - 1] == id
    requires AllOfGeneration(us, gen)
    requires |Remembered(slot, us)| < 4096
    ensures Life(slot, us).Some?
    ensures Absorb(Opened(Life(slot, us), o), o, e) == (Life(slot, us).value, Status.Cancelled)
  {
    StillRecent(slot, us, gen);
    SeenIsRefused(Life(slot, us).value, o, e);
  }

  lemma StillRecent(slot: Option<Accumulator>, us: seq<Update>, gen: U64)
    requires slot.Some? && slot.value.def.gen == gen && AllOfGeneration(us, gen) && slot.value.recent != []
    requires RingSound(slot.value.recent, slot.value.recentSet, RECENT_CAPACITY)
    requires |Remembered(slot, us)| < RECENT_CAPACITY
    ensures var after := Life(slot, us);
      && after.Some? && after.value.def.gen == gen
      && slot.value.recent[|slot.value.recent| - 1] in after.value.recentSet
  {
    RecentIsLast(slot, us, gen);
    AmongLast(slot.value.recent + Remembered(slot, us), |slot.value.recent| - 1, RECENT_CAPACITY);
  }

  lemma SeenIsRefused(acc: Accumulator, o: Objective, e: Evidence)
    requires acc.def.gen == o.gen && e.id in acc.recentSet
    ensures Absorb(Opened(Some(acc), o), o, e) == (acc, Status.Cancelled)
  {}

  /** Every life keeps the ring and the set of an accumulator together. */
  lemma {:induction false} LifeRingSound(slot: Option<Accumulator>, us: seq<Update>)
    requires slot.Some? ==> RingSound(slot.value.recent, slot.value.recentSet, RECENT_CAPACITY)
    ensures var after := Life(slot, us);
      after.Some? ==> RingSound(after.value.recent, after.value.recentSet, RECENT_CAPACITY)
  {
    if us != [] {
      var past, u := us[..|us| - 1], us[|us| - 1];
      LifeRingSound(slot, past);
      ApplyRingSound(Life(slot, past), u);
    }
  }

  lemma ApplyRingSound(slot: Option<Accumulator>, u: Update)
    requires slot.Some? ==> RingSound(slot.value.recent, slot.value.recentSet, RECENT_CAPACITY)
    ensures var after := Apply(slot, u);
      after.Some? ==> RingSound(after.value.recent, after.value.recentSet, RECENT_CAPACITY)
  {
    if u.Take? {
      var acc := Opened(slot, u.o);
      AbsorbRemembers(acc, u.o, u.e);
      if u.e.id !in acc.recentSet {
        RingStep(acc.recent, acc.recentSet, u.e.id, RECENT_CAPACITY);
      }
    }
  }
}
