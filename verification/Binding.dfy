/** Which objective of a contract binds: the verdict over all judged objectives. */
module Binding {
  import opened Types
  import opened Budgets
  import opened Trends
  import opened Decisions

  datatype Freshness = Current | StaleEvidence | ExpiredEvidence

  /** What one evaluation found out about one objective. */
  datatype Judgement = Judgement(
    objective: Objective, state: ComplianceState, risk: Risk, rank: int, magnitude: real,
    freshness: Freshness, budgetState: Option<BudgetState>, burn: Option<BurnRate>)

  /** Byte strings in lexicographic order. */
  predicate LexLess(s: Text, t: Text) {
    if t == [] then false
    else if s == [] then true
    else if s[0] != t[0] then s[0] < t[0]
    else LexLess(s[1..], t[1..])
  }

  /** The order in which candidates are sorted. */
  predicate Before(a: Judgement, b: Judgement) {
    if a.rank != b.rank then a.rank < b.rank
    else if a.magnitude != b.magnitude then a.magnitude > b.magnitude
    else if a.objective.priority != b.objective.priority then a.objective.priority < b.objective.priority
    else LexLess(a.objective.name, b.objective.name)
  }

  /** The judgements in some state other than Compliant, in order. */
  function NonCompliant(js: seq<Judgement>): seq<Judgement> {
    if js == [] then []
    else
      var past := NonCompliant(js[..|js| - 1]);
      if js[|js| - 1].state.Compliant? then past else past + [js[|js| - 1]]
  }

  function Candidates(js: seq<Judgement>): (c: seq<Judgement>)
    requires js != []
    ensures c != []
  {
    if NonCompliant(js) == [] then [js[0]] else NonCompliant(js)
  }

  /** The first judgement that no other one precedes. */
  function Least(js: seq<Judgement>): Judgement
    requires js != []
  {
    if |js| == 1 then js[0]
    else
      var least := Least(js[..|js| - 1]);
      if Before(js[|js| - 1], least) then js[|js| - 1] else least
  }

  predicate AnyState(js: seq<Judgement>, state: ComplianceState) {
    exists i :: 0 <= i < |js| && js[i].state == state
  }

  datatype Verdict = Verdict(overall: ComplianceState, binding: Option<Judgement>)

  function Decide(js: seq<Judgement>): Verdict
    requires js != []
  {
    if AnyState(js, RevalidationRequired) then Verdict(RevalidationRequired, None)
    else if AnyState(js, InsufficientEvidence) then Verdict(InsufficientEvidence, None)
    else
      var b := Least(Candidates(js));
      Verdict(b.state, Some(b))
  }

  /** The objectives that are neither binding nor compliant. */
  function Secondaries(js: seq<Judgement>, bindingId: U64): seq<U64> {
    if js == [] then []
    else
      var past, last := Secondaries(js[..|js| - 1], bindingId), js[|js| - 1];
      if last.objective.id != bindingId && !last.state.Compliant? then past + [last.objective.id] else past
  }

  // ----- The sort -----

  ghost predicate InOrder(js: seq<Judgement>) {
    forall i, j {:trigger js[i], js[j]} :: 0 <= i < j < |js| ==> !Before(js[j], js[i])
  }

  lemma {:induction false} LexTotal(s: Text, t: Text)
    ensures !(LexLess(s, t) && LexLess(t, s))
    ensures LexLess(s, t) || LexLess(t, s) || s == t
  {
    if s != [] && t != [] && s[0] == t[0] {
      LexTotal(s[1..], t[1..]);
      assert s == [s[0]] + s[1..] && t == [t[0]] + t[1..];
    }
  }

  lemma {:induction false} LexTransitive(s: Text, t: Text, u: Text)
    requires LexLess(s, t) && LexLess(t, u)
    ensures LexLess(s, u)
  {
    if s != [] && s[0] == t[0] == u[0] {
      LexTransitive(s[1..], t[1..], u[1..]);
    }
  }

  lemma BeforeTransitive(a: Judgement, b: Judgement, c: Judgement)
    requires Before(a, b) && Before(b, c)
    ensures Before(a, c)
  {
    if LexLess(a.objective.name, b.objective.name) && LexLess(b.objective.name, c.objective.name) {
      LexTransitive(a.objective.name, b.objective.name, c.objective.name);
    }
  }

  lemma BeforeTotal(a: Judgement, b: Judgement)
    ensures !(Before(a, b) && Before(b, a))
    ensures Before(a, b) || Before(b, a) || a.objective.name == b.objective.name
  {
    LexTotal(a.objective.name, b.objective.name);
  }

  ghost predicate DistinctNames(js: seq<Judgement>) {
    forall i, j {:trigger js[i], js[j]} :: 0 <= i < j < |js| ==> js[i].objective.name != js[j].objective.name
  }

  /** `b` comes strictly before every other judgement of `js`. */
  ghost predicate IsLeast(b: Judgement, js: seq<Judgement>) {
    b in js && forall i {:trigger js[i]} :: 0 <= i < |js| ==> js[i] == b || Before(b, js[i])
  }

  lemma OneLeast(a: Judgement, b: Judgement, js: seq<Judgement>)
    requires IsLeast(a, js) && IsLeast(b, js)
    ensures a == b
  {
    BeforeTotal(a, b);
  }

  lemma {:induction false} LeastIsLeast(js: seq<Judgement>)
    requires js != [] && DistinctNames(js)
    ensures IsLeast(Least(js), js)
  {
    if |js| > 1 {
      var past, last := js[..|js| - 1], js[|js| - 1];
      assert DistinctNames(past);
      LeastIsLeast(past);
      var least := Least(past);
      LeastGrows(past, last, least, js);
    }
  }

  lemma LeastGrows(past: seq<Judgement>, last: Judgement, least: Judgement, js: seq<Judgement>)
    requires js == past + [last] && DistinctNames(js) && IsLeast(least, past)
    ensures IsLeast(if Before(last, least) then last else least, js)
  {
    var k :| 0 <= k < |past| && past[k] == least;
    assert js[k] == least && js[|past|] == last;
    BeforeTotal(last, least);
    forall i | 0 <= i < |js|
      ensures Before(last, least) ==> js[i] == last || Before(last, js[i])
      ensures !Before(last, least) ==> js[i] == least || Before(least, js[i])
    {
      if i < |past| {
        assert js[i] == past[i];
        if Before(last, least) && past[i] != least {
          BeforeTransitive(last, least, past[i]);
        }
      }
    }
  }

  /** Whatever algorithm sorts the candidates, the front of the result is the one that `Least`
      finds, when the names are distinct. */
  lemma FrontIsLeast(js: seq<Judgement>, sorted: seq<Judgement>)
    requires js != [] && DistinctNames(js) && multiset(sorted) == multiset(js) && InOrder(sorted)
    ensures sorted != [] && sorted[0] == Least(js)
  {
    assert |multiset(sorted)| == |multiset(js)|;
    LeastIsLeast(js);
    assert sorted[0] in multiset(sorted);
    forall i | 0 <= i < |js| ensures js[i] == sorted[0] || Before(sorted[0], js[i]) {
      assert js[i] in multiset(js);
      var k :| 0 <= k < |sorted| && sorted[k] == js[i];
      var f :| 0 <= f < |js| && js[f] == sorted[0];
      BeforeTotal(sorted[0], js[i]);
      if f != i && k > 0 {
        assert !Before(sorted[k], sorted[0]);
      }
    }
    OneLeast(sorted[0], Least(js), js);
  }

  method PickBinding(js: seq<Judgement>) returns (b: Judgement)
    requires js != []
    ensures b == Least(js)
  {
    b := js[0];
    for i := 1 to |js|
      invariant b == Least(js[..i])
    {
      assert js[..i + 1][..i] == js[..i];
      if Before(js[i], b) {
        b := js[i];
      }
    }
    assert js[..|js|] == js;
  }

  // ----- The verdict -----

  ghost predicate AllUsable(js: seq<Judgement>) {
    !AnyState(js, RevalidationRequired) && !AnyState(js, InsufficientEvidence)
  }

  lemma {:induction false} NonCompliantMembers(js: seq<Judgement>)
    ensures forall x {:trigger x in NonCompliant(js)} :: x in NonCompliant(js) <==> x in js && !x.state.Compliant?
  {
    if js != [] {
      var past := js[..|js| - 1];
      NonCompliantMembers(past);
      assert js == past + [js[|js| - 1]];
    }
  }

  lemma {:induction false} NonCompliantDistinct(js: seq<Judgement>)
    requires DistinctNames(js)
    ensures DistinctNames(NonCompliant(js))
  {
    if js != [] {
      var past, last := js[..|js| - 1], js[|js| - 1];
      assert DistinctNames(past);
      NonCompliantDistinct(past);
      NonCompliantMembers(past);
      var held := NonCompliant(past);
      forall i | 0 <= i < |held| ensures held[i].objective.name != last.objective.name {
        assert held[i] in held;
        var k :| 0 <= k < |past| && past[k] == held[i];
        assert js[k] == held[i];
      }
    }
  }

  /** The overall state is Compliant exactly when every objective is. */
  lemma CompliantExactly(js: seq<Judgement>)
    requires js != []
    ensures Decide(js).overall.Compliant? <==> forall i {:trigger js[i]} :: 0 <= i < |js| ==> js[i].state.Compliant?
  {
    NonCompliantMembers(js);
    LeastIn(Candidates(js));
    if NonCompliant(js) == [] {
      forall i | 0 <= i < |js| ensures js[i].state.Compliant? {
        assert js[i] in js;
        assert js[i] !in NonCompliant(js);
      }
    } else {
      assert NonCompliant(js)[0] in NonCompliant(js);
    }
  }

  lemma {:induction false} LeastIn(js: seq<Judgement>)
    requires js != []
    ensures Least(js) in js
  {
    if |js| > 1 {
      LeastIn(js[..|js| - 1]);
    }
  }

  /** Among judgements that are all usable and not all compliant, `b` is not compliant and comes
      strictly before every other one that is not. */
  ghost predicate Binds(b: Judgement, js: seq<Judgement>) {
    && b in js && !b.state.Compliant?
    && forall i {:trigger js[i]} :: 0 <= i < |js| && !js[i].state.Compliant? ==> js[i] == b || Before(b, js[i])
  }

  lemma OneBinds(a: Judgement, b: Judgement, js: seq<Judgement>)
    requires Binds(a, js) && Binds(b, js)
    ensures a == b
  {
    BeforeTotal(a, b);
  }

  /** When all evidence is usable and some objective is not compliant, the binding objective is the
      unique least one under severity, then larger magnitude, then priority, then name. */
  lemma BindingIsUnique(js: seq<Judgement>, b: Judgement)
    requires DistinctNames(js) && AllUsable(js)
    requires exists i {:trigger js[i]} :: 0 <= i < |js| && !js[i].state.Compliant?
    ensures Decide(js).binding == Some(b) <==> Binds(b, js)
    ensures Decide(js).binding.Some? && Decide(js).overall == Decide(js).binding.value.state
  {
    var i :| 0 <= i < |js| && !js[i].state.Compliant?;
    NonCompliantMembers(js);
    NonCompliantDistinct(js);
    var c := NonCompliant(js);
    assert js[i] in c;
    LeastIsLeast(c);
    var least := Least(c);
    forall k | 0 <= k < |js| && !js[k].state.Compliant? ensures js[k] == least || Before(least, js[k]) {
      assert js[k] in c;
    }
    assert Binds(least, js);
    if Binds(b, js) {
      OneBinds(b, least, js);
    }
  }

  /** The binding objective does not depend on the order in which the contract lists them. */
  lemma BindingIgnoresOrder(js: seq<Judgement>, ks: seq<Judgement>)
    requires DistinctNames(js) && multiset(js) == multiset(ks) && AllUsable(js)
    requires exists i {:trigger js[i]} :: 0 <= i < |js| && !js[i].state.Compliant?
    ensures ks != [] && Decide(ks) == Decide(js)
  {
    SameMembers(js, ks);
    SameMembers(ks, js);
    PermutationDistinct(js, ks);
    var i :| 0 <= i < |js| && !js[i].state.Compliant?;
    var b := Decide(js).binding.value;
    BindingIsUnique(js, b);
    assert js[i] in js && js[i] in ks;
    forall k | 0 <= k < |ks| && !ks[k].state.Compliant? ensures ks[k] == b || Before(b, ks[k]) {
      assert ks[k] in ks && ks[k] in js;
    }
    BindingIsUnique(ks, b);
  }

  lemma {:induction false} CountOne(js: seq<Judgement>, x: Judgement)
    requires DistinctNames(js)
    ensures multiset(js)[x] <= 1
  {
    if js != [] {
      var past, last := js[..|js| - 1], js[|js| - 1];
      assert js == past + [last];
      assert DistinctNames(past) && last !in past by {
        assert forall i :: 0 <= i < |past| ==> past[i] == js[i];
      }
      CountOne(past, x);
      assert last !in multiset(past);
    }
  }

  lemma CountTwo(ks: seq<Judgement>, i: nat, j: nat)
    requires i < j < |ks| && ks[i] == ks[j]
    ensures multiset(ks)[ks[i]] >= 2
  {
    var front, back := ks[..j], ks[j..];
    assert ks == front + back;
    assert front[i] in multiset(front) && back[0] in multiset(back);
  }

  lemma PermutationDistinct(js: seq<Judgement>, ks: seq<Judgement>)
    requires DistinctNames(js) && multiset(js) == multiset(ks)
    ensures DistinctNames(ks)
  {
    forall i, j | 0 <= i < j < |ks| ensures ks[i].objective.name != ks[j].objective.name {
      CountOne(js, ks[i]);
      if ks[i] == ks[j] {
        CountTwo(ks, i, j);
      }
      assert ks[i] in multiset(ks) && ks[j] in multiset(ks);
      var a :| 0 <= a < |js| && js[a] == ks[i];
      var b :| 0 <= b < |js| && js[b] == ks[j];
    }
  }

  lemma SameMembers(js: seq<Judgement>, ks: seq<Judgement>)
    requires multiset(js) == multiset(ks)
    ensures forall x {:trigger x in js} :: x in js ==> x in ks
    ensures AllUsable(js) ==> AllUsable(ks)
  {
    forall x | x in js ensures x in ks {
      assert x in multiset(js);
    }
    forall k | 0 <= k < |ks| ensures ks[k] in js {
      assert ks[k] in multiset(ks);
    }
  }

  /** The judgement on an objective whose usable evidence measures `m`. */
  function Judge(o: Objective, last: ComplianceState, m: real, exhausted: bool, risk: Risk,
                 budgetState: Option<BudgetState>, burn: Option<BurnRate>): Judgement {
    var state := NextState(LimitsOf(o), last, Usable(m, exhausted));
    Judgement(o, state, risk, SeverityRank(state), SeverityMagnitude(LimitsOf(o), m), Current, budgetState, burn)
  }

  predicate NoLater(a: Judgement, b: Judgement) {
    && a.objective == b.objective
    && (a.rank < b.rank || (a.rank == b.rank && a.magnitude >= b.magnitude))
  }

  lemma NoLaterBefore(a: Judgement, b: Judgement, c: Judgement)
    requires NoLater(a, b) && Before(b, c)
    ensures Before(a, c)
  {}

  /** Getting worse keeps the objective ahead: it becomes more severe, or ranking by magnitude goes the
      right way. */
  predicate StaysAhead(l: Limits, last: ComplianceState, m: real, worse: real, exhausted: bool) {
    || SeverityRank(NextState(l, last, Usable(worse, exhausted))) < SeverityRank(NextState(l, last, Usable(m, exhausted)))
    || RanksRight(l, m, worse)
  }

  /** Usable and out of compliance. */
  predicate Acts(state: ComplianceState) {
    !state.Compliant? && !state.RevalidationRequired? && !state.InsufficientEvidence?
  }

  lemma WorseJudged(l: Limits, last: ComplianceState, m: real, worse: real, exhausted: bool,
                    state: ComplianceState, state': ComplianceState)
    requires NoBetter(l, m, worse)
    requires state == NextState(l, last, Usable(m, exhausted)) && !state.Compliant?
    requires state' == NextState(l, last, Usable(worse, exhausted))
    ensures SeverityRank(state') <= SeverityRank(state)
    ensures SeverityMagnitude(l, m) <= SeverityMagnitude(l, worse) <==> RanksRight(l, m, worse)
    ensures Acts(state) && Acts(state')
  {
    WorseRank(l, last, m, worse, exhausted);
    WorseMagnitude(l, m, worse);
  }

  /** `j` is judgement `i` of a contract with usable evidence and distinct names, and it binds. */
  ghost predicate BindsIn(js: seq<Judgement>, i: nat, j: Judgement) {
    i < |js| && js[i] == j && DistinctNames(js) && AllUsable(js) && Decide(js).binding == Some(j)
  }

  /** A binding objective that stays ahead when its measurement gets worse, in either direction of
      comparison, stays binding when everything else stays the same. */
  lemma WorseStaysBinding(js: seq<Judgement>, i: nat, o: Objective, last: ComplianceState, m: real, worse: real,
                          exhausted: bool, risk: Risk, risk': Risk, bs: Option<BudgetState>, burn: Option<BurnRate>)
    requires BindsIn(js, i, Judge(o, last, m, exhausted, risk, bs, burn)) && !js[i].state.Compliant?
    requires NoBetter(LimitsOf(o), m, worse) && StaysAhead(LimitsOf(o), last, m, worse, exhausted)
    ensures var b := Judge(o, last, worse, exhausted, risk', bs, burn);
      Decide(js[i := b]).binding == Some(b)
  {
    var b := Judge(o, last, worse, exhausted, risk', bs, burn);
    WorseJudged(LimitsOf(o), last, m, worse, exhausted, js[i].state, b.state);
    NoLaterBinds(js, i, b);
  }

  lemma NoLaterBinds(js: seq<Judgement>, i: nat, b: Judgement)
    requires i < |js| && BindsIn(js, i, js[i]) && !js[i].state.Compliant? && NoLater(b, js[i])
    requires Acts(b.state)
    ensures Decide(js[i := b]).binding == Some(b)
  {
    var ks := js[i := b];
    BindingIsUnique(js, js[i]);
    assert ks[i] == b;
    assert forall k :: 0 <= k < |ks| && k != i ==> ks[k] == js[k];
    forall k | 0 <= k < |ks| && !ks[k].state.Compliant? ensures ks[k] == b || Before(b, ks[k]) {
      if k != i {
        assert js[k].objective.name != js[i].objective.name;
        NoLaterBefore(b, js[i], js[k]);
      }
    }
    StaysDistinct(js, i, b, ks);
    BindingIsUnique(ks, b);
  }

  lemma StaysDistinct(js: seq<Judgement>, i: nat, b: Judgement, ks: seq<Judgement>)
    requires i < |js| && ks == js[i := b] && b.objective == js[i].objective && DistinctNames(js)
    requires AllUsable(js) && !b.state.RevalidationRequired? && !b.state.InsufficientEvidence?
    ensures DistinctNames(ks) && AllUsable(ks)
  {
    assert forall k :: 0 <= k < |ks| ==> ks[k].objective.name == js[k].objective.name;
    assert forall k :: 0 <= k < |ks| && k != i ==> ks[k] == js[k];
  }

  lemma PairBinds(a: Judgement, b: Judgement)
    requires a.objective.name != b.objective.name && Before(a, b)
    requires Acts(a.state) && Acts(b.state)
    ensures BindsIn([a, b], 0, a) && Decide([b, a]).binding == Some(a)
  {
    assert [a, b][0] == a && [b, a][1] == a;
    BindingIsUnique([a, b], a);
    BindingIsUnique([b, a], a);
  }

  /** The judgement could be made: its state, rank and magnitude are those of some measurement of its
      objective after some history. */
  ghost predicate Made(j: Judgement) {
    exists last: ComplianceState, m: real, exhausted: bool ::
      j == Judge(j.objective, last, m, exhausted, j.risk, j.budgetState, j.burn)
  }

  /** `j` stays binding when it becomes `b`, against whatever other judgements that could be made. */
  ghost predicate KeepsBinding(j: Judgement, b: Judgement) {
    forall js: seq<Judgement>, i: nat {:trigger BindsIn(js, i, j)} ::
      BindsIn(js, i, j) && (forall k {:trigger js[k]} :: 0 <= k < |js| ==> Made(js[k]))
      ==> Decide(js[i := b]).binding == Some(b)
  }

  /** Exactly when an objective that gets worse keeps its binding place against all others: when it
      becomes more severe, or ranking by magnitude goes the right way. */
  lemma KeepsBindingExactly(o: Objective, last: ComplianceState, m: real, worse: real, exhausted: bool,
                            risk: Risk, risk': Risk, bs: Option<BudgetState>, burn: Option<BurnRate>)
    requires NoBetter(LimitsOf(o), m, worse)
    requires !NextState(LimitsOf(o), last, Usable(m, exhausted)).Compliant?
    ensures KeepsBinding(Judge(o, last, m, exhausted, risk, bs, burn), Judge(o, last, worse, exhausted, risk', bs, burn))
      <==> StaysAhead(LimitsOf(o), last, m, worse, exhausted)
  {
    var j, b := Judge(o, last, m, exhausted, risk, bs, burn), Judge(o, last, worse, exhausted, risk', bs, burn);
    WorseJudged(LimitsOf(o), last, m, worse, exhausted, j.state, b.state);
    if StaysAhead(LimitsOf(o), last, m, worse, exhausted) {
      forall js: seq<Judgement>, i: nat | BindsIn(js, i, j) ensures Decide(js[i := b]).binding == Some(b) {
        NoLaterBinds(js, i, b);
      }
    } else {
      var rival := RivalTo(o, last, m, worse, exhausted, risk, bs, burn);
      LosesToRival(j, b, rival);
    }
  }

  /** Another objective with the same limits, slightly better than `m`, that ranks between. */
  lemma RivalTo(o: Objective, last: ComplianceState, m: real, worse: real, exhausted: bool,
                risk: Risk, bs: Option<BudgetState>, burn: Option<BurnRate>) returns (rival: Judgement)
    requires NoBetter(LimitsOf(o), m, worse) && !RanksRight(LimitsOf(o), m, worse)
    ensures rival.objective.name != o.name && Made(rival)
    ensures rival.state == NextState(LimitsOf(o), last, Usable(m, exhausted)) && rival.rank == SeverityRank(rival.state)
    ensures SeverityMagnitude(LimitsOf(o), worse) < rival.magnitude < SeverityMagnitude(LimitsOf(o), m)
  {
    var l := LimitsOf(o);
    var other := o.(name := if o.name == [] then [0] else []);
    var better := SlightlyBetter(l, m);
    SlightlyBetterStays(l, m);
    QuotientOrder(l.breach, m, better);
    QuotientOrder(l.breach, better, 1.0);
    QuotientOrder(l.breach, better, m);
    QuotientOrder(l.breach, 1.0, better);
    assert LimitsOf(other) == l;
    rival := Judge(other, last, better, exhausted, risk, bs, burn);
  }

  /** A judgement that keeps its rank and loses magnitude loses its place to one between. */
  lemma LosesToRival(j: Judgement, b: Judgement, rival: Judgement)
    requires j.objective == b.objective && j.rank == b.rank == rival.rank && b.magnitude < rival.magnitude < j.magnitude
    requires rival.objective.name != j.objective.name && Acts(j.state) && Acts(b.state) && Acts(rival.state)
    requires Made(j) && Made(rival)
    ensures !KeepsBinding(j, b)
  {
    var js := [j, rival];
    PairBinds(j, rival);
    PairBinds(rival, b);
    assert BindsIn(js, 0, j) && js[0] == j && js[1] == rival;
    assert js[0 := b] == [b, rival];
  }

  /** At work: an at-least objective with target 100 binds at one half and, when it falls to zero, loses
      its place to an at-most objective at 150 times its target. */
  lemma AtLeastLosesItsPlace(a: Objective, b: Objective)
    requires a.name != b.name && LimitsOf(a) == Limits(AtLeast, 100.0, 100.0, LimitsOf(a).cap)
    requires LimitsOf(b) == Limits(AtMost, 1000.0, 1000.0, LimitsOf(b).cap)
    ensures var half, zero := Judge(a, Compliant, 0.5, false, NoRisk, None, None), Judge(a, Compliant, 0.0, false, NoRisk, None, None);
      var other := Judge(b, Compliant, 150000.0, false, NoRisk, None, None);
      && half.state.Violating? && zero.state.Violating? && other.state.Violating?
      && Decide([half, other]).binding == Some(half) && Decide([zero, other]).binding == Some(other)
  {
    var half, zero := Judge(a, Compliant, 0.5, false, NoRisk, None, None), Judge(a, Compliant, 0.0, false, NoRisk, None, None);
    var other := Judge(b, Compliant, 150000.0, false, NoRisk, None, None);
    assert half.magnitude == 200.0 && zero.magnitude == 100.0 && other.magnitude == 150.0;
    PairBinds(half, other);
    PairBinds(other, zero);
  }

  ghost predicate DistinctIds(js: seq<Judgement>) {
    forall i, j {:trigger js[i], js[j]} :: 0 <= i < j < |js| ==> js[i].objective.id != js[j].objective.id
  }

  ghost predicate OtherNonCompliant(js: seq<Judgement>, b: U64, k: U64) {
    k != b && exists i :: 0 <= i < |js| && !js[i].state.Compliant? && js[i].objective.id == k
  }

  /** The secondary constraints are exactly the other non-compliant objectives, each once. */
  lemma {:induction false} SecondariesExactly(js: seq<Judgement>, b: U64)
    requires DistinctIds(js)
    ensures forall k: U64 {:trigger k in Secondaries(js, b)} :: k in Secondaries(js, b) <==> OtherNonCompliant(js, b, k)
    ensures forall i, j {:trigger Secondaries(js, b)[i], Secondaries(js, b)[j]} ::
      0 <= i < j < |Secondaries(js, b)| ==> Secondaries(js, b)[i] != Secondaries(js, b)[j]
  {
    if js != [] {
      var past, last := js[..|js| - 1], js[|js| - 1];
      SecondariesExactly(past, b);
      var held := Secondaries(past, b);
      forall k: U64 ensures OtherNonCompliant(js, b, k) <==>
        OtherNonCompliant(past, b, k) || (k != b && k == last.objective.id && !last.state.Compliant?)
      {
        assert forall i :: 0 <= i < |past| ==> past[i] == js[i];
      }
      forall i | 0 <= i < |held| ensures held[i] != last.objective.id {
        assert held[i] in held;
      }
    }
  }
}
