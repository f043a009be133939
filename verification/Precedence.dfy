/** The choice of the binding objective, with every comparison spelled out. */
module Precedence {
  import opened Types
  import opened Decisions
  import opened Binding
  import opened Accumulators
  import opened Engine
  import opened Intents

  /** A proper prefix of the other name, or smaller at the first byte where they differ. */
  ghost predicate NameFirst(s: Text, t: Text) {
    || (|s| < |t| && t[..|s|] == s)
    || exists i {:trigger s[i]} :: 0 <= i < |s| && i < |t| && s[..i] == t[..i] && s[i] < t[i]
  }

  lemma NameFirstStep(s: Text, t: Text)
    requires s != [] && t != [] && s[0] == t[0]
    ensures NameFirst(s, t) <==> NameFirst(s[1..], t[1..])
  {
    var x, y := s[1..], t[1..];
    assert s == [s[0]] + x && t == [t[0]] + y;
    if |s| < |t| && t[..|s|] == s {
      assert y[..|x|] == t[..|s|][1..] == x;
    }
    if |x| < |y| && y[..|x|] == x {
      assert t[..|s|] == [t[0]] + y[..|x|] == s;
    }
    if i :| 0 <= i < |s| && i < |t| && s[..i] == t[..i] && s[i] < t[i] {
      assert x[..i - 1] == s[..i][1..] == t[..i][1..] == y[..i - 1];
      assert x[i - 1] == s[i] && y[i - 1] == t[i];
    }
    if i :| 0 <= i < |x| && i < |y| && x[..i] == y[..i] && x[i] < y[i] {
      assert s[..i + 1] == [s[0]] + x[..i] && t[..i + 1] == [t[0]] + y[..i];
      assert s[i + 1] == x[i] && t[i + 1] == y[i];
    }
  }

  lemma SameHead(s: Text, t: Text, i: nat)
    requires 0 < i <= |s| && i <= |t| && s[..i] == t[..i]
    ensures s[0] == t[0]
  {
    assert s[..i][0] == s[0] && t[..i][0] == t[0];
  }

  lemma {:induction false} LexIsNameFirst(s: Text, t: Text)
    ensures LexLess(s, t) <==> NameFirst(s, t)
  {
    if s != [] && t != [] {
      if s[0] == t[0] {
        NameFirstStep(s, t);
        LexIsNameFirst(s[1..], t[1..]);
      } else {
        assert s[..0] == t[..0];
        if |s| < |t| {
          assert t[..|s|][0] == t[0];
        }
        if i :| 0 <= i < |s| && i < |t| && s[..i] == t[..i] && s[i] < t[i] {
          if i > 0 {
            SameHead(s, t, i);
          }
        }
      }
    } else if s == [] && t != [] {
      assert t[..0] == [];
    }
  }

  /** From worst to best: Violating, Recovering, AtRisk, NearLimit, Compliant, then what is not decided. */
  predicate Severer(a: ComplianceState, b: ComplianceState) {
    match a
    case Violating => !b.Violating?
    case Recovering => !b.Violating? && !b.Recovering?
    case AtRisk => !b.Violating? && !b.Recovering? && !b.AtRisk?
    case NearLimit => !b.Violating? && !b.Recovering? && !b.AtRisk? && !b.NearLimit?
    case Compliant => b.InsufficientEvidence? || b.RevalidationRequired? || b.ContractSuspended?
    case InsufficientEvidence => b.RevalidationRequired? || b.ContractSuspended?
    case RevalidationRequired => b.ContractSuspended?
    case ContractSuspended => false
  }

  /** More severe; or as severe and further out; or equal in both and of a smaller priority number; or
      equal in all three and with the first name. */
  ghost predicate Precedes(a: Judgement, b: Judgement) {
    || Severer(a.state, b.state)
    || (a.state == b.state && a.magnitude > b.magnitude)
    || (a.state == b.state && a.magnitude == b.magnitude && a.objective.priority < b.objective.priority)
    || (a.state == b.state && a.magnitude == b.magnitude && a.objective.priority == b.objective.priority
        && NameFirst(a.objective.name, b.objective.name))
  }

  lemma SeverityOrder(a: ComplianceState, b: ComplianceState)
    ensures SeverityRank(a) < SeverityRank(b) <==> Severer(a, b)
    ensures SeverityRank(a) == SeverityRank(b) <==> a == b
  {}

  lemma BeforeIsPrecedes(a: Judgement, b: Judgement)
    requires a.rank == SeverityRank(a.state) && b.rank == SeverityRank(b.state)
    ensures Before(a, b) <==> Precedes(a, b)
  {
    SeverityOrder(a.state, b.state);
    LexIsNameFirst(a.objective.name, b.objective.name);
  }

  /** `b` is out of compliance and precedes every other judgement that is. */
  ghost predicate ComesFirst(b: Judgement, js: seq<Judgement>) {
    && b in js && !b.state.Compliant?
    && forall i {:trigger js[i]} :: 0 <= i < |js| && !js[i].state.Compliant? ==> js[i] == b || Precedes(b, js[i])
  }

  /** With usable evidence and some objective out of compliance, `b` binds exactly when it comes first. */
  lemma BindingSpelledOut(js: seq<Judgement>, b: Judgement)
    requires DistinctNames(js) && AllUsable(js) && RankedByState(js)
    requires exists i {:trigger js[i]} :: 0 <= i < |js| && !js[i].state.Compliant?
    ensures Decide(js).binding == Some(b) <==> ComesFirst(b, js)
  {
    BindingIsUnique(js, b);
    if b in js {
      var k :| 0 <= k < |js| && js[k] == b;
      forall i | 0 <= i < |js| ensures Before(b, js[i]) <==> Precedes(b, js[i]) {
        assert js[k].rank == SeverityRank(js[k].state);
        BeforeIsPrecedes(b, js[i]);
      }
    }
  }
}
