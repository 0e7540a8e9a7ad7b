/** Decisions, effects and findings: what the engine produces and how it is ordered. */
module Findings {
  import opened Sequences
  import opened Strings

  datatype Decision = Approve | Review | Block {
    function Severity(): nat {
      match this
      case Approve => 0
      case Review => 1
      case Block => 2
    }
  }

  /** The more severe of two decisions. */
  function Worse(a: Decision, b: Decision): Decision {
    if b.Severity() > a.Severity() then b else a
  }

  /** The worst of what `f` contributes over `s`. */
  ghost function WorstBy<T>(f: T -> Decision, s: seq<T>): Decision {
    if s == [] then Approve else Worse(f(s[0]), WorstBy(f, s[1..]))
  }

  lemma {:induction false} WorstByConcat<T>(f: T -> Decision, a: seq<T>, b: seq<T>)
    ensures WorstBy(f, a + b) == Worse(WorstBy(f, a), WorstBy(f, b))
  {
    if a == [] {
      assert a + b == b;
    } else {
      assert (a + b)[1..] == a[1..] + b;
      WorstByConcat(f, a[1..], b);
    }
  }

  lemma {:induction false} WorstBySnoc<T>(f: T -> Decision, a: seq<T>, x: T)
    ensures WorstBy(f, a + [x]) == Worse(WorstBy(f, a), f(x))
  {
    WorstByConcat(f, a, [x]);
    assert WorstBy(f, [x]) == Worse(f(x), WorstBy(f, []));
  }

  /** The worst is BLOCK when something blocks, APPROVE when everything approves. */
  lemma {:induction false} WorstByIs<T>(f: T -> Decision, s: seq<T>)
    ensures WorstBy(f, s) == Block <==> exists x :: x in s && f(x) == Block
    ensures WorstBy(f, s) == Approve <==> forall x :: x in s ==> f(x) == Approve
  {
    if s != [] {
      WorstByIs(f, s[1..]);
      assert forall x :: x in s <==> x == s[0] || x in s[1..];
    }
  }

  /** Contributions that agree, listed in another order, have the same worst. */
  lemma {:induction false} WorstByAgree<T(!new)>(f: T -> Decision, g: T -> Decision, a: seq<T>, b: seq<T>)
    requires forall x :: x in a <==> x in b
    requires forall x :: x in a ==> f(x) == g(x)
    ensures WorstBy(f, a) == WorstBy(g, b)
  {
    WorstByIs(f, a);
    WorstByIs(g, b);
  }

  const EFFECT_COMMENT := "comment"
  const EFFECT_CHALLENGE := "challenge"
  const EFFECT_BLOCK := "block"
  const EFFECT_REQUIRE_REVIEW := "require-review"

  /** An unsatisfied effect never yields APPROVE. */
  function EffectDecision(effect: string): Decision {
    if effect == EFFECT_BLOCK then Block else Review
  }

  /** A firing of a non-required obligation: a comment is neutral. */
  function FiringEffectDecision(effect: string): Decision {
    if effect == EFFECT_COMMENT then Approve else EffectDecision(effect)
  }

  function RiskDecision(sum: int, threshold: int): Decision {
    if sum > threshold then Review else Approve
  }

  datatype Finding = Finding(
    rule: string, obligation: string, effect: string, subject: string, points: int, code: string, message: string)

  datatype Result = Result(
    decision: Decision, findings: seq<Finding>, observed: seq<Finding>, gaps: map<string, string>)

  /** The fields findings are sorted by. */
  function SortKey(f: Finding): seq<string> {
    [f.subject, f.rule, f.obligation, f.code, f.effect]
  }

  predicate FindingLeq(a: Finding, b: Finding) {
    LexLeq(SortKey(a), SortKey(b))
  }

  lemma {:induction false} FindingLeqPreorder()
    ensures TotalPreorder(FindingLeq)
  {
    hide LexLeq;
    forall a, b
      ensures FindingLeq(a, b) || FindingLeq(b, a)
    {
      LexCompare(SortKey(a), SortKey(b));
    }
    forall a, b, c | FindingLeq(a, b) && FindingLeq(b, c)
      ensures FindingLeq(a, c)
    {
      LexTransitive(SortKey(a), SortKey(b), SortKey(c));
    }
  }

  /** The order of findings, field by field: subject, rule, obligation, code, effect. */
  lemma {:induction false} FindingOrderIs(a: Finding, b: Finding)
    ensures FindingLeq(a, b) <==>
            || Less(a.subject, b.subject)
            || (a.subject == b.subject
                && (|| Less(a.rule, b.rule)
                    || (a.rule == b.rule
                        && (|| Less(a.obligation, b.obligation)
                            || (a.obligation == b.obligation
                                && (|| Less(a.code, b.code)
                                    || (a.code == b.code && (Less(a.effect, b.effect) || a.effect == b.effect))))))))
  {
    hide LexLeq, Less;
    var v, w := [a.effect], [b.effect];
    assert LexLeq([], []) by { NoFields(); }
    assert v == v + [] && w == w + [];
    LexFirst(a.effect, [], b.effect, []);
    LexFirst(a.code, v, b.code, w);
    LexFirst(a.obligation, [a.code] + v, b.obligation, [b.code] + w);
    LexFirst(a.rule, [a.obligation] + ([a.code] + v), b.rule, [b.obligation] + ([b.code] + w));
    LexFirst(a.subject, [a.rule] + ([a.obligation] + ([a.code] + v)),
             b.subject, [b.rule] + ([b.obligation] + ([b.code] + w)));
    assert SortKey(a) == [a.subject] + ([a.rule] + ([a.obligation] + ([a.code] + v)));
    assert SortKey(b) == [b.subject] + ([b.rule] + ([b.obligation] + ([b.code] + w)));
  }

  lemma NoFields()
    ensures LexLeq([], [])
  {}

  /** Sorting in place: a permutation, in key order; ties may come out either way. */
  method SortFindings(fs: seq<Finding>) returns (r: seq<Finding>)
    ensures Permutation(r, fs) && Sorted(FindingLeq, r)
  {
    FindingLeqPreorder();
    r := SortBy(FindingLeq, fs);
    SortBySorted(FindingLeq, fs);
  }
}
