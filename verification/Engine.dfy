/**
 The decision engine: coverage of obligations over rules and subjects, the two escalations for
 ungoverned changes, and the risk threshold.  Each loop is proved against a declarative account
 of what it collects.
 */
module Engine {
  import opened Sequences
  import opened Strings
  import opened Findings
  import opened AssertTree
  import opened Policy

  /**
   Everything a decision reads besides the rules.  A leaf sees the change and the whole ordered
   change list; globbing, leaf evaluation and message expansion are parameters.
   */
  datatype Ctx = Ctx(
    glob: Glob,
    leaf: (Leaf, EvalChange, seq<EvalChange>) -> Tri,
    expand: (string, EvalChange, seq<EvalChange>) -> string,
    changes: seq<EvalChange>,
    author: string,
    approval: Option<Approval>,
    require: seq<string>,
    threshold: int,
    ceiling: string)

  function LeafAt(c: Ctx, ch: EvalChange): Leaf -> Tri {
    (l: Leaf) => c.leaf(l, ch, c.changes)
  }

  function ExpandAt(c: Ctx, ch: EvalChange): string -> string {
    (s: string) => c.expand(s, ch, c.changes)
  }

  ghost function VerdictOf(c: Ctx, r: Rule, ch: EvalChange): Verdict {
    if r.prove.None? then Verdict(True, "") else
    Judge(r.prove.value.when, 0, LeafAt(c, ch), ExpandAt(c, ch))
  }

  function Selected(c: Ctx, r: Rule): seq<EvalChange> {
    Filter(SelectFilter(c.glob, r.domain), c.changes)
  }

  // ----- One rule, one subject -----

  function SubjectFilter(s: string): EvalChange -> bool { (ch: EvalChange) => ch.subject == s }

  ghost function FiresFilter(c: Ctx, r: Rule): EvalChange -> bool {
    (ch: EvalChange) => VerdictOf(c, r, ch).value != True
  }

  /** The messages of the changes in `xs` whose verdict is `v`. */
  ghost function Messages(c: Ctx, r: Rule, xs: seq<EvalChange>, v: Tri): set<string> {
    set i | 0 <= i < |xs| && VerdictOf(c, r, xs[i]).value == v :: VerdictOf(c, r, xs[i]).message
  }

  ghost function SmallestMessage(c: Ctx, r: Rule, xs: seq<EvalChange>, v: Tri): string {
    if Messages(c, r, xs, v) == {} then "" else Least(Messages(c, r, xs, v))
  }

  ghost function Firings(c: Ctx, r: Rule, xs: seq<EvalChange>): nat {
    |Filter(FiresFilter(c, r), xs)|
  }

  datatype Coverage = Silent | Fires(finding: Finding, firings: nat, gap: bool)

  function RuleFinding(r: Rule, subject: string, effect: string, code: string, message: string): Finding
    requires r.prove.Some?
  {
    Finding(r.name, r.prove.value.obligation, effect, subject, r.points, code, message)
  }

  /** The subject's changes among those the rule selects. */
  function Mine(subject: string, matched: seq<EvalChange>): seq<EvalChange> {
    Filter(SubjectFilter(subject), matched)
  }

  /** An error dominates; a clean failure takes the rule's effect unless approval evidence answers it. */
  ghost function CoverageOf(c: Ctx, r: Rule, subject: string, mine: seq<EvalChange>): Coverage
    requires r.prove.Some?
  {
    if Messages(c, r, mine, Unknown) != {} then
      Fires(RuleFinding(r, subject, EFFECT_REQUIRE_REVIEW, "predicate.error", SmallestMessage(c, r, mine, Unknown)),
            Firings(c, r, mine), false)
    else if Messages(c, r, mine, False) != {} then
      var message := SmallestMessage(c, r, mine, False);
      if r.onFailure.None? then
        Fires(RuleFinding(r, subject, EFFECT_REQUIRE_REVIEW, "policy.shape-error", message), Firings(c, r, mine), false)
      else if r.onFailure.value.effect == EFFECT_REQUIRE_REVIEW then
        var ev := EvidenceFor(c.approval, subject);
        if Satisfied(ev, SourceSha(c.approval), c.author) then Silent else
        Fires(RuleFinding(r, subject, EFFECT_REQUIRE_REVIEW, r.onFailure.value.code, message),
              Firings(c, r, mine), IsGap(ev))
      else
        Fires(RuleFinding(r, subject, r.onFailure.value.effect, r.onFailure.value.code, message),
              Firings(c, r, mine), false)
    else Silent
  }

  lemma {:induction false} MessagesSnoc(c: Ctx, r: Rule, xs: seq<EvalChange>, x: EvalChange, v: Tri)
    ensures Messages(c, r, xs + [x], v)
         == Messages(c, r, xs, v) + if VerdictOf(c, r, x).value == v then {VerdictOf(c, r, x).message} else {}
  {
    hide VerdictOf;
    var ys := xs + [x];
    forall m | m in Messages(c, r, xs, v)
      ensures m in Messages(c, r, ys, v)
    {
      var i :| 0 <= i < |xs| && VerdictOf(c, r, xs[i]).value == v && VerdictOf(c, r, xs[i]).message == m;
      assert ys[i] == xs[i];
    }
    if VerdictOf(c, r, x).value == v {
      assert ys[|xs|] == x;
    }
  }

  lemma {:induction false} SmallestSnoc(c: Ctx, r: Rule, xs: seq<EvalChange>, x: EvalChange, v: Tri)
    ensures var m := VerdictOf(c, r, x).message;
            SmallestMessage(c, r, xs + [x], v)
            == if && VerdictOf(c, r, x).value == v
                  && (Messages(c, r, xs, v) == {} || Less(m, SmallestMessage(c, r, xs, v)))
               then m else SmallestMessage(c, r, xs, v)
  {
    hide VerdictOf, Messages, Less;
    MessagesSnoc(c, r, xs, x, v);
    var before, m := Messages(c, r, xs, v), VerdictOf(c, r, x).message;
    if VerdictOf(c, r, x).value == v {
      LeastAdd(before, m);
      assert m in before + {m};
    } else {
      assert before + {} == before;
    }
  }

  /** Walks the subject's selected changes, counting firings and keeping the smallest message of each kind. */
  method CoverSubject(c: Ctx, r: Rule, subject: string, matched: seq<EvalChange>) returns (cov: Coverage)
    requires r.prove.Some?
    ensures cov == CoverageOf(c, r, subject, Mine(subject, matched))
  {
    hide VerdictOf, Messages, SmallestMessage, Less, Satisfied;
    var anyErr, anyFalse, firings, errMsg, falseMsg := false, false, 0, "", "";
    NoMessages(c, r);
    for i := 0 to |matched|
      invariant var mine := Mine(subject, matched[..i]);
                && (anyErr <==> Messages(c, r, mine, Unknown) != {})
                && (anyFalse <==> Messages(c, r, mine, False) != {})
                && firings == Firings(c, r, mine)
                && errMsg == SmallestMessage(c, r, mine, Unknown) && falseMsg == SmallestMessage(c, r, mine, False)
    {
      var ch := matched[i];
      ghost var mine := Mine(subject, matched[..i]);
      FilterSnoc(SubjectFilter(subject), matched, i);
      if ch.subject != subject { continue; }
      var v := WalkChange(c, r, ch);
      FilterAppend(FiresFilter(c, r), mine, ch);
      MessagesSnoc(c, r, mine, ch, Unknown);
      MessagesSnoc(c, r, mine, ch, False);
      SmallestSnoc(c, r, mine, ch, Unknown);
      SmallestSnoc(c, r, mine, ch, False);
      match v.value {
        case Unknown =>
          firings := firings + 1;
          if !anyErr || Less(v.message, errMsg) { errMsg := v.message; }
          anyErr := true;
        case False =>
          firings := firings + 1;
          if !anyFalse || Less(v.message, falseMsg) { falseMsg := v.message; }
          anyFalse := true;
        case True =>
      }
    }
    assert matched[..|matched|] == matched;
    cov := Conclude(c, r, subject, matched, anyErr, anyFalse, firings, errMsg, falseMsg);
  }

  lemma NoMessages(c: Ctx, r: Rule)
    ensures forall v :: Messages(c, r, [], v) == {} && SmallestMessage(c, r, [], v) == ""
  {}

  method WalkChange(c: Ctx, r: Rule, ch: EvalChange) returns (v: Verdict)
    requires r.prove.Some?
    ensures v == VerdictOf(c, r, ch)
  {
    v := Walk(r.prove.value.when, 0, LeafAt(c, ch), ExpandAt(c, ch));
  }

  method Conclude(
    c: Ctx, r: Rule, subject: string, ghost matched: seq<EvalChange>,
    anyErr: bool, anyFalse: bool, firings: nat, errMsg: string, falseMsg: string)
    returns (cov: Coverage)
    requires r.prove.Some?
    requires var mine := Mine(subject, matched);
             && (anyErr <==> Messages(c, r, mine, Unknown) != {})
             && (anyFalse <==> Messages(c, r, mine, False) != {})
             && firings == Firings(c, r, mine)
             && errMsg == SmallestMessage(c, r, mine, Unknown) && falseMsg == SmallestMessage(c, r, mine, False)
    ensures cov == CoverageOf(c, r, subject, Mine(subject, matched))
  {
    hide Messages, SmallestMessage, Firings, Satisfied;
    if anyErr {
      return Fires(RuleFinding(r, subject, EFFECT_REQUIRE_REVIEW, "predicate.error", errMsg), firings, false);
    }
    if !anyFalse { return Silent; }
    if r.onFailure.None? {
      return Fires(RuleFinding(r, subject, EFFECT_REQUIRE_REVIEW, "policy.shape-error", falseMsg), firings, false);
    }
    var effect, code := r.onFailure.value.effect, r.onFailure.value.code;
    if effect == EFFECT_REQUIRE_REVIEW {
      var satisfied, gap := ApprovalSatisfies(EvidenceFor(c.approval, subject), SourceSha(c.approval), c.author);
      if satisfied { return Silent; }
      return Fires(RuleFinding(r, subject, EFFECT_REQUIRE_REVIEW, code, falseMsg), firings, gap);
    }
    return Fires(RuleFinding(r, subject, effect, code, falseMsg), firings, false);
  }

  // ----- One rule -----

  /** The distinct subjects of `xs` in order of first appearance. */
  function SubjectsOf(xs: seq<EvalChange>): seq<string> {
    if xs == [] then [] else
    var rest := SubjectsOf(xs[..|xs| - 1]);
    var s := xs[|xs| - 1].subject;
    if s in rest then rest else rest + [s]
  }

  lemma {:induction false} SubjectsOfMembers(xs: seq<EvalChange>)
    ensures forall s :: s in SubjectsOf(xs) <==> exists i :: 0 <= i < |xs| && xs[i].subject == s
    ensures Distinct(SubjectsOf(xs))
  {
    if xs != [] {
      var n := |xs| - 1;
      SubjectsOfMembers(xs[..n]);
      assert forall i :: 0 <= i < n ==> xs[..n][i] == xs[i];
    }
  }

  method CollectSubjects(xs: seq<EvalChange>) returns (out: seq<string>)
    ensures out == SubjectsOf(xs)
  {
    out := [];
    for i := 0 to |xs|
      invariant out == SubjectsOf(xs[..i])
    {
      assert xs[..i + 1][..i] == xs[..i];
      if xs[i].subject !in out { out := out + [xs[i].subject]; }
    }
    assert xs[..|xs|] == xs;
  }

  ghost function SubjectCoverage(c: Ctx, r: Rule, subject: string): Coverage
    requires r.prove.Some?
  {
    CoverageOf(c, r, subject, Mine(subject, Selected(c, r)))
  }

  /** A required obligation's failure always lowers the decision; otherwise a comment is neutral. */
  function CoverageDecision(c: Ctx, r: Rule, cov: Coverage): Decision
    requires r.prove.Some?
  {
    match cov
    case Silent => Approve
    case Fires(f, _, _) =>
      if r.prove.value.obligation in c.require then EffectDecision(f.effect) else FiringEffectDecision(f.effect)
  }

  function CoverageBag(cov: Coverage): multiset<Finding> {
    match cov
    case Silent => multiset{}
    case Fires(f, _, _) => multiset{f}
  }

  function CoveragePoints(r: Rule, cov: Coverage): int {
    match cov
    case Silent => 0
    case Fires(_, firings, _) => firings * r.points
  }

  ghost function SubjectDecisionOf(c: Ctx, r: Rule): string -> Decision
    requires r.prove.Some?
  {
    (s: string) => CoverageDecision(c, r, SubjectCoverage(c, r, s))
  }

  ghost function SubjectBagOf(c: Ctx, r: Rule): string -> multiset<Finding>
    requires r.prove.Some?
  {
    (s: string) => CoverageBag(SubjectCoverage(c, r, s))
  }

  ghost function SubjectPointsOf(c: Ctx, r: Rule): string -> int
    requires r.prove.Some?
  {
    (s: string) => CoveragePoints(r, SubjectCoverage(c, r, s))
  }

  ghost predicate HasGap(c: Ctx, r: Rule, subject: string) {
    r.prove.Some? && SubjectCoverage(c, r, subject).Fires? && SubjectCoverage(c, r, subject).gap
  }

  /** What one evaluated rule produces. */
  datatype RuleYield = RuleYield(decision: Decision, findings: seq<Finding>, points: int, gaps: seq<string>)

  ghost function RuleDecision(c: Ctx, r: Rule): Decision {
    if r.prove.None? then Approve else WorstBy(SubjectDecisionOf(c, r), SubjectsOf(Selected(c, r)))
  }

  ghost function RuleBag(c: Ctx, r: Rule): multiset<Finding> {
    if r.prove.None? then multiset{} else Gather(SubjectBagOf(c, r), SubjectsOf(Selected(c, r)))
  }

  ghost function RulePoints(c: Ctx, r: Rule): int {
    if r.prove.None? then 0 else Sum(SubjectPointsOf(c, r), SubjectsOf(Selected(c, r)))
  }

  ghost predicate RuleGap(c: Ctx, r: Rule, s: string) {
    s in SubjectsOf(Selected(c, r)) && HasGap(c, r, s)
  }

  ghost predicate Yields(c: Ctx, r: Rule, y: RuleYield) {
    && y.decision == RuleDecision(c, r)
    && multiset(y.findings) == RuleBag(c, r)
    && y.points == RulePoints(c, r)
    && forall s :: s in y.gaps <==> RuleGap(c, r, s)
  }

  /** All the subjects of one rule. */
  method CoverRule(c: Ctx, r: Rule, matched: seq<EvalChange>) returns (y: RuleYield)
    requires r.prove.Some? && matched == Selected(c, r)
    ensures Yields(c, r, y)
  {
    hide CoverageOf, CoverageDecision, CoverageBag, CoveragePoints, Selected, WorstBy, Gather, Sum, SubjectsOf, Worse,
         Mine;
    NothingYet(c, r);
    var subjects := CollectSubjects(matched);
    y := RuleYield(Approve, [], 0, []);
    for i := 0 to |subjects|
      invariant y.decision == WorstBy(SubjectDecisionOf(c, r), subjects[..i])
      invariant multiset(y.findings) == Gather(SubjectBagOf(c, r), subjects[..i])
      invariant y.points == Sum(SubjectPointsOf(c, r), subjects[..i])
      invariant forall s :: s in y.gaps <==> s in subjects[..i] && HasGap(c, r, s)
    {
      var s := subjects[i];
      assert subjects[..i + 1] == subjects[..i] + [s];
      WorstBySnoc(SubjectDecisionOf(c, r), subjects[..i], s);
      GatherSnoc(SubjectBagOf(c, r), subjects[..i], s);
      SumSnoc(SubjectPointsOf(c, r), subjects[..i], s);
      var cov := CoverSubject(c, r, s, matched);
      CoverageSubject(c, r, s, Mine(s, matched));
      y := AddCoverage(c, r, y, cov);
    }
    assert subjects[..|subjects|] == subjects;
  }

  lemma NothingYet(c: Ctx, r: Rule)
    requires r.prove.Some?
    ensures WorstBy(SubjectDecisionOf(c, r), []) == Approve
    ensures Gather(SubjectBagOf(c, r), []) == multiset{}
    ensures Sum(SubjectPointsOf(c, r), []) == 0
  {}

  lemma {:induction false} CoverageSubject(c: Ctx, r: Rule, subject: string, mine: seq<EvalChange>)
    requires r.prove.Some?
    ensures var cov := CoverageOf(c, r, subject, mine); cov.Fires? ==> cov.finding.subject == subject
  {
    hide Messages, SmallestMessage, Firings, Satisfied;
  }

  method AddCoverage(c: Ctx, r: Rule, y: RuleYield, cov: Coverage) returns (z: RuleYield)
    requires r.prove.Some?
    ensures z.decision == Worse(y.decision, CoverageDecision(c, r, cov))
    ensures multiset(z.findings) == multiset(y.findings) + CoverageBag(cov)
    ensures z.points == y.points + CoveragePoints(r, cov)
    ensures z.gaps == if cov.Fires? && cov.gap then y.gaps + [cov.finding.subject] else y.gaps
  {
    match cov {
      case Silent => z := y;
      case Fires(f, firings, gap) =>
        var eff := FiringEffectDecision(f.effect);
        if r.prove.value.obligation in c.require { eff := EffectDecision(f.effect); }
        z := RuleYield(Worse(y.decision, eff), y.findings + [f], y.points + firings * r.points,
                       if gap then y.gaps + [f.subject] else y.gaps);
    }
  }
}
