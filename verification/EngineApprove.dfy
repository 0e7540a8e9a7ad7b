/** Exactly when the engine approves. */
module EngineApprove {
  import opened Sequences
  import opened Findings
  import opened AssertTree
  import opened Policy
  import opened Engine
  import opened Decider

  /** Rule `r` selects `ch`, and the change belongs to `s`. */
  predicate Touches(c: Ctx, r: Rule, s: string, ch: EvalChange) {
    Selects(c.glob, r.domain, ch) && ch.subject == s
  }

  /** No selected change of the subject errors. */
  ghost predicate NoError(c: Ctx, r: Rule, s: string) {
    forall i :: 0 <= i < |c.changes| && Touches(c, r, s, c.changes[i]) ==>
      VerdictOf(c, r, c.changes[i]).value != Unknown
  }

  ghost predicate AllHold(c: Ctx, r: Rule, s: string) {
    forall i :: 0 <= i < |c.changes| && Touches(c, r, s, c.changes[i]) ==> VerdictOf(c, r, c.changes[i]).value == True
  }

  /** Valid forge evidence answers an authored require-review failure of the subject. */
  ghost predicate Answered(c: Ctx, r: Rule, s: string) {
    && NoError(c, r, s)
    && r.onFailure.Some? && r.onFailure.value.effect == "require-review"
    && c.approval.Some? && s in c.approval.value.evidence
    && Satisfied(Some(c.approval.value.evidence[s]), c.approval.value.sourceSha, c.author)
  }

  lemma EvidenceIs(c: Ctx, s: string)
    ensures Satisfied(EvidenceFor(c.approval, s), SourceSha(c.approval), c.author) <==>
            && c.approval.Some? && s in c.approval.value.evidence
            && Satisfied(Some(c.approval.value.evidence[s]), c.approval.value.sourceSha, c.author)
  {
    hide CountingIds;
  }

  ghost predicate CommentOnly(c: Ctx, r: Rule) {
    && r.onFailure.Some? && r.onFailure.value.effect == "comment"
    && r.prove.Some? && r.prove.value.obligation !in c.require
  }

  /** The (rule, subject) pair does not stand in the way of APPROVE. */
  ghost predicate Excused(c: Ctx, r: Rule, s: string) {
    NoError(c, r, s) && (AllHold(c, r, s) || Answered(c, r, s) || CommentOnly(c, r))
  }

  // ----- Points, change by change -----

  ghost predicate Scores(c: Ctx, r: Rule, ch: EvalChange) {
    VerdictOf(c, r, ch).value != True && !Answered(c, r, ch.subject)
  }

  ghost function ScoresFilter(c: Ctx, r: Rule): EvalChange -> bool {
    (ch: EvalChange) => Scores(c, r, ch)
  }

  /** The rule's weight times the selected changes that fire and are not answered. */
  ghost function ScoreOf(c: Ctx): Rule -> int {
    (r: Rule) => if r.prove.Some? then |Filter(ScoresFilter(c, r), Selected(c, r))| * r.points else 0
  }

  ghost function Score(c: Ctx, rules: seq<Rule>): int {
    Sum(ScoreOf(c), EnforcedRules(c, rules))
  }

  /** Everything APPROVE needs from the rules. */
  ghost predicate Vouched(c: Ctx, rules: seq<Rule>) {
    && (forall i :: 0 <= i < |c.require| ==> Proven(c, rules, c.require[i]))
    && (forall i :: 0 <= i < |c.changes| && c.changes[i].path == "" && c.changes[i].kind == "delete" ==>
          exists j :: 0 <= j < |rules| && Governs(c, rules[j], c.changes[i], true))
    && (forall i :: 0 <= i < |c.changes| && c.changes[i].path != "" ==>
          exists j :: 0 <= j < |rules| && Governs(c, rules[j], c.changes[i], false))
    && (forall j, i :: 0 <= j < |rules| && 0 <= i < |c.changes| && Governs(c, rules[j], c.changes[i], false) ==>
          Excused(c, rules[j], c.changes[i].subject))
    && Score(c, rules) <= c.threshold
  }

  /** An enforcing prove rule names the obligation. */
  ghost predicate Proven(c: Ctx, rules: seq<Rule>, o: string) {
    exists j :: 0 <= j < |rules| && Enforced(c.ceiling, rules[j]) && rules[j].prove.value.obligation == o
  }

  // ----- One subject -----

  lemma {:induction false} MineMembers(c: Ctx, r: Rule, s: string)
    ensures forall ch :: ch in Mine(s, Selected(c, r)) <==> ch in c.changes && Touches(c, r, s, ch)
  {
    FilterMembers(SelectFilter(c.glob, r.domain), c.changes);
    FilterMembers(SubjectFilter(s), Selected(c, r));
  }

  lemma {:induction false} MessagesExist(c: Ctx, r: Rule, s: string, v: Tri)
    ensures Messages(c, r, Mine(s, Selected(c, r)), v) != {}
            <==> exists i :: && 0 <= i < |c.changes| && Touches(c, r, s, c.changes[i])
                             && VerdictOf(c, r, c.changes[i]).value == v
  {
    hide VerdictOf, Mine, Selected, Touches;
    var mine := Mine(s, Selected(c, r));
    MineMembers(c, r, s);
    if Messages(c, r, mine, v) != {} {
      var m :| m in Messages(c, r, mine, v);
      var k :| 0 <= k < |mine| && VerdictOf(c, r, mine[k]).value == v && VerdictOf(c, r, mine[k]).message == m;
      assert mine[k] in c.changes;
    }
    forall i | 0 <= i < |c.changes| && Touches(c, r, s, c.changes[i]) && VerdictOf(c, r, c.changes[i]).value == v
      ensures Messages(c, r, mine, v) != {}
    {
      assert c.changes[i] in mine;
      var k :| 0 <= k < |mine| && mine[k] == c.changes[i];
      assert VerdictOf(c, r, mine[k]).message in Messages(c, r, mine, v);
    }
  }

  lemma {:induction false} ErrorAndHold(c: Ctx, r: Rule, s: string)
    ensures var mine := Mine(s, Selected(c, r));
            && (Messages(c, r, mine, Unknown) == {} <==> NoError(c, r, s))
            && (Messages(c, r, mine, Unknown) == {} && Messages(c, r, mine, False) == {} <==> AllHold(c, r, s))
  {
    hide VerdictOf, Mine, Selected, Touches, Messages;
    MessagesExist(c, r, s, Unknown);
    MessagesExist(c, r, s, False);
  }

  lemma {:induction false} SubjectApproves(c: Ctx, r: Rule, s: string)
    requires r.prove.Some?
    ensures CoverageDecision(c, r, SubjectCoverage(c, r, s)) == Approve <==> Excused(c, r, s)
  {
    hide Messages, SmallestMessage, Firings, Satisfied, NoError, AllHold, Mine, Selected;
    EvidenceIs(c, s);
    ErrorAndHold(c, r, s);
  }

  lemma {:induction false} RuleApproves(c: Ctx, r: Rule)
    requires r.prove.Some?
    ensures RuleDecision(c, r) == Approve
            <==> forall i :: 0 <= i < |c.changes| && Selects(c.glob, r.domain, c.changes[i]) ==>
                   Excused(c, r, c.changes[i].subject)
  {
    hide Excused, SubjectCoverage, CoverageDecision, Selects, WorstBy;
    var ss := SubjectsOf(Selected(c, r));
    WorstByIs(SubjectDecisionOf(c, r), ss);
    SubjectsOfMembers(Selected(c, r));
    FilterMembers(SelectFilter(c.glob, r.domain), c.changes);
    forall i | 0 <= i < |c.changes| && Selects(c.glob, r.domain, c.changes[i])
      ensures c.changes[i].subject in ss
      ensures SubjectDecisionOf(c, r)(c.changes[i].subject) == Approve <==> Excused(c, r, c.changes[i].subject)
    {
      assert c.changes[i] in Selected(c, r);
      SubjectApproves(c, r, c.changes[i].subject);
    }
    forall s | s in ss
      ensures exists i :: 0 <= i < |c.changes| && Selects(c.glob, r.domain, c.changes[i]) && c.changes[i].subject == s
    {
      var k :| 0 <= k < |Selected(c, r)| && Selected(c, r)[k].subject == s;
      assert Selected(c, r)[k] in c.changes;
    }
  }

  // ----- Points -----

  ghost function CountOf(keep: EvalChange -> bool, xs: seq<EvalChange>): string -> int {
    (s: string) => |Filter(keep, Mine(s, xs))|
  }

  /** Counting subject by subject counts every change once. */
  lemma {:induction false} CountPartition(keep: EvalChange -> bool, xs: seq<EvalChange>, ss: seq<string>)
    requires Distinct(ss) && forall i :: 0 <= i < |xs| ==> xs[i].subject in ss
    ensures Sum(CountOf(keep, xs), ss) == |Filter(keep, xs)|
  {
    if xs == [] {
      SumZero(CountOf(keep, xs), ss);
    } else {
      var n := |xs| - 1;
      var ys, x := xs[..n], xs[n];
      assert xs == ys + [x];
      CountPartition(keep, ys, ss);
      FilterAppend(keep, ys, x);
      forall i | 0 <= i < |ss|
        ensures CountOf(keep, xs)(ss[i])
             == CountOf(keep, ys)(ss[i]) + if ss[i] == x.subject then (if keep(x) then 1 else 0) else 0
      {
        FilterAppend(SubjectFilter(ss[i]), ys, x);
        FilterAppend(keep, Mine(ss[i], ys), x);
      }
      SumBump(CountOf(keep, ys), CountOf(keep, xs), ss, x.subject, if keep(x) then 1 else 0);
    }
  }

  lemma {:induction false} SumZero<T>(f: T -> int, s: seq<T>)
    requires forall i :: 0 <= i < |s| ==> f(s[i]) == 0
    ensures Sum(f, s) == 0
  {
    if s != [] {
      SumZero(f, s[1..]);
    }
  }

  lemma {:induction false} SumScaled<T>(f: T -> int, g: T -> int, k: int, s: seq<T>)
    requires forall i :: 0 <= i < |s| ==> g(s[i]) == f(s[i]) * k
    ensures Sum(g, s) == Sum(f, s) * k
  {
    if s != [] {
      SumScaled(f, g, k, s[1..]);
      assert (f(s[0]) + Sum(f, s[1..])) * k == f(s[0]) * k + Sum(f, s[1..]) * k;
    }
  }

  /** A subject's points: its firing changes, unless the evidence answers them all. */
  lemma {:induction false} SubjectScore(c: Ctx, r: Rule, s: string)
    requires r.prove.Some?
    ensures CoveragePoints(r, SubjectCoverage(c, r, s))
         == |Filter(ScoresFilter(c, r), Mine(s, Selected(c, r)))| * r.points
  {
    hide Messages, SmallestMessage, Satisfied, NoError, AllHold, Mine, Selected, VerdictOf;
    var mine := Mine(s, Selected(c, r));
    ErrorAndHold(c, r, s);
    ScoresInSubject(c, r, s);
    EvidenceIs(c, s);
    if AllHold(c, r, s) { NoFirings(c, r, s); }
  }

  lemma {:induction false} ScoresInSubject(c: Ctx, r: Rule, s: string)
    ensures var mine := Mine(s, Selected(c, r));
            |Filter(ScoresFilter(c, r), mine)| == if Answered(c, r, s) then 0 else Firings(c, r, mine)
  {
    hide Answered, VerdictOf, Selected;
    var mine := Mine(s, Selected(c, r));
    MineMembers(c, r, s);
    forall i | 0 <= i < |mine|
      ensures mine[i].subject == s
    {
      assert mine[i] in mine;
    }
    FilterCongruent(ScoresFilter(c, r), FiresFilter(c, r), mine, Answered(c, r, s));
  }

  /** Two filters that agree, or one that refuses everything. */
  lemma {:induction false} FilterCongruent(
    p: EvalChange -> bool, q: EvalChange -> bool, xs: seq<EvalChange>, none: bool)
    requires forall i :: 0 <= i < |xs| ==> p(xs[i]) == (!none && q(xs[i]))
    ensures Filter(p, xs) == if none then [] else Filter(q, xs)
  {
    if xs != [] {
      FilterCongruent(p, q, xs[1..], none);
    }
  }

  lemma {:induction false} NoFirings(c: Ctx, r: Rule, s: string)
    requires AllHold(c, r, s)
    ensures Firings(c, r, Mine(s, Selected(c, r))) == 0
  {
    hide VerdictOf, Selected, Mine;
    var mine := Mine(s, Selected(c, r));
    MineMembers(c, r, s);
    forall i | 0 <= i < |mine|
      ensures !FiresFilter(c, r)(mine[i])
    {
      assert mine[i] in mine;
      var k :| 0 <= k < |c.changes| && c.changes[k] == mine[i];
    }
    FilterCongruent(FiresFilter(c, r), FiresFilter(c, r), mine, true);
  }

  lemma {:induction false} RuleScore(c: Ctx, r: Rule)
    ensures RulePoints(c, r) == ScoreOf(c)(r)
  {
    hide SubjectCoverage, CoveragePoints, Scores, Selected, Mine;
    if r.prove.Some? {
      var xs := Selected(c, r);
      var ss := SubjectsOf(xs);
      SubjectsOfMembers(xs);
      CountPartition(ScoresFilter(c, r), xs, ss);
      forall i | 0 <= i < |ss|
        ensures SubjectPointsOf(c, r)(ss[i]) == CountOf(ScoresFilter(c, r), xs)(ss[i]) * r.points
      {
        SubjectScore(c, r, ss[i]);
      }
      SumScaled(CountOf(ScoresFilter(c, r), xs), SubjectPointsOf(c, r), r.points, ss);
    }
  }

  lemma {:induction false} ScoreIs(c: Ctx, rules: seq<Rule>)
    ensures Sum(RulePointsOf(c), EnforcedRules(c, rules)) == Score(c, rules)
  {
    hide RulePoints, Selected;
    var er := EnforcedRules(c, rules);
    forall i | 0 <= i < |er|
      ensures RulePointsOf(c)(er[i]) == ScoreOf(c)(er[i])
    {
      RuleScore(c, er[i]);
    }
    SumAgree(RulePointsOf(c), ScoreOf(c), er);
  }

  // ----- All rules -----

  lemma {:induction false} EnforcedMembers(c: Ctx, rules: seq<Rule>)
    ensures forall r :: r in EnforcedRules(c, rules) <==> r in rules && Enforced(c.ceiling, r)
  {
    FilterMembers(EnforcedFilter(c.ceiling), rules);
  }

  lemma {:induction false} RulesApprove(c: Ctx, rules: seq<Rule>)
    ensures WorstBy(RuleDecisionOf(c), EnforcedRules(c, rules)) == Approve
            <==> forall j, i :: 0 <= j < |rules| && 0 <= i < |c.changes|
                                && Governs(c, rules[j], c.changes[i], false) ==>
                   Excused(c, rules[j], c.changes[i].subject)
  {
    hide Excused, RuleDecision, Selects, WorstBy, EnforcedRules, Enforced;
    var er := EnforcedRules(c, rules);
    EnforcedMembers(c, rules);
    WorstByIs(RuleDecisionOf(c), er);
    forall j | 0 <= j < |rules| && Enforced(c.ceiling, rules[j])
      ensures rules[j] in er
      ensures RuleDecisionOf(c)(rules[j]) == Approve
              <==> forall i :: 0 <= i < |c.changes| && Selects(c.glob, rules[j].domain, c.changes[i]) ==>
                     Excused(c, rules[j], c.changes[i].subject)
    {
      assert rules[j] in rules;
      EnforcedProves(c, rules[j]);
      RuleApproves(c, rules[j]);
    }
  }

  lemma EnforcedProves(c: Ctx, r: Rule)
    requires Enforced(c.ceiling, r)
    ensures r.prove.Some?
  {}

  lemma {:induction false} CoveredIsProven(c: Ctx, rules: seq<Rule>, o: string)
    ensures CoveredBy(EnforcedRules(c, rules), o) <==> Proven(c, rules, o)
  {
    hide EnforcedRules, EffectivePhase;
    var er := EnforcedRules(c, rules);
    EnforcedMembers(c, rules);
    if CoveredBy(er, o) {
      var i :| 0 <= i < |er| && er[i].prove.Some? && er[i].prove.value.obligation == o;
      assert er[i] in er;
      var j :| 0 <= j < |rules| && rules[j] == er[i];
    }
    if Proven(c, rules, o) {
      var j :| 0 <= j < |rules| && Enforced(c.ceiling, rules[j]) && rules[j].prove.value.obligation == o;
      assert rules[j] in er;
      var i :| 0 <= i < |er| && er[i] == rules[j];
    }
  }

  lemma {:induction false} NoLooseEdits(c: Ctx, er: seq<Rule>)
    requires SomeRequiredCovered(c, er)
    ensures EscalatedSubjects(c, er) == [] <==> forall i :: 0 <= i < |c.changes| ==> !LooseEdit(c, er, c.changes[i])
  {
    hide LooseEdit, CoveredBy;
    var loose := Filter(LooseEditFilter(c, er), c.changes);
    FilterMembers(LooseEditFilter(c, er), c.changes);
    SubjectsOfMembers(loose);
    if loose != [] {
      assert loose[0] in loose;
      assert loose[0].subject in SubjectsOf(loose);
    } else {
      forall i | 0 <= i < |c.changes|
        ensures !LooseEdit(c, er, c.changes[i])
      {
        assert c.changes[i] !in loose;
      }
    }
  }

  lemma {:induction false} FailSafeIs(c: Ctx, rules: seq<Rule>)
    requires c.require != []
    ensures !FailSafe(c, EnforcedRules(c, rules)) <==>
      && (forall i :: 0 <= i < |c.require| ==> Proven(c, rules, c.require[i]))
      && (forall i :: 0 <= i < |c.changes| && c.changes[i].path == "" && c.changes[i].kind == "delete" ==>
            exists j :: 0 <= j < |rules| && Governs(c, rules[j], c.changes[i], true))
      && (forall i :: 0 <= i < |c.changes| && c.changes[i].path != "" ==>
            exists j :: 0 <= j < |rules| && Governs(c, rules[j], c.changes[i], false))
  {
    hide Governs, CoveredBy, Proven, EnforcedRules, DeleteGoverned, EditGoverned, EscalatedSubjects;
    var er := EnforcedRules(c, rules);
    forall i | 0 <= i < |c.require|
      ensures CoveredBy(er, c.require[i]) <==> Proven(c, rules, c.require[i])
    {
      CoveredIsProven(c, rules, c.require[i]);
    }
    forall i | 0 <= i < |c.changes|
      ensures DeleteGoverned(c, er, c.changes[i]) <==>
              exists j :: 0 <= j < |rules| && Governs(c, rules[j], c.changes[i], true)
      ensures EditGoverned(c, er, c.changes[i]) <==>
              exists j :: 0 <= j < |rules| && Governs(c, rules[j], c.changes[i], false)
    {
      GovernsIs(c, rules, c.changes[i], true);
      GovernsIs(c, rules, c.changes[i], false);
    }
    if !AnyUncovered(c, er) {
      assert CoveredBy(er, c.require[0]);
      NoLooseEdits(c, er);
    }
  }

  lemma {:induction false} FinalApproves(c: Ctx, rules: seq<Rule>)
    requires c.require != []
    ensures FinalDecision(c, EnforcedRules(c, rules)) == Approve <==> Vouched(c, rules)
  {
    hide FailSafe, WorstBy, Sum, EnforcedRules, Excused, Governs, Proven, Score;
    RulesApprove(c, rules);
    FailSafeIs(c, rules);
    ScoreIs(c, rules);
  }

  /**
   The exact APPROVE theorem: a decision is APPROVE if and only if the subject is not the policy
   itself, the change set is decidable and non-empty, something is required, no evaluated rule is
   malformed, every required obligation has an enforcing prover, every edit and whole-file delete is
   governed, every matched (rule, subject) is excused, and the firing points stay within the threshold.
   */
  lemma {:induction false} ApproveExactlyWhen(q: Request, out: DecideOutcome)
    requires DecideSpec(q, out)
    ensures out.Decided? && out.result.decision == Approve <==>
      && q.subjectClass != RESERVED_POLICY_CLASS && !q.opaqueSet && q.ctx.changes != [] && q.ctx.require != []
      && !MatchErrorIn(Normalized(q), q.rules)
      && Vouched(Normalized(q), q.rules)
  {
    hide MatchErrorIn, Vouched, EnforcedRules, FinalDecision, AllFindings, GapAt;
    if q.ctx.require != [] {
      FinalApproves(Normalized(q), q.rules);
    }
  }
}
