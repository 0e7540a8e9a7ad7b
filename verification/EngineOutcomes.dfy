/** Exactly what the engine decides and reports: BLOCK, the findings, the gaps and the observed bucket. */
module EngineOutcomes {
  import opened Sequences
  import opened Strings
  import opened Findings
  import opened AssertTree
  import opened Policy
  import opened Engine
  import opened Decider
  import opened EngineApprove

  // ----- BLOCK -----

  /** The rule's authored effect is block, and the subject fails it cleanly. */
  ghost predicate Blocks(c: Ctx, r: Rule, s: string) {
    NoError(c, r, s) && !AllHold(c, r, s) && r.onFailure.Some? && r.onFailure.value.effect == "block"
  }

  lemma {:induction false} SubjectBlocks(c: Ctx, r: Rule, s: string)
    requires r.prove.Some?
    ensures CoverageDecision(c, r, SubjectCoverage(c, r, s)) == Block <==> Blocks(c, r, s)
  {
    hide Messages, SmallestMessage, Firings, Satisfied, NoError, AllHold, Mine, Selected;
    ErrorAndHold(c, r, s);
  }

  lemma {:induction false} RuleBlocks(c: Ctx, r: Rule)
    requires r.prove.Some?
    ensures RuleDecision(c, r) == Block
            <==> exists i :: && 0 <= i < |c.changes| && Selects(c.glob, r.domain, c.changes[i])
                             && Blocks(c, r, c.changes[i].subject)
  {
    hide Blocks, SubjectCoverage, CoverageDecision, Selects, WorstBy;
    var ss := SubjectsOf(Selected(c, r));
    WorstByIs(SubjectDecisionOf(c, r), ss);
    SubjectsOfMembers(Selected(c, r));
    FilterMembers(SelectFilter(c.glob, r.domain), c.changes);
    forall s
      ensures SubjectDecisionOf(c, r)(s) == Block <==> Blocks(c, r, s)
    {
      SubjectBlocks(c, r, s);
    }
    forall i | 0 <= i < |c.changes| && Selects(c.glob, r.domain, c.changes[i])
      ensures c.changes[i].subject in ss
    {
      assert c.changes[i] in Selected(c, r);
    }
    forall s | s in ss
      ensures exists i :: 0 <= i < |c.changes| && Selects(c.glob, r.domain, c.changes[i]) && c.changes[i].subject == s
    {
      var k :| 0 <= k < |Selected(c, r)| && Selected(c, r)[k].subject == s;
      assert Selected(c, r)[k] in c.changes;
    }
  }

  /** Some enforcing rule with effect block selects a change whose subject fails it cleanly. */
  ghost predicate SomethingBlocks(c: Ctx, rules: seq<Rule>) {
    exists j, i :: && 0 <= j < |rules| && 0 <= i < |c.changes| && Governs(c, rules[j], c.changes[i], false)
                   && Blocks(c, rules[j], c.changes[i].subject)
  }

  lemma {:induction false} RulesBlock(c: Ctx, rules: seq<Rule>)
    ensures WorstBy(RuleDecisionOf(c), EnforcedRules(c, rules)) == Block <==> SomethingBlocks(c, rules)
  {
    hide Blocks, RuleDecision, Selects, WorstBy, EnforcedRules, Enforced;
    var er := EnforcedRules(c, rules);
    EnforcedMembers(c, rules);
    WorstByIs(RuleDecisionOf(c), er);
    if SomethingBlocks(c, rules) {
      var j, i :| && 0 <= j < |rules| && 0 <= i < |c.changes| && Governs(c, rules[j], c.changes[i], false)
                  && Blocks(c, rules[j], c.changes[i].subject);
      assert rules[j] in er;
      EnforcedProves(c, rules[j]);
      RuleBlocks(c, rules[j]);
      assert RuleDecisionOf(c)(rules[j]) == Block;
    }
    if exists r :: r in er && RuleDecisionOf(c)(r) == Block {
      var r :| r in er && RuleDecisionOf(c)(r) == Block;
      var j :| 0 <= j < |rules| && rules[j] == r;
      EnforcedProves(c, r);
      RuleBlocks(c, r);
      var i :| && 0 <= i < |c.changes| && Selects(c.glob, r.domain, c.changes[i])
               && Blocks(c, r, c.changes[i].subject);
      assert Governs(c, rules[j], c.changes[i], false);
    }
  }

  /** Only a rule blocks: the fail-safes and the threshold reach REVIEW at most. */
  lemma {:induction false} FinalBlocks(c: Ctx, rules: seq<Rule>)
    ensures FinalDecision(c, EnforcedRules(c, rules)) == Block <==> SomethingBlocks(c, rules)
  {
    hide FailSafe, WorstBy, Sum, EnforcedRules, SomethingBlocks;
    RulesBlock(c, rules);
  }

  /**
   The exact BLOCK theorem: a decision is BLOCK if and only if the subject is the policy itself, or the
   request reaches the rules and an enforcing rule with effect block fails cleanly on a subject it selects.
   */
  lemma {:induction false} BlockExactlyWhen(q: Request, out: DecideOutcome)
    requires DecideSpec(q, out)
    ensures out.Decided? && out.result.decision == Block <==>
      || q.subjectClass == "assent-policy"
      || (&& !q.opaqueSet && q.ctx.changes != [] && q.ctx.require != []
          && !MatchErrorIn(Normalized(q), q.rules) && SomethingBlocks(Normalized(q), q.rules))
  {
    hide MatchErrorIn, SomethingBlocks, EnforcedRules, FinalDecision, AllFindings, GapAt;
    FinalBlocks(Normalized(q), q.rules);
  }

  // ----- The guards -----

  /** What the guards in front of the rules answer, in this order. */
  lemma GuardsAnswer(q: Request, out: DecideOutcome)
    requires DecideSpec(q, out)
    ensures q.subjectClass == "assent-policy" ==>
      out == Decided(Result(
        Block, [Finding("assent-policy", "", "block", q.subject, 0, "assent-policy.self-edit", "")], [], map[]))
    ensures q.subjectClass != "assent-policy" && (q.opaqueSet || q.ctx.changes == []) ==>
      out == Decided(Result(
        Review, [Finding("aggregate.changeset", "", "require-review", q.subject, 0, "changeset.undecidable", "")], [],
        map[]))
    ensures out == Refused(EmptyRequire) <==>
      q.subjectClass != "assent-policy" && !q.opaqueSet && q.ctx.changes != [] && q.ctx.require == []
    ensures out == Refused(BadPolicy) <==>
      && q.subjectClass != "assent-policy" && !q.opaqueSet && q.ctx.changes != [] && q.ctx.require != []
      && MatchErrorIn(Normalized(q), q.rules)
  {
    hide MatchErrorIn, Decides;
  }

  /** An empty ceiling is the same as the ceiling enforce. */
  lemma EmptyCeiling(q: Request, out: DecideOutcome)
    requires q.ctx.ceiling == ""
    ensures DecideSpec(q, out) <==> DecideSpec(q.(ctx := q.ctx.(ceiling := "enforce")), out)
  {
    hide MatchErrorIn, Decides;
  }

  /** A refusal for a bad policy: some enforcing or observed rule's match block is unusable. */
  lemma MatchErrorExactlyWhen(c: Ctx, rules: seq<Rule>)
    ensures MatchErrorIn(c, rules) <==>
            exists r :: r in rules && (Enforced(c.ceiling, r) || Observed(c.ceiling, r)) && MatchFails(r.domain)
  {
    hide Enforced, Observed, MatchFails;
  }

  // ----- Findings -----

  /** `m` is the smallest message among the subject's selected changes with verdict `v`. */
  ghost predicate SmallestAmong(c: Ctx, r: Rule, s: string, v: Tri, m: string) {
    && (exists i :: && 0 <= i < |c.changes| && Touches(c, r, s, c.changes[i])
                    && VerdictOf(c, r, c.changes[i]) == Verdict(v, m))
    && forall i :: 0 <= i < |c.changes| && Touches(c, r, s, c.changes[i]) ==>
         (VerdictOf(c, r, c.changes[i]).value == v ==> Leq(m, VerdictOf(c, r, c.changes[i]).message))
  }

  /**
   The finding rule `r` reports on subject `s`: an error asks for review whatever was authored; a clean
   failure that evidence does not answer takes the authored effect and code, or review without any.
   */
  ghost predicate Reports(c: Ctx, r: Rule, s: string, f: Finding) {
    && r.prove.Some? && f.rule == r.name && f.obligation == r.prove.value.obligation
    && f.subject == s && f.points == r.points
    && if !NoError(c, r, s) then
         f.effect == "require-review" && f.code == "predicate.error" && SmallestAmong(c, r, s, Unknown, f.message)
       else
         && !AllHold(c, r, s) && !Answered(c, r, s) && SmallestAmong(c, r, s, False, f.message)
         && if r.onFailure.None? then f.effect == "require-review" && f.code == "policy.shape-error"
            else f.effect == r.onFailure.value.effect && f.code == r.onFailure.value.code
  }

  lemma {:induction false} SmallestIs(c: Ctx, r: Rule, s: string, v: Tri)
    requires Messages(c, r, Mine(s, Selected(c, r)), v) != {}
    ensures forall m :: SmallestAmong(c, r, s, v, m) <==> m == SmallestMessage(c, r, Mine(s, Selected(c, r)), v)
  {
    hide VerdictOf, Mine, Selected, Touches, Leq;
    var mine := Mine(s, Selected(c, r));
    var messages, least := Messages(c, r, mine, v), SmallestMessage(c, r, mine, v);
    MineMembers(c, r, s);
    forall i | 0 <= i < |c.changes| && Touches(c, r, s, c.changes[i]) && VerdictOf(c, r, c.changes[i]).value == v
      ensures VerdictOf(c, r, c.changes[i]).message in messages
    {
      assert c.changes[i] in mine;
      var k :| 0 <= k < |mine| && mine[k] == c.changes[i];
    }
    var k :| 0 <= k < |mine| && VerdictOf(c, r, mine[k]).value == v && VerdictOf(c, r, mine[k]).message == least;
    assert mine[k] in mine;
    var i :| 0 <= i < |c.changes| && c.changes[i] == mine[k];
    assert VerdictOf(c, r, c.changes[i]) == Verdict(v, least);
    forall m | SmallestAmong(c, r, s, v, m)
      ensures m == least
    {
      var j :| && 0 <= j < |c.changes| && Touches(c, r, s, c.changes[j])
               && VerdictOf(c, r, c.changes[j]) == Verdict(v, m);
      assert m in messages;
      LeqCompare(m, least);
    }
  }

  lemma {:induction false} SubjectReports(c: Ctx, r: Rule, s: string, f: Finding)
    requires r.prove.Some?
    ensures f in CoverageBag(SubjectCoverage(c, r, s)) <==> Reports(c, r, s, f)
  {
    hide Messages, SmallestMessage, SmallestAmong, Firings, Satisfied, NoError, AllHold, Mine, Selected;
    var mine := Mine(s, Selected(c, r));
    EvidenceIs(c, s);
    ErrorAndHold(c, r, s);
    if Messages(c, r, mine, Unknown) != {} {
      SmallestIs(c, r, s, Unknown);
    } else if Messages(c, r, mine, False) != {} {
      SmallestIs(c, r, s, False);
    }
  }

  lemma {:induction false} RuleReports(c: Ctx, r: Rule, f: Finding)
    requires r.prove.Some?
    ensures f in RuleBag(c, r) <==>
            exists i :: && 0 <= i < |c.changes| && Selects(c.glob, r.domain, c.changes[i])
                        && Reports(c, r, c.changes[i].subject, f)
  {
    hide Reports, SubjectCoverage, CoverageBag, Selects, Gather;
    var ss := SubjectsOf(Selected(c, r));
    GatherMembers(SubjectBagOf(c, r), ss, f);
    SubjectsOfMembers(Selected(c, r));
    FilterMembers(SelectFilter(c.glob, r.domain), c.changes);
    forall s
      ensures f in SubjectBagOf(c, r)(s) <==> Reports(c, r, s, f)
    {
      SubjectReports(c, r, s, f);
    }
    if f in RuleBag(c, r) {
      var k :| 0 <= k < |ss| && f in SubjectBagOf(c, r)(ss[k]);
      assert ss[k] in ss;
      var n :| 0 <= n < |Selected(c, r)| && Selected(c, r)[n].subject == ss[k];
      assert Selected(c, r)[n] in c.changes;
    }
    forall i | && 0 <= i < |c.changes| && Selects(c.glob, r.domain, c.changes[i])
               && Reports(c, r, c.changes[i].subject, f)
      ensures f in RuleBag(c, r)
    {
      assert c.changes[i] in Selected(c, r);
      assert c.changes[i].subject in ss;
    }
  }

  /** A rule of the given kind selects a change and reports `f` on its subject. */
  ghost predicate ReportedBy(c: Ctx, rs: seq<Rule>, f: Finding) {
    exists r, i :: && r in rs && 0 <= i < |c.changes| && Selects(c.glob, r.domain, c.changes[i])
                   && Reports(c, r, c.changes[i].subject, f)
  }

  lemma {:induction false} RulesReport(c: Ctx, rs: seq<Rule>, f: Finding)
    requires forall r :: r in rs ==> r.prove.Some?
    ensures f in Gather(RuleBagOf(c), rs) <==> ReportedBy(c, rs, f)
  {
    hide Reports, RuleBag, Selects, Gather;
    GatherMembers(RuleBagOf(c), rs, f);
    if f in Gather(RuleBagOf(c), rs) {
      var k :| 0 <= k < |rs| && f in RuleBagOf(c)(rs[k]);
      assert rs[k] in rs;
      RuleReports(c, rs[k], f);
    }
    if ReportedBy(c, rs, f) {
      var r, i :| && r in rs && 0 <= i < |c.changes| && Selects(c.glob, r.domain, c.changes[i])
                  && Reports(c, r, c.changes[i].subject, f);
      var k :| 0 <= k < |rs| && rs[k] == r;
      RuleReports(c, r, f);
    }
  }

  ghost predicate EditReported(c: Ctx, er: seq<Rule>, s: string) {
    && (exists o :: o in c.require && CoveredBy(er, o))
    && exists ch :: ch in c.changes && ch.path != "" && ch.subject == s && !EditGoverned(c, er, ch)
  }

  lemma {:induction false} EscalatedIs(c: Ctx, er: seq<Rule>, s: string)
    ensures s in EscalatedSubjects(c, er) <==> EditReported(c, er, s)
  {
    hide EditGoverned, CoveredBy;
    var loose := Filter(LooseEditFilter(c, er), c.changes);
    FilterMembers(LooseEditFilter(c, er), c.changes);
    SubjectsOfMembers(loose);
    if s in EscalatedSubjects(c, er) {
      var i :| 0 <= i < |c.require| && CoveredBy(er, c.require[i]);
      assert c.require[i] in c.require;
      var k :| 0 <= k < |loose| && loose[k].subject == s;
      assert loose[k] in loose;
    }
    if EditReported(c, er, s) {
      var o :| o in c.require && CoveredBy(er, o);
      var i :| 0 <= i < |c.require| && c.require[i] == o;
      var ch :| ch in c.changes && ch.path != "" && ch.subject == s && !EditGoverned(c, er, ch);
      assert ch in loose;
      var k :| 0 <= k < |loose| && loose[k] == ch;
    }
  }

  /** Where a finding can come from: a rule, or one of the three fail-safes. */
  ghost predicate Reported(c: Ctx, er: seq<Rule>, f: Finding) {
    || ReportedBy(c, er, f)
    || (exists o :: && o in c.require && !CoveredBy(er, o)
                    && f == Finding("aggregate.uncovered", o, "require-review", "", 0, "obligation.uncovered", ""))
    || (exists ch :: && ch in c.changes && ch.path == "" && ch.kind == "delete" && !DeleteGoverned(c, er, ch)
                     && f == Finding("aggregate.unmatchedDelete", "", "require-review", ch.subject, 0,
                                     "fileEvent.unmatchedDelete", ""))
    || (EditReported(c, er, f.subject)
        && f == Finding("aggregate.unmatchedEdit", "", "require-review", f.subject, 0, "change.unmatchedEdit", ""))
  }

  lemma {:induction false} UncoveredReported(c: Ctx, er: seq<Rule>, f: Finding)
    ensures f in Gather(UncoveredBag(er), c.require) <==>
            exists o :: && o in c.require && !CoveredBy(er, o)
                        && f == Finding("aggregate.uncovered", o, "require-review", "", 0, "obligation.uncovered", "")
  {
    hide CoveredBy, Gather;
    GatherMembers(UncoveredBag(er), c.require, f);
    forall o | o in c.require && f in UncoveredBag(er)(o)
      ensures exists i :: 0 <= i < |c.require| && f in UncoveredBag(er)(c.require[i])
    {
      var i :| 0 <= i < |c.require| && c.require[i] == o;
    }
    forall i | 0 <= i < |c.require| && f in UncoveredBag(er)(c.require[i])
      ensures exists o :: o in c.require && f in UncoveredBag(er)(o)
    {
      assert c.require[i] in c.require;
    }
  }

  lemma {:induction false} DeletesReported(c: Ctx, er: seq<Rule>, f: Finding)
    ensures f in Gather(DeleteBag(c, er), c.changes) <==>
            exists ch :: && ch in c.changes && ch.path == "" && ch.kind == "delete" && !DeleteGoverned(c, er, ch)
                         && f == Finding("aggregate.unmatchedDelete", "", "require-review", ch.subject, 0,
                                         "fileEvent.unmatchedDelete", "")
  {
    hide DeleteGoverned, Gather;
    GatherMembers(DeleteBag(c, er), c.changes, f);
    forall ch | ch in c.changes && f in DeleteBag(c, er)(ch)
      ensures exists i :: 0 <= i < |c.changes| && f in DeleteBag(c, er)(c.changes[i])
    {
      var i :| 0 <= i < |c.changes| && c.changes[i] == ch;
    }
    forall i | 0 <= i < |c.changes| && f in DeleteBag(c, er)(c.changes[i])
      ensures exists ch :: ch in c.changes && f in DeleteBag(c, er)(ch)
    {
      assert c.changes[i] in c.changes;
    }
  }

  lemma {:induction false} EditsReported(c: Ctx, er: seq<Rule>, f: Finding)
    ensures f in Gather(EditBag(), EscalatedSubjects(c, er)) <==>
      && EditReported(c, er, f.subject)
      && f == Finding("aggregate.unmatchedEdit", "", "require-review", f.subject, 0, "change.unmatchedEdit", "")
  {
    hide EditReported, EscalatedSubjects, Gather;
    var ss := EscalatedSubjects(c, er);
    GatherMembers(EditBag(), ss, f);
    EscalatedIs(c, er, f.subject);
    if f in Gather(EditBag(), ss) {
      var i :| 0 <= i < |ss| && f in EditBag()(ss[i]);
      assert ss[i] in ss;
    }
    if f.subject in ss {
      var i :| 0 <= i < |ss| && ss[i] == f.subject;
      assert f == EditFinding(f.subject) ==> f in EditBag()(ss[i]);
    }
  }

  lemma {:induction false} FindingsAre(c: Ctx, er: seq<Rule>, f: Finding)
    requires forall r :: r in er ==> r.prove.Some?
    ensures f in AllFindings(c, er) <==> Reported(c, er, f)
  {
    hide Gather, ReportedBy, CoveredBy, DeleteGoverned, EditReported, EscalatedSubjects;
    RulesReport(c, er, f);
    UncoveredReported(c, er, f);
    DeletesReported(c, er, f);
    EditsReported(c, er, f);
  }

  lemma {:induction false} ProvingRules(ceiling: string, rules: seq<Rule>)
    ensures forall r :: r in Filter(EnforcedFilter(ceiling), rules) <==> r in rules && Enforced(ceiling, r)
    ensures forall r :: r in Filter(ObservedFilter(ceiling), rules) <==> r in rules && Observed(ceiling, r)
    ensures forall r :: Enforced(ceiling, r) || Observed(ceiling, r) ==> r.prove.Some?
  {
    FilterMembers(EnforcedFilter(ceiling), rules);
    FilterMembers(ObservedFilter(ceiling), rules);
  }

  /** Exactly which findings a decided request carries, and exactly which are only observed. */
  lemma {:induction false} FindingsExactlyWhen(q: Request, out: DecideOutcome, f: Finding)
    requires DecideSpec(q, out) && ReachesRules(q) && out.Decided?
    ensures f in out.result.findings <==> Reported(Normalized(q), EnforcedRules(Normalized(q), q.rules), f)
    ensures f in out.result.observed <==> ReportedBy(Normalized(q), ObservedRules(Normalized(q), q.rules), f)
  {
    hide MatchErrorIn, Reported, ReportedBy, FinalDecision, AllFindings, GapAt, Gather, Enforced, Observed;
    var c := Normalized(q);
    ProvingRules(c.ceiling, q.rules);
    FindingsAre(c, EnforcedRules(c, q.rules), f);
    RulesReport(c, ObservedRules(c, q.rules), f);
    assert f in out.result.findings <==> f in multiset(out.result.findings);
    assert f in out.result.observed <==> f in multiset(out.result.observed);
  }

  // ----- How often -----

  /** The rule reports `f` on the subject of a change it selects. */
  ghost predicate Says(c: Ctx, r: Rule, f: Finding) {
    exists i :: && 0 <= i < |c.changes| && Selects(c.glob, r.domain, c.changes[i])
                && Reports(c, r, c.changes[i].subject, f)
  }

  ghost function SaysFilter(c: Ctx, f: Finding): Rule -> bool { (r: Rule) => Says(c, r, f) }

  ghost function SubjectSays(c: Ctx, r: Rule, f: Finding): string -> bool { (s: string) => Reports(c, r, s, f) }

  ghost function UncoveredFilter(er: seq<Rule>, f: Finding): string -> bool {
    (o: string) =>
      !CoveredBy(er, o) && f == Finding("aggregate.uncovered", o, "require-review", "", 0, "obligation.uncovered", "")
  }

  ghost function DeleteFilter(c: Ctx, er: seq<Rule>, f: Finding): EvalChange -> bool {
    (ch: EvalChange) =>
      && ch.path == "" && ch.kind == "delete" && !DeleteGoverned(c, er, ch)
      && f == Finding("aggregate.unmatchedDelete", "", "require-review", ch.subject, 0, "fileEvent.unmatchedDelete", "")
  }

  lemma {:induction false} CountedOnce(c: Ctx, r: Rule, f: Finding)
    requires r.prove.Some?
    ensures RuleBag(c, r)[f] == if Says(c, r, f) then 1 else 0
  {
    hide Reports, SubjectCoverage, Selects, Gather, Selected;
    var ss := SubjectsOf(Selected(c, r));
    SubjectsOfMembers(Selected(c, r));
    forall s
      ensures SubjectBagOf(c, r)(s)[f] == if SubjectSays(c, r, f)(s) then 1 else 0
    {
      SubjectReports(c, r, s, f);
    }
    GatherCount(SubjectBagOf(c, r), SubjectSays(c, r, f), ss, f);
    assert forall s :: SubjectSays(c, r, f)(s) ==> s == f.subject by { ReportsItsSubject(c, r, f); }
    OnceInDistinct(SubjectSays(c, r, f), ss, f.subject);
    RuleReports(c, r, f);
  }

  lemma ReportsItsSubject(c: Ctx, r: Rule, f: Finding)
    ensures forall s :: Reports(c, r, s, f) ==> s == f.subject
  {}

  lemma {:induction false} RulesCounted(c: Ctx, rs: seq<Rule>, f: Finding)
    requires forall r :: r in rs ==> r.prove.Some?
    ensures Gather(RuleBagOf(c), rs)[f] == |Filter(SaysFilter(c, f), rs)|
  {
    hide Says, RuleBag, Gather, Filter;
    forall i | 0 <= i < |rs|
      ensures RuleBagOf(c)(rs[i])[f] == if SaysFilter(c, f)(rs[i]) then 1 else 0
    {
      assert rs[i] in rs;
      CountedOnce(c, rs[i], f);
    }
    GatherCount(RuleBagOf(c), SaysFilter(c, f), rs, f);
  }

  lemma {:induction false} EditsCounted(c: Ctx, er: seq<Rule>, f: Finding)
    ensures Gather(EditBag(), EscalatedSubjects(c, er))[f] ==
            if && EditReported(c, er, f.subject)
               && f == Finding("aggregate.unmatchedEdit", "", "require-review", f.subject, 0,
                               "change.unmatchedEdit", "")
            then 1 else 0
  {
    hide EditReported, Gather, Filter, SomeRequiredCovered;
    var ss := EscalatedSubjects(c, er);
    var same := EditIs(f);
    EscalatedIs(c, er, f.subject);
    SubjectsOfMembers(Filter(LooseEditFilter(c, er), c.changes));
    GatherCount(EditBag(), same, ss, f);
    OnceInDistinct(same, ss, f.subject);
  }

  ghost function EditIs(f: Finding): string -> bool { (s: string) => f == EditFinding(s) }

  /**
   How often a finding is reported: once for each enforcing rule that reports it, for each listing of an
   uncovered obligation and for each ungoverned delete, and at most once for a subject's ungoverned edits.
   */
  lemma {:induction false} FindingsCounted(q: Request, out: DecideOutcome, f: Finding)
    requires DecideSpec(q, out) && ReachesRules(q) && out.Decided?
    ensures var c := Normalized(q);
            var er := EnforcedRules(c, q.rules);
            && multiset(out.result.findings)[f] ==
               |Filter(SaysFilter(c, f), er)| + |Filter(UncoveredFilter(er, f), c.require)|
               + |Filter(DeleteFilter(c, er, f), c.changes)|
               + (if && EditReported(c, er, f.subject)
                     && f == Finding("aggregate.unmatchedEdit", "", "require-review", f.subject, 0,
                                     "change.unmatchedEdit", "")
                  then 1 else 0)
            && multiset(out.result.observed)[f] == |Filter(SaysFilter(c, f), ObservedRules(c, q.rules))|
  {
    hide MatchErrorIn, FinalDecision, GapAt, Gather, Filter, Enforced, Observed, CoveredBy, DeleteGoverned,
         EditReported, Says, EscalatedSubjects;
    var c := Normalized(q);
    var er := EnforcedRules(c, q.rules);
    ProvingRules(c.ceiling, q.rules);
    RulesCounted(c, er, f);
    RulesCounted(c, ObservedRules(c, q.rules), f);
    GatherCount(UncoveredBag(er), UncoveredFilter(er, f), c.require, f);
    GatherCount(DeleteBag(c, er), DeleteFilter(c, er, f), c.changes, f);
    EditsCounted(c, er, f);
  }

  // ----- Capability gaps -----

  /** An authored review requirement fails cleanly on the subject, and the forge cannot tell who approved. */
  ghost predicate LacksCapability(c: Ctx, r: Rule, s: string) {
    && NoError(c, r, s) && !AllHold(c, r, s) && r.onFailure.Some? && r.onFailure.value.effect == "require-review"
    && c.approval.Some? && s in c.approval.value.evidence && c.approval.value.evidence[s].capability == "none"
  }

  lemma {:induction false} SubjectGap(c: Ctx, r: Rule, s: string)
    requires r.prove.Some?
    ensures HasGap(c, r, s) <==> LacksCapability(c, r, s)
  {
    hide Messages, SmallestMessage, Firings, NoError, AllHold, Mine, Selected, CountingIds;
    ErrorAndHold(c, r, s);
  }

  /** Exactly which subjects are reported as capability gaps, and under which name. */
  lemma {:induction false} GapsExactlyWhen(q: Request, out: DecideOutcome, s: string)
    requires DecideSpec(q, out) && ReachesRules(q) && out.Decided?
    ensures s in out.result.gaps <==>
            exists r, ch :: && r in EnforcedRules(Normalized(q), q.rules) && ch in q.ctx.changes && ch.subject == s
                            && Selects(q.ctx.glob, r.domain, ch) && LacksCapability(Normalized(q), r, s)
    ensures s in out.result.gaps ==> out.result.gaps[s] == "approval-capability-none"
  {
    hide MatchErrorIn, FinalDecision, AllFindings, Gather, Enforced, Observed, HasGap, LacksCapability, Selects;
    var c := Normalized(q);
    var er := EnforcedRules(c, q.rules);
    ProvingRules(c.ceiling, q.rules);
    forall r | r in er
      ensures RuleGap(c, r, s) <==>
              && LacksCapability(c, r, s)
              && exists ch :: ch in c.changes && ch.subject == s && Selects(c.glob, r.domain, ch)
    {
      SubjectGap(c, r, s);
      SelectedSubject(c, r, s);
    }
    if GapAt(c, er, s) {
      var i :| 0 <= i < |er| && RuleGap(c, er[i], s);
      assert er[i] in er;
    }
    forall r | r in er && RuleGap(c, r, s)
      ensures GapAt(c, er, s)
    {
      var i :| 0 <= i < |er| && er[i] == r;
    }
  }

  lemma {:induction false} SelectedSubject(c: Ctx, r: Rule, s: string)
    ensures s in SubjectsOf(Selected(c, r)) <==>
            exists ch :: ch in c.changes && ch.subject == s && Selects(c.glob, r.domain, ch)
  {
    hide Selects;
    SubjectsOfMembers(Selected(c, r));
    FilterMembers(SelectFilter(c.glob, r.domain), c.changes);
    if s in SubjectsOf(Selected(c, r)) {
      var n :| 0 <= n < |Selected(c, r)| && Selected(c, r)[n].subject == s;
      assert Selected(c, r)[n] in c.changes;
    }
    forall ch | ch in c.changes && ch.subject == s && Selects(c.glob, r.domain, ch)
      ensures s in SubjectsOf(Selected(c, r))
    {
      assert ch in Selected(c, r);
      var n :| 0 <= n < |Selected(c, r)| && Selected(c, r)[n] == ch;
    }
  }
}
