/** The whole decision: the rule loop, the uncovered obligations, the escalations, the guards. */
module Decider {
  import opened Sequences
  import opened Findings
  import opened Policy
  import opened Engine

  const RULE_UNDECIDABLE := "aggregate.changeset"
  const RULE_UNCOVERED := "aggregate.uncovered"
  const RULE_UNMATCHED_DELETE := "aggregate.unmatchedDelete"
  const RULE_UNMATCHED_EDIT := "aggregate.unmatchedEdit"
  const RESERVED_POLICY_CLASS := "assent-policy"
  const GAP_NONE := "approval-capability-none"

  // ----- What the rules contribute -----

  ghost function RuleDecisionOf(c: Ctx): Rule -> Decision { (r: Rule) => RuleDecision(c, r) }
  ghost function RuleBagOf(c: Ctx): Rule -> multiset<Finding> { (r: Rule) => RuleBag(c, r) }
  ghost function RulePointsOf(c: Ctx): Rule -> int { (r: Rule) => RulePoints(c, r) }
  function ObservedFilter(ceiling: string): Rule -> bool { (r: Rule) => Observed(ceiling, r) }

  function EnforcedRules(c: Ctx, rules: seq<Rule>): seq<Rule> {
    Filter(EnforcedFilter(c.ceiling), rules)
  }

  function ObservedRules(c: Ctx, rules: seq<Rule>): seq<Rule> {
    Filter(ObservedFilter(c.ceiling), rules)
  }

  ghost predicate GapAt(c: Ctx, er: seq<Rule>, s: string) {
    exists i :: 0 <= i < |er| && RuleGap(c, er[i], s)
  }

  ghost predicate CoveredBy(er: seq<Rule>, obligation: string) {
    exists i :: 0 <= i < |er| && er[i].prove.Some? && er[i].prove.value.obligation == obligation
  }

  predicate Evaluated(ceiling: string, r: Rule) {
    Enforced(ceiling, r) || Observed(ceiling, r)
  }

  /** An evaluated rule whose match domain is malformed. */
  ghost predicate MatchErrorIn(c: Ctx, rules: seq<Rule>) {
    exists i :: 0 <= i < |rules| && Evaluated(c.ceiling, rules[i]) && MatchFails(rules[i].domain)
  }

  /** The loop's running totals. */
  datatype Tally = Tally(
    decision: Decision, findings: seq<Finding>, observed: seq<Finding>, points: int,
    gaps: set<string>, covered: set<string>)

  ghost predicate Tallies(c: Ctx, rules: seq<Rule>, t: Tally) {
    var er := EnforcedRules(c, rules);
    && t.decision == WorstBy(RuleDecisionOf(c), er)
    && multiset(t.findings) == Gather(RuleBagOf(c), er)
    && multiset(t.observed) == Gather(RuleBagOf(c), ObservedRules(c, rules))
    && t.points == Sum(RulePointsOf(c), er)
    && (forall s :: s in t.gaps <==> GapAt(c, er, s))
    && (forall o :: o in t.covered <==> CoveredBy(er, o))
  }

  lemma {:induction false} GapAtSnoc(c: Ctx, er: seq<Rule>, r: Rule, s: string)
    ensures GapAt(c, er + [r], s) <==> GapAt(c, er, s) || RuleGap(c, r, s)
  {
    hide RuleGap;
    var es := er + [r];
    if GapAt(c, er, s) {
      var i :| 0 <= i < |er| && RuleGap(c, er[i], s);
      assert es[i] == er[i];
    }
    if RuleGap(c, r, s) {
      assert es[|er|] == r;
    }
  }

  lemma {:induction false} CoveredBySnoc(er: seq<Rule>, r: Rule, o: string)
    ensures CoveredBy(er + [r], o) <==> CoveredBy(er, o) || (r.prove.Some? && r.prove.value.obligation == o)
  {
    var es := er + [r];
    if CoveredBy(er, o) {
      var i :| 0 <= i < |er| && er[i].prove.Some? && er[i].prove.value.obligation == o;
      assert es[i] == er[i];
    }
    assert es[|er|] == r;
  }

  lemma {:induction false} TallyEnforced(c: Ctx, rules: seq<Rule>, r: Rule, t: Tally, y: RuleYield)
    requires Tallies(c, rules, t) && Yields(c, r, y) && Enforced(c.ceiling, r)
    ensures Tallies(c, rules + [r], t.(
              decision := Worse(t.decision, y.decision), findings := t.findings + y.findings,
              points := t.points + y.points,
              gaps := t.gaps + (set i | 0 <= i < |y.gaps| :: y.gaps[i]),
              covered := t.covered + {r.prove.value.obligation}))
  {
    hide RuleDecision, RuleBag, RulePoints, RuleGap, WorstBy, Gather, Sum, GapAt, CoveredBy, Worse;
    var er := EnforcedRules(c, rules);
    FilterAppend(EnforcedFilter(c.ceiling), rules, r);
    FilterAppend(ObservedFilter(c.ceiling), rules, r);
    WorstBySnoc(RuleDecisionOf(c), er, r);
    GatherSnoc(RuleBagOf(c), er, r);
    SumSnoc(RulePointsOf(c), er, r);
    var gaps := t.gaps + (set i | 0 <= i < |y.gaps| :: y.gaps[i]);
    forall s
      ensures s in gaps <==> GapAt(c, er + [r], s)
    {
      GapAtSnoc(c, er, r, s);
      assert s in y.gaps <==> exists i :: 0 <= i < |y.gaps| && y.gaps[i] == s;
    }
    forall o
      ensures o in t.covered + {r.prove.value.obligation} <==> CoveredBy(er + [r], o)
    {
      CoveredBySnoc(er, r, o);
    }
  }

  lemma {:induction false} TallyObserved(c: Ctx, rules: seq<Rule>, r: Rule, t: Tally, y: RuleYield)
    requires Tallies(c, rules, t) && Yields(c, r, y) && Observed(c.ceiling, r)
    ensures Tallies(c, rules + [r], t.(observed := t.observed + y.findings))
  {
    hide RuleDecision, RuleBag, RulePoints, RuleGap, WorstBy, Gather, Sum, GapAt, CoveredBy;
    FilterAppend(EnforcedFilter(c.ceiling), rules, r);
    FilterAppend(ObservedFilter(c.ceiling), rules, r);
    GatherSnoc(RuleBagOf(c), ObservedRules(c, rules), r);
  }

  lemma {:induction false} TallySkipped(c: Ctx, rules: seq<Rule>, r: Rule, t: Tally)
    requires Tallies(c, rules, t) && !Enforced(c.ceiling, r) && !Observed(c.ceiling, r)
    ensures Tallies(c, rules + [r], t)
  {
    hide GapAt, CoveredBy, WorstBy, Gather, Sum;
    FilterAppend(EnforcedFilter(c.ceiling), rules, r);
    FilterAppend(ObservedFilter(c.ceiling), rules, r);
  }

  lemma {:induction false} TallyEmpty(c: Ctx)
    ensures Tallies(c, [], Tally(Approve, [], [], 0, {}, {}))
  {
    hide RuleGap;
  }

  lemma NothingSelected(c: Ctx, r: Rule)
    requires r.prove.Some? && Selected(c, r) == []
    ensures Yields(c, r, RuleYield(Approve, [], 0, []))
  {}

  /** Every rule in order: skip, observe or enforce; a malformed match domain ends the evaluation. */
  method CoverRules(c: Ctx, rules: seq<Rule>) returns (r: Option<Tally>)
    ensures r.None? <==> MatchErrorIn(c, rules)
    ensures r.Some? ==> Tallies(c, rules, r.value)
  {
    hide Tallies, Yields, Selected, MatchFails;
    var t := Tally(Approve, [], [], 0, {}, {});
    TallyEmpty(c);
    for i := 0 to |rules|
      invariant Tallies(c, rules[..i], t)
      invariant !MatchErrorIn(c, rules[..i])
    {
      var rule := rules[i];
      assert rules[..i + 1] == rules[..i] + [rule];
      var phase := EffectivePhase(rule.phase, c.ceiling);
      if (phase != ENFORCE && phase != OBSERVE) || rule.prove.None? {
        TallySkipped(c, rules[..i], rule, t);
        continue;
      }
      var matched := MatchChanges(c.glob, rule.domain, c.changes);
      if matched.None? { return None; }
      var y := RuleYield(Approve, [], 0, []);
      assert matched.value == Selected(c, rule) by { SelectedIs(c, rule); }
      if |matched.value| != 0 {
        y := CoverRule(c, rule, matched.value);
      } else {
        NothingSelected(c, rule);
      }
      if phase == OBSERVE {
        TallyObserved(c, rules[..i], rule, t, y);
        t := t.(observed := t.observed + y.findings);
      } else {
        TallyEnforced(c, rules[..i], rule, t, y);
        t := t.(decision := Worse(t.decision, y.decision), findings := t.findings + y.findings,
                points := t.points + y.points,
                gaps := t.gaps + (set j | 0 <= j < |y.gaps| :: y.gaps[j]),
                covered := t.covered + {rule.prove.value.obligation});
      }
    }
    assert rules[..|rules|] == rules;
    r := Some(t);
  }

  lemma SelectedIs(c: Ctx, r: Rule)
    ensures Selected(c, r) == Filter(SelectFilter(c.glob, r.domain), c.changes)
  {}

  // ----- Fail-safe escalations -----

  function UncoveredFinding(obligation: string): Finding {
    Finding(RULE_UNCOVERED, obligation, EFFECT_REQUIRE_REVIEW, "", 0, "obligation.uncovered", "")
  }

  function DeleteFinding(subject: string): Finding {
    Finding(RULE_UNMATCHED_DELETE, "", EFFECT_REQUIRE_REVIEW, subject, 0, "fileEvent.unmatchedDelete", "")
  }

  function EditFinding(subject: string): Finding {
    Finding(RULE_UNMATCHED_EDIT, "", EFFECT_REQUIRE_REVIEW, subject, 0, "change.unmatchedEdit", "")
  }

  ghost function UncoveredBag(er: seq<Rule>): string -> multiset<Finding> {
    (o: string) => if CoveredBy(er, o) then multiset{} else multiset{UncoveredFinding(o)}
  }

  /** Some enforcing fileEvents rule selects the delete. */
  ghost predicate DeleteGoverned(c: Ctx, er: seq<Rule>, ch: EvalChange) {
    exists i :: 0 <= i < |er| && er[i].domain.fileEvents.Some? && Selects(c.glob, er[i].domain, ch)
  }

  /** Some enforcing rule selects the change. */
  ghost predicate EditGoverned(c: Ctx, er: seq<Rule>, ch: EvalChange) {
    exists i :: 0 <= i < |er| && Selects(c.glob, er[i].domain, ch)
  }

  ghost predicate LooseDelete(c: Ctx, er: seq<Rule>, ch: EvalChange) {
    ch.path == "" && ch.kind == "delete" && !DeleteGoverned(c, er, ch)
  }

  ghost predicate LooseEdit(c: Ctx, er: seq<Rule>, ch: EvalChange) {
    ch.path != "" && !EditGoverned(c, er, ch)
  }

  ghost function DeleteBag(c: Ctx, er: seq<Rule>): EvalChange -> multiset<Finding> {
    (ch: EvalChange) => if LooseDelete(c, er, ch) then multiset{DeleteFinding(ch.subject)} else multiset{}
  }

  ghost function LooseEditFilter(c: Ctx, er: seq<Rule>): EvalChange -> bool {
    (ch: EvalChange) => LooseEdit(c, er, ch)
  }

  ghost function EditBag(): string -> multiset<Finding> {
    (s: string) => multiset{EditFinding(s)}
  }

  ghost predicate SomeRequiredCovered(c: Ctx, er: seq<Rule>) {
    exists i :: 0 <= i < |c.require| && CoveredBy(er, c.require[i])
  }

  /** The subjects with an edit nobody governs, when some required obligation has a prover. */
  ghost function EscalatedSubjects(c: Ctx, er: seq<Rule>): seq<string> {
    if SomeRequiredCovered(c, er) then SubjectsOf(Filter(LooseEditFilter(c, er), c.changes)) else []
  }

  /** Searches all rules, of any phase, for one that enforces and selects the change. */
  method SearchGoverning(c: Ctx, rules: seq<Rule>, ch: EvalChange, fileEventsOnly: bool) returns (found: bool)
    ensures found <==> if fileEventsOnly then DeleteGoverned(c, EnforcedRules(c, rules), ch)
                       else EditGoverned(c, EnforcedRules(c, rules), ch)
  {
    hide Selects, MatchFails, EffectivePhase;
    found := false;
    for i := 0 to |rules|
      invariant found <==> exists j :: 0 <= j < i && Governs(c, rules[j], ch, fileEventsOnly)
    {
      var r := rules[i];
      if r.prove.None? || (fileEventsOnly && r.domain.fileEvents.None?) { continue; }
      if EffectivePhase(r.phase, c.ceiling) != ENFORCE { continue; }
      var m := MatchChanges(c.glob, r.domain, [ch]);
      SelectsOne(c, r, ch);
      if m.Some? && |m.value| > 0 { found := true; break; }
    }
    GovernsIs(c, rules, ch, fileEventsOnly);
  }

  lemma {:induction false} GovernsIs(c: Ctx, rules: seq<Rule>, ch: EvalChange, fileEventsOnly: bool)
    ensures (exists j :: 0 <= j < |rules| && Governs(c, rules[j], ch, fileEventsOnly))
            <==> if fileEventsOnly then DeleteGoverned(c, EnforcedRules(c, rules), ch)
                 else EditGoverned(c, EnforcedRules(c, rules), ch)
  {
    hide Selects, Enforced;
    var er := EnforcedRules(c, rules);
    FilterMembers(EnforcedFilter(c.ceiling), rules);
    forall j | 0 <= j < |rules| && Governs(c, rules[j], ch, fileEventsOnly)
      ensures exists i :: 0 <= i < |er| && er[i] == rules[j]
    {
      assert rules[j] in rules && EnforcedFilter(c.ceiling)(rules[j]);
    }
    forall i | 0 <= i < |er|
      ensures exists j :: 0 <= j < |rules| && rules[j] == er[i] && Enforced(c.ceiling, rules[j])
    {
      assert er[i] in er && EnforcedFilter(c.ceiling)(er[i]);
    }
  }

  predicate Governs(c: Ctx, r: Rule, ch: EvalChange, fileEventsOnly: bool) {
    Enforced(c.ceiling, r) && (fileEventsOnly ==> r.domain.fileEvents.Some?) && Selects(c.glob, r.domain, ch)
  }

  lemma {:induction false} SelectsOne(c: Ctx, r: Rule, ch: EvalChange)
    ensures |Filter(SelectFilter(c.glob, r.domain), [ch])| > 0 <==> Selects(c.glob, r.domain, ch)
    ensures MatchFails(r.domain) ==> !Selects(c.glob, r.domain, ch)
  {
    FilterAppend(SelectFilter(c.glob, r.domain), [], ch);
    assert [] + [ch] == [ch];
  }

  method Uncovered(c: Ctx, ghost er: seq<Rule>, covered: set<string>) returns (fs: seq<Finding>)
    requires forall o :: o in covered <==> CoveredBy(er, o)
    ensures multiset(fs) == Gather(UncoveredBag(er), c.require)
    ensures fs != [] <==> exists i :: 0 <= i < |c.require| && !CoveredBy(er, c.require[i])
  {
    hide Gather, CoveredBy;
    fs := [];
    GatherNothing(UncoveredBag(er));
    for i := 0 to |c.require|
      invariant multiset(fs) == Gather(UncoveredBag(er), c.require[..i])
      invariant fs != [] <==> exists j :: 0 <= j < i && !CoveredBy(er, c.require[j])
    {
      var o := c.require[i];
      assert c.require[..i + 1] == c.require[..i] + [o];
      GatherSnoc(UncoveredBag(er), c.require[..i], o);
      if o !in covered { fs := fs + [UncoveredFinding(o)]; }
    }
    assert c.require[..|c.require|] == c.require;
  }

  lemma GatherNothing<T, U>(f: T -> multiset<U>)
    ensures Gather(f, []) == multiset{}
  {}

  method EscalateDeletes(c: Ctx, rules: seq<Rule>) returns (fs: seq<Finding>)
    ensures multiset(fs) == Gather(DeleteBag(c, EnforcedRules(c, rules)), c.changes)
    ensures fs != [] <==> exists i :: 0 <= i < |c.changes| && LooseDelete(c, EnforcedRules(c, rules), c.changes[i])
  {
    hide Gather, DeleteGoverned, EnforcedRules, EditGoverned;
    ghost var er := EnforcedRules(c, rules);
    fs := [];
    GatherNothing(DeleteBag(c, er));
    for i := 0 to |c.changes|
      invariant multiset(fs) == Gather(DeleteBag(c, er), c.changes[..i])
      invariant fs != [] <==> exists j :: 0 <= j < i && LooseDelete(c, er, c.changes[j])
    {
      var ch := c.changes[i];
      assert c.changes[..i + 1] == c.changes[..i] + [ch];
      GatherSnoc(DeleteBag(c, er), c.changes[..i], ch);
      if ch.path != "" || ch.kind != "delete" { continue; }
      var governed := SearchGoverning(c, rules, ch, true);
      if governed { continue; }
      fs := fs + [DeleteFinding(ch.subject)];
    }
    assert c.changes[..|c.changes|] == c.changes;
  }

  method EscalateEdits(c: Ctx, rules: seq<Rule>, covered: set<string>) returns (fs: seq<Finding>)
    requires forall o :: o in covered <==> CoveredBy(EnforcedRules(c, rules), o)
    ensures multiset(fs) == Gather(EditBag(), EscalatedSubjects(c, EnforcedRules(c, rules)))
    ensures fs != [] <==> EscalatedSubjects(c, EnforcedRules(c, rules)) != []
  {
    hide Gather, EditGoverned, DeleteGoverned, EnforcedRules, CoveredBy;
    ghost var er := EnforcedRules(c, rules);
    fs := [];
    GatherNothing(EditBag());
    var any := false;
    for i := 0 to |c.require|
      invariant any <==> exists j :: 0 <= j < i && CoveredBy(er, c.require[j])
    {
      if c.require[i] in covered { any := true; }
    }
    if !any { return; }
    var escalated: set<string> := {};
    for i := 0 to |c.changes|
      invariant var ss := SubjectsOf(Filter(LooseEditFilter(c, er), c.changes[..i]));
                && multiset(fs) == Gather(EditBag(), ss) && (fs != [] <==> ss != [])
                && (forall s :: s in escalated <==> s in ss)
    {
      var ch := c.changes[i];
      ghost var before := Filter(LooseEditFilter(c, er), c.changes[..i]);
      FilterSnoc(LooseEditFilter(c, er), c.changes, i);
      SubjectsSnoc(before, ch);
      GatherSnoc(EditBag(), SubjectsOf(before), ch.subject);
      if ch.path == "" { continue; }
      if ch.subject in escalated { continue; }
      var governed := SearchGoverning(c, rules, ch, false);
      if governed { continue; }
      escalated := escalated + {ch.subject};
      fs := fs + [EditFinding(ch.subject)];
    }
    assert c.changes[..|c.changes|] == c.changes;
  }

  lemma {:induction false} SubjectsSnoc(xs: seq<EvalChange>, ch: EvalChange)
    ensures SubjectsOf(xs + [ch])
         == if ch.subject in SubjectsOf(xs) then SubjectsOf(xs) else SubjectsOf(xs) + [ch.subject]
  {
    assert (xs + [ch])[..|xs|] == xs;
  }

  // ----- The result -----

  ghost function AllFindings(c: Ctx, er: seq<Rule>): multiset<Finding> {
    Gather(RuleBagOf(c), er) + Gather(UncoveredBag(er), c.require)
    + Gather(DeleteBag(c, er), c.changes) + Gather(EditBag(), EscalatedSubjects(c, er))
  }

  ghost predicate AnyUncovered(c: Ctx, er: seq<Rule>) {
    exists i :: 0 <= i < |c.require| && !CoveredBy(er, c.require[i])
  }

  ghost predicate AnyLooseDelete(c: Ctx, er: seq<Rule>) {
    exists i :: 0 <= i < |c.changes| && LooseDelete(c, er, c.changes[i])
  }

  /** A required obligation without a prover, or a change nobody governs. */
  ghost predicate FailSafe(c: Ctx, er: seq<Rule>) {
    AnyUncovered(c, er) || AnyLooseDelete(c, er) || EscalatedSubjects(c, er) != []
  }

  ghost function FinalDecision(c: Ctx, er: seq<Rule>): Decision {
    Worse(Worse(WorstBy(RuleDecisionOf(c), er), if FailSafe(c, er) then Review else Approve),
          RiskDecision(Sum(RulePointsOf(c), er), c.threshold))
  }

  /** What a result must be, in terms of the enforcing rules alone, plus the observed bucket. */
  ghost predicate Decides(c: Ctx, rules: seq<Rule>, r: Result) {
    var er := EnforcedRules(c, rules);
    && r.decision == FinalDecision(c, er)
    && multiset(r.findings) == AllFindings(c, er) && Sorted(FindingLeq, r.findings)
    && multiset(r.observed) == Gather(RuleBagOf(c), ObservedRules(c, rules)) && Sorted(FindingLeq, r.observed)
    && (forall s :: s in r.gaps <==> GapAt(c, er, s))
    && (forall s :: s in r.gaps ==> r.gaps[s] == GAP_NONE)
  }

  /** The coverage loop; an empty ceiling is no ceiling. */
  method Cover(raw: Ctx, rules: seq<Rule>) returns (r: Option<Result>)
    ensures var c := raw.(ceiling := NormalCeiling(raw.ceiling));
            && (r.None? <==> MatchErrorIn(c, rules))
            && (r.Some? ==> Decides(c, rules, r.value))
  {
    hide GapAt, CoveredBy, EscalatedSubjects, LooseDelete, MatchErrorIn, WorstBy, Gather, Sum, EnforcedRules,
         ObservedRules, FindingLeq;
    var c := raw.(ceiling := NormalCeiling(raw.ceiling));
    var tallied := CoverRules(c, rules);
    if tallied.None? { return None; }
    var t := tallied.value;
    ghost var er := EnforcedRules(c, rules);
    var uncovered := Uncovered(c, er, t.covered);
    var deletes := EscalateDeletes(c, rules);
    var edits := EscalateEdits(c, rules, t.covered);
    var decision := t.decision;
    if uncovered != [] { decision := Worse(decision, Review); }
    if deletes != [] { decision := Worse(decision, Review); }
    if edits != [] { decision := Worse(decision, Review); }
    decision := Worse(decision, RiskDecision(t.points, c.threshold));
    var findings := SortFindings(t.findings + uncovered + deletes + edits);
    var observed := SortFindings(t.observed);
    r := Some(Result(decision, findings, observed, map s | s in t.gaps :: GAP_NONE));
  }

  // ----- The guarded entry -----

  datatype Request = Request(subject: string, subjectClass: string, opaqueSet: bool, ctx: Ctx, rules: seq<Rule>)

  datatype DecideError = EmptyRequire | BadPolicy

  datatype DecideOutcome = Decided(result: Result) | Refused(error: DecideError)

  function ReservedClassBlock(subject: string): Result {
    var f := Finding(RESERVED_POLICY_CLASS, "", EFFECT_BLOCK, subject, 0, "assent-policy.self-edit", "");
    Result(Block, [f], [], map[])
  }

  function UndecidableReview(subject: string): Result {
    var f := Finding(RULE_UNDECIDABLE, "", EFFECT_REQUIRE_REVIEW, subject, 0, "changeset.undecidable", "");
    Result(Review, [f], [], map[])
  }

  function Normalized(q: Request): Ctx {
    q.ctx.(ceiling := NormalCeiling(q.ctx.ceiling))
  }

  /** The request reaches the coverage loop. */
  ghost predicate ReachesRules(q: Request) {
    q.subjectClass != RESERVED_POLICY_CLASS && !q.opaqueSet && q.ctx.changes != [] && q.ctx.require != []
  }

  /** What Decide returns: the three dominating guards, then the coverage loop. */
  ghost predicate DecideSpec(q: Request, out: DecideOutcome) {
    if q.subjectClass == RESERVED_POLICY_CLASS then out == Decided(ReservedClassBlock(q.subject))
    else if q.opaqueSet || q.ctx.changes == [] then out == Decided(UndecidableReview(q.subject))
    else if q.ctx.require == [] then out == Refused(EmptyRequire)
    else if MatchErrorIn(Normalized(q), q.rules) then out == Refused(BadPolicy)
    else out.Decided? && Decides(Normalized(q), q.rules, out.result)
  }

  method Decide(q: Request) returns (out: DecideOutcome)
    ensures DecideSpec(q, out)
  {
    hide Decides, MatchErrorIn;
    if q.subjectClass == RESERVED_POLICY_CLASS { return Decided(ReservedClassBlock(q.subject)); }
    if q.opaqueSet || |q.ctx.changes| == 0 { return Decided(UndecidableReview(q.subject)); }
    if |q.ctx.require| == 0 { return Refused(EmptyRequire); }
    var r := Cover(q.ctx, q.rules);
    if r.None? { return Refused(BadPolicy); }
    return Decided(r.value);
  }
}
