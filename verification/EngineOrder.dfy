/** What the decision does not depend on: order, and rules that do not enforce. */
module EngineOrder {
  import opened Sequences
  import opened Strings
  import opened Findings
  import opened AssertTree
  import opened Policy
  import opened Engine
  import opened Decider

  // ----- What the rules read from the change list -----

  /** The walk of `t` evaluates leaf `l`. */
  ghost predicate LeafIn(l: Leaf, t: Tree)
    decreases t
  {
    if t.leaf.Some? then l == t.leaf.value
    else if t.all.Children? then exists i :: 0 <= i < |t.all.list| && LeafIn(l, t.all.list[i])
    else if t.any.Children? then exists i :: 0 <= i < |t.any.list| && LeafIn(l, t.any.list[i])
    else t.not.Negated? && LeafIn(l, t.not.tree)
  }

  /** On every change of the request, the rule's own leaves and messages read the same from either change list. */
  ghost predicate ReadsAlike(c: Ctx, d: Ctx, r: Rule) {
    r.prove.Some? ==>
      forall l, ch :: LeafIn(l, r.prove.value.when) && ch in c.changes ==>
        && c.leaf(l, ch, c.changes) == c.leaf(l, ch, d.changes)
        && c.expand(l.message, ch, c.changes) == c.expand(l.message, ch, d.changes)
  }

  ghost predicate AllReadAlike(c: Ctx, d: Ctx, er: seq<Rule>) {
    forall r :: r in er ==> ReadsAlike(c, d, r)
  }

  /** The same request with changes and required obligations listed in another order. */
  ghost predicate Reordered(c: Ctx, d: Ctx) {
    && d == c.(changes := d.changes, require := d.require)
    && Permutation(c.changes, d.changes) && Permutation(c.require, d.require)
  }

  /** The tree's leaves and their messages come out the same. */
  ghost predicate AlikeIn(
    t: Tree, leaf: Leaf -> Tri, leaf': Leaf -> Tri, expand: string -> string, expand': string -> string)
  {
    forall l :: LeafIn(l, t) ==> leaf(l) == leaf'(l) && expand(l.message) == expand'(l.message)
  }

  lemma {:induction false} JudgeAgrees(
    t: Tree, depth: nat, leaf: Leaf -> Tri, leaf': Leaf -> Tri, expand: string -> string, expand': string -> string)
    requires AlikeIn(t, leaf, leaf', expand, expand')
    ensures Judge(t, depth, leaf, expand) == Judge(t, depth, leaf', expand')
    decreases t
  {
    if depth <= MAX_ASSERT_DEPTH && t.leaf.None? {
      if t.all.Children? {
        JudgesAgree(t.all.list, depth + 1, leaf, leaf', expand, expand');
      } else if t.any.Children? {
        JudgesAgree(t.any.list, depth + 1, leaf, leaf', expand, expand');
      } else if t.not.Negated? {
        JudgeAgrees(t.not.tree, depth + 1, leaf, leaf', expand, expand');
      }
    }
  }

  lemma {:induction false} JudgesAgree(
    ts: seq<Tree>, depth: nat, leaf: Leaf -> Tri, leaf': Leaf -> Tri,
    expand: string -> string, expand': string -> string)
    requires forall i :: 0 <= i < |ts| ==> AlikeIn(ts[i], leaf, leaf', expand, expand')
    ensures Judges(ts, depth, leaf, expand) == Judges(ts, depth, leaf', expand')
    decreases ts
  {
    hide AlikeIn;
    forall i | 0 <= i < |ts|
      ensures Judge(ts[i], depth, leaf, expand) == Judge(ts[i], depth, leaf', expand')
    {
      JudgeAgrees(ts[i], depth, leaf, leaf', expand, expand');
    }
  }

  /** A verdict reads the rule's tree from the top, each leaf and message with the change and the whole change list. */
  lemma {:induction false} VerdictIs(
    c: Ctx, r: Rule, ch: EvalChange, leaf: Leaf -> Tri, expand: string -> string)
    requires r.prove.Some?
    requires forall l :: leaf(l) == c.leaf(l, ch, c.changes)
    requires forall m :: expand(m) == c.expand(m, ch, c.changes)
    ensures VerdictOf(c, r, ch) == Judge(r.prove.value.when, 0, leaf, expand)
    ensures VerdictOf(c, r, ch).value == Meaning(r.prove.value.when, 0, leaf)
  {
    hide Meaning, Judge;
    JudgeAgrees(r.prove.value.when, 0, LeafAt(c, ch), leaf, ExpandAt(c, ch), expand);
    JudgeMeans(r.prove.value.when, 0, leaf, expand);
  }

  lemma {:induction false} VerdictAgrees(c: Ctx, d: Ctx, r: Rule, ch: EvalChange)
    requires Reordered(c, d) && ReadsAlike(c, d, r) && ch in c.changes
    ensures VerdictOf(c, r, ch) == VerdictOf(d, r, ch)
  {
    hide LeafIn;
    if r.prove.Some? {
      JudgeAgrees(r.prove.value.when, 0, LeafAt(c, ch), LeafAt(d, ch), ExpandAt(c, ch), ExpandAt(d, ch));
    }
  }

  // ----- One rule -----

  lemma {:induction false} FilterPermutes(
    p: EvalChange -> bool, q: EvalChange -> bool, xs: seq<EvalChange>, ys: seq<EvalChange>)
    requires Permutation(xs, ys) && forall x :: x in xs ==> p(x) == q(x)
    ensures Permutation(Filter(p, xs), Filter(q, ys))
  {
    FilterPermutation(p, xs);
    FilterPermutation(q, ys);
    forall x
      ensures multiset(Filter(p, xs))[x] == multiset(Filter(q, ys))[x]
    {
      assert x in xs <==> x in multiset(xs);
    }
  }

  lemma {:induction false} SelectedPermutes(c: Ctx, d: Ctx, r: Rule)
    requires Reordered(c, d)
    ensures Permutation(Selected(c, r), Selected(d, r))
  {
    hide Selects;
    FilterPermutes(SelectFilter(c.glob, r.domain), SelectFilter(d.glob, r.domain), c.changes, d.changes);
  }

  lemma {:induction false} SubjectsPermute(xs: seq<EvalChange>, ys: seq<EvalChange>)
    requires Permutation(xs, ys)
    ensures Permutation(SubjectsOf(xs), SubjectsOf(ys))
  {
    SubjectsOfMembers(xs);
    SubjectsOfMembers(ys);
    PermutationMembers(xs, ys);
    var ss, ts := SubjectsOf(xs), SubjectsOf(ys);
    forall s
      ensures s in ss <==> s in ts
    {
      if s in ss {
        var i :| 0 <= i < |xs| && xs[i].subject == s;
        assert xs[i] in ys;
      }
      if s in ts {
        var i :| 0 <= i < |ys| && ys[i].subject == s;
        assert ys[i] in xs;
      }
    }
    DistinctPermutation(ss, ts);
  }

  lemma {:induction false} MessagesAgree(c: Ctx, d: Ctx, r: Rule, xs: seq<EvalChange>, ys: seq<EvalChange>, v: Tri)
    requires Reordered(c, d) && ReadsAlike(c, d, r) && Permutation(xs, ys) && forall x :: x in xs ==> x in c.changes
    ensures Messages(c, r, xs, v) == Messages(d, r, ys, v)
  {
    hide VerdictOf, Reordered, ReadsAlike;
    PermutationMembers(xs, ys);
    forall m | m in Messages(c, r, xs, v)
      ensures m in Messages(d, r, ys, v)
    {
      var i :| 0 <= i < |xs| && VerdictOf(c, r, xs[i]).value == v && VerdictOf(c, r, xs[i]).message == m;
      assert xs[i] in ys;
      var j :| 0 <= j < |ys| && ys[j] == xs[i];
      VerdictAgrees(c, d, r, ys[j]);
    }
    forall m | m in Messages(d, r, ys, v)
      ensures m in Messages(c, r, xs, v)
    {
      var i :| 0 <= i < |ys| && VerdictOf(d, r, ys[i]).value == v && VerdictOf(d, r, ys[i]).message == m;
      assert ys[i] in xs;
      var j :| 0 <= j < |xs| && xs[j] == ys[i];
      VerdictAgrees(c, d, r, xs[j]);
    }
  }

  lemma {:induction false} FiringsAgree(c: Ctx, d: Ctx, r: Rule, xs: seq<EvalChange>, ys: seq<EvalChange>)
    requires Reordered(c, d) && ReadsAlike(c, d, r) && Permutation(xs, ys) && forall x :: x in xs ==> x in c.changes
    ensures Firings(c, r, xs) == Firings(d, r, ys)
  {
    hide VerdictOf, Reordered, ReadsAlike;
    forall x | x in xs
      ensures FiresFilter(c, r)(x) == FiresFilter(d, r)(x)
    {
      VerdictAgrees(c, d, r, x);
    }
    FilterPermutes(FiresFilter(c, r), FiresFilter(d, r), xs, ys);
    PermutationMembers(Filter(FiresFilter(c, r), xs), Filter(FiresFilter(d, r), ys));
  }

  /** The smallest message and the firing count do not depend on the order of the changes. */
  lemma {:induction false} CoverageAgrees(c: Ctx, d: Ctx, r: Rule, s: string)
    requires Reordered(c, d) && ReadsAlike(c, d, r) && r.prove.Some?
    ensures SubjectCoverage(c, r, s) == SubjectCoverage(d, r, s)
    ensures CoverageDecision(c, r, SubjectCoverage(c, r, s)) == CoverageDecision(d, r, SubjectCoverage(d, r, s))
  {
    hide Messages, Firings, Satisfied, ReadsAlike;
    SelectedPermutes(c, d, r);
    FilterMembers(SelectFilter(c.glob, r.domain), c.changes);
    FilterMembers(SubjectFilter(s), Selected(c, r));
    hide Selected;
    FilterPermutes(SubjectFilter(s), SubjectFilter(s), Selected(c, r), Selected(d, r));
    var xs, ys := Mine(s, Selected(c, r)), Mine(s, Selected(d, r));
    MessagesAgree(c, d, r, xs, ys, Unknown);
    MessagesAgree(c, d, r, xs, ys, False);
    FiringsAgree(c, d, r, xs, ys);
    PermutationMembers(c.require, d.require);
  }

  lemma {:induction false} LoneChange(c: Ctx, r: Rule, ch: EvalChange, other: EvalChange)
    requires c.changes == [ch, other] || c.changes == [other, ch]
    requires Selects(c.glob, r.domain, ch) && ch.subject != other.subject
    ensures Mine(ch.subject, Selected(c, r)) == [ch]
  {
    hide Selects;
    var keep, mine := SelectFilter(c.glob, r.domain), SubjectFilter(ch.subject);
    forall x, y
      ensures [x, y] == [] + [x] + [y]
      ensures Filter(keep, [x, y]) == (if keep(x) then [x] else []) + if keep(y) then [y] else []
      ensures Filter(mine, [x, y]) == (if mine(x) then [x] else []) + if mine(y) then [y] else []
      ensures Filter(mine, [x]) == if mine(x) then [x] else []
    {
      assert [x, y][1..] == [y] && [x][1..] == [] && [y][1..] == [];
      assert Filter(keep, [y]) == if keep(y) then [y] else [];
      assert Filter(mine, [y]) == if mine(y) then [y] else [];
    }
    assert [ch] + [] == [ch] && [] + [ch] == [ch] && [other] + [] == [other];
  }

  /** The condition is needed: a leaf that holds of the first change only tells two orders apart. */
  lemma {:induction false} OrderReadingLeaf(c: Ctx, d: Ctx, r: Rule, l: Leaf, a: EvalChange, b: EvalChange)
    requires c.changes == [a, b] && d == c.(changes := [b, a]) && a.subject != b.subject
    requires Selects(c.glob, r.domain, a) && r.prove.Some? && r.prove.value.when == Tree(Some(l), Nil, Nil, NoChild)
    requires c.leaf(l, a, [a, b]) == True && c.leaf(l, a, [b, a]) == Unknown
    ensures Reordered(c, d) && SubjectCoverage(c, r, a.subject).Silent? && SubjectCoverage(d, r, a.subject).Fires?
  {
    hide Selects, Selected, Mine, Firings, SmallestMessage;
    LoneChange(c, r, a, b);
    LoneChange(d, r, a, b);
    assert multiset([a, b]) == multiset([b, a]);
    assert VerdictOf(c, r, [a][0]).value == True && VerdictOf(d, r, [a][0]).value == Unknown;
    assert VerdictOf(d, r, [a][0]).message in Messages(d, r, [a], Unknown);
    assert Messages(c, r, [a], Unknown) == {} && Messages(c, r, [a], False) == {};
  }

  lemma {:induction false} RuleAgrees(c: Ctx, d: Ctx, r: Rule)
    requires Reordered(c, d) && ReadsAlike(c, d, r)
    ensures RuleDecision(c, r) == RuleDecision(d, r)
    ensures RuleBag(c, r) == RuleBag(d, r)
    ensures RulePoints(c, r) == RulePoints(d, r)
    ensures forall s :: RuleGap(c, r, s) <==> RuleGap(d, r, s)
  {
    hide Selected, SubjectCoverage, CoverageDecision, CoverageBag, CoveragePoints, WorstBy, Gather, Sum, SubjectsOf,
         Reordered, ReadsAlike;
    var ss, ts := SubjectsOf(Selected(c, r)), SubjectsOf(Selected(d, r));
    SelectedPermutes(c, d, r);
    SubjectsPermute(Selected(c, r), Selected(d, r));
    PermutationMembers(ss, ts);
    if r.prove.Some? {
      forall s
        ensures SubjectCoverage(c, r, s) == SubjectCoverage(d, r, s)
        ensures SubjectDecisionOf(c, r)(s) == SubjectDecisionOf(d, r)(s)
      {
        CoverageAgrees(c, d, r, s);
      }
      WorstByAgree(SubjectDecisionOf(c, r), SubjectDecisionOf(d, r), ss, ts);
      GatherAgree(SubjectBagOf(c, r), SubjectBagOf(d, r), ss);
      GatherPermutation(SubjectBagOf(d, r), ss, ts);
      SumAgree(SubjectPointsOf(c, r), SubjectPointsOf(d, r), ss);
      SumPermutation(SubjectPointsOf(d, r), ss, ts);
    }
  }

  // ----- All rules, in any order -----

  lemma {:induction false} RulesAgree(c: Ctx, d: Ctx, er: seq<Rule>, es: seq<Rule>)
    requires Reordered(c, d) && AllReadAlike(c, d, er) && Permutation(er, es)
    ensures WorstBy(RuleDecisionOf(c), er) == WorstBy(RuleDecisionOf(d), es)
    ensures Gather(RuleBagOf(c), er) == Gather(RuleBagOf(d), es)
    ensures Sum(RulePointsOf(c), er) == Sum(RulePointsOf(d), es)
    ensures forall s :: GapAt(c, er, s) <==> GapAt(d, es, s)
    ensures forall o :: CoveredBy(er, o) <==> CoveredBy(es, o)
  {
    hide RuleDecision, RuleBag, RulePoints, RuleGap, WorstBy, Gather, Sum, Reordered, ReadsAlike;
    PermutationMembers(er, es);
    forall r | r in er
      ensures RuleDecision(c, r) == RuleDecision(d, r)
      ensures RuleBag(c, r) == RuleBag(d, r) && RulePoints(c, r) == RulePoints(d, r)
    {
      RuleAgrees(c, d, r);
    }
    WorstByAgree(RuleDecisionOf(c), RuleDecisionOf(d), er, es);
    GatherAgree(RuleBagOf(c), RuleBagOf(d), er);
    GatherPermutation(RuleBagOf(d), er, es);
    SumAgree(RulePointsOf(c), RulePointsOf(d), er);
    SumPermutation(RulePointsOf(d), er, es);
    forall s
      ensures GapAt(c, er, s) <==> GapAt(d, es, s)
    {
      forall r | r in er
        ensures RuleGap(c, r, s) <==> RuleGap(d, r, s)
      {
        RuleAgrees(c, d, r);
      }
      GapsMove(c, d, er, es, s);
      GapsMove(d, c, es, er, s);
    }
    forall o
      ensures CoveredBy(er, o) <==> CoveredBy(es, o)
    {
      CoveredMoves(er, es, o);
      CoveredMoves(es, er, o);
    }
  }

  lemma {:induction false} GapsMove(c: Ctx, d: Ctx, er: seq<Rule>, es: seq<Rule>, s: string)
    requires forall r :: r in er ==> r in es
    requires forall r :: r in er && RuleGap(c, r, s) ==> RuleGap(d, r, s)
    ensures GapAt(c, er, s) ==> GapAt(d, es, s)
  {
    hide RuleGap;
    if GapAt(c, er, s) {
      var i :| 0 <= i < |er| && RuleGap(c, er[i], s);
      assert er[i] in es;
      var j :| 0 <= j < |es| && es[j] == er[i];
    }
  }

  lemma {:induction false} CoveredMoves(er: seq<Rule>, es: seq<Rule>, o: string)
    requires forall r :: r in er ==> r in es
    ensures CoveredBy(er, o) ==> CoveredBy(es, o)
  {
    if CoveredBy(er, o) {
      var i :| 0 <= i < |er| && er[i].prove.Some? && er[i].prove.value.obligation == o;
      assert er[i] in es;
      var j :| 0 <= j < |es| && es[j] == er[i];
    }
  }

  lemma {:induction false} GovernedMoves(c: Ctx, d: Ctx, er: seq<Rule>, es: seq<Rule>, ch: EvalChange)
    requires c.glob == d.glob && forall r :: r in er ==> r in es
    ensures DeleteGoverned(c, er, ch) ==> DeleteGoverned(d, es, ch)
    ensures EditGoverned(c, er, ch) ==> EditGoverned(d, es, ch)
  {
    hide Selects;
    if DeleteGoverned(c, er, ch) {
      var i :| 0 <= i < |er| && er[i].domain.fileEvents.Some? && Selects(c.glob, er[i].domain, ch);
      assert er[i] in es;
      var j :| 0 <= j < |es| && es[j] == er[i];
    }
    if EditGoverned(c, er, ch) {
      var i :| 0 <= i < |er| && Selects(c.glob, er[i].domain, ch);
      assert er[i] in es;
      var j :| 0 <= j < |es| && es[j] == er[i];
    }
  }

  /** A property of some element does not depend on the order of the list. */
  lemma {:induction false} ExistsMoves<T(!new)>(p: T -> bool, xs: seq<T>, ys: seq<T>)
    requires forall x :: x in xs ==> x in ys
    requires exists i :: 0 <= i < |xs| && p(xs[i])
    ensures exists j :: 0 <= j < |ys| && p(ys[j])
  {
    var i :| 0 <= i < |xs| && p(xs[i]);
    assert xs[i] in ys;
    var j :| 0 <= j < |ys| && ys[j] == xs[i];
  }

  ghost function UncoveredFilter(er: seq<Rule>): string -> bool { (o: string) => !CoveredBy(er, o) }
  ghost function CoveredFilter(er: seq<Rule>): string -> bool { (o: string) => CoveredBy(er, o) }
  ghost function LooseDeleteFilter(
    c: Ctx, er: seq<Rule>): EvalChange -> bool { (ch: EvalChange) => LooseDelete(c, er, ch) }

  lemma {:induction false} FailSafeMoves(c: Ctx, d: Ctx, er: seq<Rule>, es: seq<Rule>)
    requires Reordered(c, d) && Permutation(er, es)
    requires forall o :: CoveredBy(er, o) <==> CoveredBy(es, o)
    requires forall ch :: LooseDelete(c, er, ch) <==> LooseDelete(d, es, ch)
    ensures AnyUncovered(c, er) ==> AnyUncovered(d, es)
    ensures AnyLooseDelete(c, er) ==> AnyLooseDelete(d, es)
    ensures SomeRequiredCovered(c, er) ==> SomeRequiredCovered(d, es)
  {
    hide CoveredBy, LooseDelete;
    PermutationMembers(c.require, d.require);
    PermutationMembers(c.changes, d.changes);
    if AnyUncovered(c, er) {
      var i :| 0 <= i < |c.require| && !CoveredBy(er, c.require[i]);
      assert UncoveredFilter(er)(c.require[i]);
      ExistsMoves(UncoveredFilter(er), c.require, d.require);
    }
    if SomeRequiredCovered(c, er) {
      var i :| 0 <= i < |c.require| && CoveredBy(er, c.require[i]);
      assert CoveredFilter(er)(c.require[i]);
      ExistsMoves(CoveredFilter(er), c.require, d.require);
    }
    if AnyLooseDelete(c, er) {
      var i :| 0 <= i < |c.changes| && LooseDelete(c, er, c.changes[i]);
      assert LooseDeleteFilter(c, er)(c.changes[i]);
      ExistsMoves(LooseDeleteFilter(c, er), c.changes, d.changes);
    }
  }

  lemma ReorderedBack(c: Ctx, d: Ctx)
    requires Reordered(c, d)
    ensures Reordered(d, c)
  {}

  lemma {:induction false} LooseAgree(c: Ctx, d: Ctx, er: seq<Rule>, es: seq<Rule>)
    requires Reordered(c, d) && Permutation(er, es)
    ensures forall ch :: LooseDelete(c, er, ch) <==> LooseDelete(d, es, ch)
    ensures forall ch :: LooseEdit(c, er, ch) <==> LooseEdit(d, es, ch)
  {
    hide DeleteGoverned, EditGoverned;
    PermutationMembers(er, es);
    forall ch
      ensures DeleteGoverned(c, er, ch) <==> DeleteGoverned(d, es, ch)
      ensures EditGoverned(c, er, ch) <==> EditGoverned(d, es, ch)
    {
      GovernedMoves(c, d, er, es, ch);
      GovernedMoves(d, c, es, er, ch);
    }
  }

  lemma {:induction false} EscalatedAgree(c: Ctx, d: Ctx, er: seq<Rule>, es: seq<Rule>)
    requires Reordered(c, d)
    requires SomeRequiredCovered(c, er) <==> SomeRequiredCovered(d, es)
    requires forall ch :: LooseEdit(c, er, ch) <==> LooseEdit(d, es, ch)
    ensures Permutation(EscalatedSubjects(c, er), EscalatedSubjects(d, es))
  {
    hide LooseEdit, SomeRequiredCovered;
    FilterPermutes(LooseEditFilter(c, er), LooseEditFilter(d, es), c.changes, d.changes);
    SubjectsPermute(Filter(LooseEditFilter(c, er), c.changes), Filter(LooseEditFilter(d, es), d.changes));
  }

  lemma {:induction false} BagsAgree<T, U>(f: T -> multiset<U>, g: T -> multiset<U>, xs: seq<T>, ys: seq<T>)
    requires Permutation(xs, ys)
    requires forall i :: 0 <= i < |xs| ==> f(xs[i]) == g(xs[i])
    ensures Gather(f, xs) == Gather(g, ys)
  {
    GatherAgree(f, g, xs);
    GatherPermutation(g, xs, ys);
  }

  lemma {:induction false} TotalsAgree(c: Ctx, d: Ctx, er: seq<Rule>, es: seq<Rule>)
    requires Reordered(c, d) && AllReadAlike(c, d, er) && Permutation(er, es)
    ensures FinalDecision(c, er) == FinalDecision(d, es)
    ensures AllFindings(c, er) == AllFindings(d, es)
    ensures forall s :: GapAt(c, er, s) <==> GapAt(d, es, s)
  {
    hide GapAt, CoveredBy, LooseDelete, LooseEdit, WorstBy, Gather, Sum, EscalatedSubjects, AllReadAlike,
         SomeRequiredCovered, AnyUncovered, AnyLooseDelete;
    RulesAgree(c, d, er, es);
    LooseAgree(c, d, er, es);
    ReorderedBack(c, d);
    FailSafeMoves(c, d, er, es);
    FailSafeMoves(d, c, es, er);
    EscalatedAgree(c, d, er, es);
    PermutationMembers(EscalatedSubjects(c, er), EscalatedSubjects(d, es));
    BagsAgree(UncoveredBag(er), UncoveredBag(es), c.require, d.require);
    BagsAgree(DeleteBag(c, er), DeleteBag(d, es), c.changes, d.changes);
    BagsAgree(EditBag(), EditBag(), EscalatedSubjects(c, er), EscalatedSubjects(d, es));
  }

  // ----- Findings in sorted order -----

  ghost predicate Synthetic(name: string) {
    name == RULE_UNCOVERED || name == RULE_UNMATCHED_DELETE || name == RULE_UNMATCHED_EDIT
  }

  /** Enforcing rules have names of their own. */
  ghost predicate NamesApart(er: seq<Rule>) {
    && (forall i :: 0 <= i < |er| ==> !Synthetic(er[i].name))
    && (forall i, j :: 0 <= i < |er| && 0 <= j < |er| && er[i].name == er[j].name ==> er[i] == er[j])
  }

  /** The finding rule `r` produces for subject `s`. */
  ghost predicate FromRule(c: Ctx, r: Rule, f: Finding) {
    && r.prove.Some? && SubjectCoverage(c, r, f.subject).Fires? && SubjectCoverage(c, r, f.subject).finding == f
    && f.rule == r.name
  }

  ghost predicate FromNowhere(f: Finding) {
    f == UncoveredFinding(f.obligation) || f == DeleteFinding(f.subject) || f == EditFinding(f.subject)
  }

  lemma {:induction false} RuleBagMembers(c: Ctx, r: Rule, f: Finding)
    requires f in RuleBag(c, r)
    ensures FromRule(c, r, f)
  {
    hide Selected, CoverageOf, Gather, SubjectsOf, Mine;
    var ss := SubjectsOf(Selected(c, r));
    if r.prove.Some? {
      GatherMembers(SubjectBagOf(c, r), ss, f);
      var i :| 0 <= i < |ss| && f in SubjectBagOf(c, r)(ss[i]);
      CoverageNames(c, r, ss[i], Mine(ss[i], Selected(c, r)));
    }
  }

  lemma {:induction false} CoverageNames(c: Ctx, r: Rule, subject: string, mine: seq<EvalChange>)
    requires r.prove.Some?
    ensures var cov := CoverageOf(c, r, subject, mine);
            cov.Fires? ==> cov.finding.subject == subject && cov.finding.rule == r.name
  {
    hide Messages, SmallestMessage, Firings, Satisfied;
  }

  lemma {:induction false} FindingSources(c: Ctx, er: seq<Rule>, f: Finding)
    requires f in AllFindings(c, er)
    ensures FromNowhere(f) || exists i :: 0 <= i < |er| && FromRule(c, er[i], f)
  {
    hide RuleBag, FromRule, Gather, CoveredBy, LooseDelete, EscalatedSubjects;
    if f in Gather(RuleBagOf(c), er) {
      GatherMembers(RuleBagOf(c), er, f);
      var i :| 0 <= i < |er| && f in RuleBagOf(c)(er[i]);
      RuleBagMembers(c, er[i], f);
    } else if f in Gather(UncoveredBag(er), c.require) {
      GatherMembers(UncoveredBag(er), c.require, f);
    } else if f in Gather(DeleteBag(c, er), c.changes) {
      GatherMembers(DeleteBag(c, er), c.changes, f);
    } else {
      GatherMembers(EditBag(), EscalatedSubjects(c, er), f);
    }
  }

  lemma {:induction false} KeySeparates(c: Ctx, er: seq<Rule>, f: Finding, g: Finding)
    requires NamesApart(er) && f in AllFindings(c, er) && g in AllFindings(c, er)
    requires SortKey(f) == SortKey(g)
    ensures f == g
  {
    hide AllFindings, SubjectCoverage;
    FindingSources(c, er, f);
    FindingSources(c, er, g);
    assert f.subject == SortKey(f)[0] && g.subject == SortKey(g)[0];
    assert f.rule == SortKey(f)[1] && g.rule == SortKey(g)[1];
    assert f.obligation == SortKey(f)[2] && g.obligation == SortKey(g)[2];
  }

  lemma {:induction false} FindingsSeparate(c: Ctx, er: seq<Rule>, fs: seq<Finding>)
    requires NamesApart(er) && multiset(fs) == AllFindings(c, er)
    ensures Separates(FindingLeq, fs)
  {
    hide AllFindings, LexLeq, NamesApart;
    forall f, g | f in fs && g in fs && FindingLeq(f, g) && FindingLeq(g, f)
      ensures f == g
    {
      LexCompare(SortKey(f), SortKey(g));
      assert f in multiset(fs) && g in multiset(fs);
      KeySeparates(c, er, f, g);
    }
  }

  /**
   Order independence and non-interference: reorder the changes, as far as the enforcing rules' own
   leaves and messages do not read their order, reorder the required obligations, and take any rules
   whose enforcing part is a reordering of this one's; the decision, the bag of findings and the
   capability gaps stay the same.  When enforcing rules have names of their own, the sorted list of
   findings is identical, message for message.
   */
  lemma {:induction false} DecisionIndependent(
    c: Ctx, rules: seq<Rule>, r: Result, d: Ctx, rules': seq<Rule>, r': Result)
    requires Reordered(c, d) && AllReadAlike(c, d, EnforcedRules(c, rules))
    requires Permutation(EnforcedRules(c, rules), EnforcedRules(d, rules'))
    requires Decides(c, rules, r) && Decides(d, rules', r')
    ensures r'.decision == r.decision
    ensures Permutation(r'.findings, r.findings)
    ensures r'.gaps == r.gaps
    ensures NamesApart(EnforcedRules(c, rules)) ==> r'.findings == r.findings
  {
    hide Reordered, AllReadAlike, EnforcedRules, ObservedRules, FinalDecision, AllFindings, GapAt, NamesApart,
         FindingLeq;
    TotalsAgree(c, d, EnforcedRules(c, rules), EnforcedRules(d, rules'));
    assert r'.gaps.Keys == r.gaps.Keys;
    if NamesApart(EnforcedRules(c, rules)) {
      FindingsSeparate(c, EnforcedRules(c, rules), r.findings);
      SortedUnique(FindingLeq, r.findings, r'.findings);
    }
  }

  lemma {:induction false} ReorderedRules(c: Ctx, rules: seq<Rule>, rules': seq<Rule>)
    requires Permutation(rules, rules')
    ensures Permutation(EnforcedRules(c, rules), EnforcedRules(c, rules'))
  {
    FilterPermutation(EnforcedFilter(c.ceiling), rules);
    FilterPermutation(EnforcedFilter(c.ceiling), rules');
  }

  /** Reordering the rules themselves is one such case, the observed bucket included. */
  lemma {:induction false} RuleOrderIndependent(c: Ctx, rules: seq<Rule>, r: Result, rules': seq<Rule>, r': Result)
    requires Permutation(rules, rules')
    requires Decides(c, rules, r) && Decides(c, rules', r')
    ensures r'.decision == r.decision && Permutation(r'.findings, r.findings) && r'.gaps == r.gaps
    ensures NamesApart(EnforcedRules(c, rules)) ==> r'.findings == r.findings
    ensures Permutation(r'.observed, r.observed)
  {
    hide FinalDecision, AllFindings, GapAt, FindingLeq, Gather, RuleBag;
    ReorderedRules(c, rules, rules');
    DecisionIndependent(c, rules, r, c, rules', r');
    FilterPermutation(ObservedFilter(c.ceiling), rules);
    FilterPermutation(ObservedFilter(c.ceiling), rules');
    GatherPermutation(RuleBagOf(c), ObservedRules(c, rules), ObservedRules(c, rules'));
  }

  /** Under a ceiling below enforce nothing can vouch: the decision is REVIEW, whatever the rules say. */
  lemma {:induction false} CappedAlwaysReviews(c: Ctx, rules: seq<Rule>, r: Result)
    requires c.ceiling != ENFORCE && c.require != []
    requires Decides(c, rules, r)
    ensures r.decision == Review
    ensures r.gaps == map[]
  {
    var er := EnforcedRules(c, rules);
    FilterMembers(EnforcedFilter(c.ceiling), rules);
    assert er == [] by {
      if er != [] {
        assert er[0] in er;
        NeverEnforced(c.ceiling, er[0]);
      }
    }
    assert !CoveredBy(er, c.require[0]);
    assert r.gaps.Keys == {};
  }

  lemma NeverEnforced(ceiling: string, r: Rule)
    requires ceiling != ENFORCE
    ensures !Enforced(ceiling, r)
  {}

  // ----- The guarded entry -----

  /**
   The same request, its changes, required obligations and rules listed in another order that its
   enforcing rules do not read.
   */
  ghost predicate ReorderedRequest(q: Request, q': Request) {
    && q'.subject == q.subject && q'.subjectClass == q.subjectClass && q'.opaqueSet == q.opaqueSet
    && Reordered(q.ctx, q'.ctx) && Permutation(q.rules, q'.rules)
    && AllReadAlike(Normalized(q), Normalized(q'), EnforcedRules(Normalized(q), q.rules))
  }

  /** The same decision, findings and gaps; the same refusal. */
  ghost predicate SameOutcome(out: DecideOutcome, out': DecideOutcome) {
    match out
    case Refused(_) => out' == out
    case Decided(r) =>
      && out'.Decided? && out'.result.decision == r.decision
      && Permutation(out'.result.findings, r.findings) && out'.result.gaps == r.gaps
  }

  lemma {:induction false} MatchErrorMoves(c: Ctx, d: Ctx, rules: seq<Rule>, rules': seq<Rule>)
    requires c.ceiling == d.ceiling && Permutation(rules, rules') && MatchErrorIn(c, rules)
    ensures MatchErrorIn(d, rules')
  {
    hide Evaluated, MatchFails;
    PermutationMembers(rules, rules');
    var i :| 0 <= i < |rules| && Evaluated(c.ceiling, rules[i]) && MatchFails(rules[i].domain);
    assert rules[i] in rules';
    var j :| 0 <= j < |rules'| && rules'[j] == rules[i];
  }

  lemma {:induction false} NormalizedReordered(q: Request, q': Request)
    requires ReorderedRequest(q, q')
    ensures Reordered(Normalized(q), Normalized(q'))
    ensures q.ctx.changes == [] <==> q'.ctx.changes == []
    ensures q.ctx.require == [] <==> q'.ctx.require == []
  {
    PermutationMembers(q.ctx.changes, q'.ctx.changes);
    PermutationMembers(q.ctx.require, q'.ctx.require);
  }

  /** Order independence of the whole entry, its guards and refusals included. */
  lemma {:induction false} DecideOrderIndependent(q: Request, out: DecideOutcome, q': Request, out': DecideOutcome)
    requires ReorderedRequest(q, q') && DecideSpec(q, out) && DecideSpec(q', out')
    ensures SameOutcome(out, out')
    ensures out.Decided? && NamesApart(EnforcedRules(Normalized(q), q.rules)) ==>
            out'.result.findings == out.result.findings
  {
    hide Decides, MatchErrorIn, NamesApart, EnforcedRules, AllReadAlike;
    var c, d := Normalized(q), Normalized(q');
    NormalizedReordered(q, q');
    if MatchErrorIn(c, q.rules) { MatchErrorMoves(c, d, q.rules, q'.rules); }
    if MatchErrorIn(d, q'.rules) { MatchErrorMoves(d, c, q'.rules, q.rules); }
    if ReachesRules(q) && !MatchErrorIn(c, q.rules) {
      ReorderedRules(c, q.rules, q'.rules);
      assert EnforcedRules(c, q'.rules) == EnforcedRules(d, q'.rules) by { SameCeiling(c, d, q'.rules); }
      DecisionIndependent(c, q.rules, out.result, d, q'.rules, out'.result);
    }
  }

  lemma SameCeiling(c: Ctx, d: Ctx, rules: seq<Rule>)
    requires c.ceiling == d.ceiling
    ensures EnforcedRules(c, rules) == EnforcedRules(d, rules)
  {}

  /** Rules that do not enforce have no say: exchange them at will, short of a match error. */
  lemma {:induction false} DecideNonInterference(q: Request, out: DecideOutcome, q': Request, out': DecideOutcome)
    requires q' == q.(rules := q'.rules) && DecideSpec(q, out) && DecideSpec(q', out')
    requires EnforcedRules(Normalized(q), q.rules) == EnforcedRules(Normalized(q), q'.rules)
    requires !MatchErrorIn(Normalized(q), q.rules) && !MatchErrorIn(Normalized(q), q'.rules)
    ensures SameOutcome(out, out')
  {
    hide Decides, MatchErrorIn, EnforcedRules;
    if ReachesRules(q) {
      DecisionIndependent(Normalized(q), q.rules, out.result, Normalized(q), q'.rules, out'.result);
    }
  }

  /** Under a ceiling other than enforce or none, a decision outside the reserved class is REVIEW. */
  lemma {:induction false} CappedDecideReviews(q: Request, out: DecideOutcome)
    requires DecideSpec(q, out) && q.ctx.ceiling != ENFORCE && q.ctx.ceiling != ""
    requires q.subjectClass != RESERVED_POLICY_CLASS
    ensures out.Decided? ==> out.result.decision == Review && out.result.gaps == map[]
  {
    hide Decides, MatchErrorIn;
    if ReachesRules(q) && out.Decided? {
      CappedAlwaysReviews(Normalized(q), q.rules, out.result);
    }
  }
}
