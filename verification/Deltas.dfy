/**
 The delta collector: which findings explain a difference between two results, in what order they are
 recorded, and why a change of decision never leaves an empty or harmless record.
 */
module Deltas {
  import opened Sequences
  import opened Strings
  import opened Findings
  import opened Classify

  datatype Side = Side(present: bool, decision: Decision, effect: string, points: Option<int>)

  datatype Delta = Delta(
    kind: Kind, rule: string, subject: string, obligation: string, baseline: Side, candidate: Side)
  {
    /** What must be unique in a record, and the order of the record. */
    function Key(): seq<string> { [rule, subject, kind.Name()] }
  }

  datatype CompareError = UnclassifiableDelta | DuplicateDelta

  datatype Collected = Deltas(list: seq<Delta>) | CollectFailed(error: CompareError)

  predicate SameIntervention(f: Finding, g: Finding) {
    && f.rule == g.rule && f.obligation == g.obligation && f.effect == g.effect
    && f.subject == g.subject && f.code == g.code
  }

  /** How one identity differs between the two sides, if it does. */
  ghost function IdentityKind(b: Result, c: Result, bf: Option<Finding>, cf: Option<Finding>): Option<Kind> {
    match (bf, cf)
    case (Some(f), Some(g)) =>
      if !SameIntervention(f, g) then None
      else if b.decision == c.decision then if f.message != g.message then Some(ExplanationOnly) else None
      else if SameBag(InterventionOf(), b.findings, c.findings) then Some(ScoreThresholdChange)
      else None
    case (Some(f), None) =>
      if MissedEffect(f.effect) && c.decision != Approve then Some(InterventionMissed)
      else if c.decision == Approve && b.decision != Approve then Some(NewlyAutoMergeable)
      else None
    case (None, Some(g)) =>
      if && g.code == UNCOVERED_CODE && g.obligation !in UncoveredObligations(b)
         && c.decision.Severity() > b.decision.Severity()
      then Some(ObligationUncovered)
      else if StricterEffect(g.effect) && b.decision == Approve then Some(StricterInterventionAdded)
      else None
    case (None, None) => None
  }

  method ClassifyIdentityDelta(b: Result, c: Result, bf: Option<Finding>, cf: Option<Finding>) returns (r: Option<Kind>)
    ensures r == IdentityKind(b, c, bf, cf)
  {
    hide SameBag;
    match (bf, cf) {
      case (Some(f), Some(g)) =>
        if SameIntervention(f, g) {
          if b.decision == c.decision && f.message != g.message { return Some(ExplanationOnly); }
          if b.decision != c.decision {
            var same := SameInterventionKeys(b.findings, c.findings);
            if same { return Some(ScoreThresholdChange); }
          }
        }
        return None;
      case (Some(f), None) =>
        if MissedEffect(f.effect) && c.decision != Approve { return Some(InterventionMissed); }
        if c.decision == Approve && b.decision != Approve { return Some(NewlyAutoMergeable); }
        return None;
      case (None, Some(g)) =>
        var before := CollectUncovered(b);
        if g.code == UNCOVERED_CODE && g.obligation !in before && c.decision.Severity() > b.decision.Severity() {
          return Some(ObligationUncovered);
        }
        if StricterEffect(g.effect) && b.decision == Approve { return Some(StricterInterventionAdded); }
        return None;
      case (None, None) => return None;
    }
  }

  // ----- One delta -----

  function OutcomeSide(f: Option<Finding>, decision: Decision): Side {
    match f
    case None => Side(false, decision, "", None)
    case Some(g) => Side(true, decision, g.effect, if g.points != 0 then Some(g.points) else None)
  }

  function First(want: Finding -> bool, fs: seq<Finding>): Option<Finding> {
    if fs == [] then None else if want(fs[0]) then Some(fs[0]) else First(want, fs[1..])
  }

  function Names(obligation: string): Finding -> bool {
    (f: Finding) => obligation != "" && f.obligation == obligation && f.subject != ""
  }

  function HasSubject(): Finding -> bool { (f: Finding) => f.subject != "" }

  /** The subject a delta is filed under when its finding names none. */
  function ResolveDeltaSubject(obligation: string, findings: seq<Finding>, bundleSubjects: seq<string>): string {
    match First(Names(obligation), findings)
    case Some(f) => f.subject
    case None =>
      match First(HasSubject(), findings)
      case Some(f) => f.subject
      case None => if bundleSubjects != [] then bundleSubjects[0] else ""
  }

  function OrElse(a: string, b: string): string {
    if a == "" then b else a
  }

  function BuildDelta(
    kind: Kind, bf: Option<Finding>, cf: Option<Finding>, b: Result, c: Result, bundleSubjects: seq<string>): Delta
    requires bf.Some? || cf.Some?
  {
    var f := if bf.Some? then bf.value else cf.value;
    var g := if cf.Some? then cf.value else f;
    var rule, obligation := OrElse(f.rule, g.rule), OrElse(f.obligation, g.obligation);
    var resolved := ResolveDeltaSubject(obligation, b.findings + c.findings, bundleSubjects);
    var subject := OrElse(OrElse(f.subject, g.subject), resolved);
    Delta(kind, rule, subject, obligation, OutcomeSide(bf, b.decision), OutcomeSide(cf, c.decision))
  }

  function At(m: map<string, Finding>, id: string): Option<Finding> {
    if id in m then Some(m[id]) else None
  }

  ghost function Ids(b: Result, c: Result): set<string> {
    ById(b.findings).Keys + ById(c.findings).Keys
  }

  /** The delta one identity contributes. */
  ghost function DeltaAt(b: Result, c: Result, bundleSubjects: seq<string>, id: string): Option<Delta> {
    var bf, cf := At(ById(b.findings), id), At(ById(c.findings), id);
    match IdentityKind(b, c, bf, cf)
    case None => None
    case Some(kind) => Some(BuildDelta(kind, bf, cf, b, c, bundleSubjects))
  }

  // ----- All deltas of a case -----

  predicate DeltaLeq(a: Delta, b: Delta) {
    LexLeq(a.Key(), b.Key())
  }

  lemma {:induction false} DeltaLeqPreorder()
    ensures TotalPreorder(DeltaLeq)
  {
    hide LexLeq;
    forall a, b
      ensures DeltaLeq(a, b) || DeltaLeq(b, a)
    {
      LexCompare(a.Key(), b.Key());
    }
    forall a, b, c | DeltaLeq(a, b) && DeltaLeq(b, c)
      ensures DeltaLeq(a, c)
    {
      LexTransitive(a.Key(), b.Key(), c.Key());
    }
  }

  ghost predicate Yields(b: Result, c: Result, subjects: seq<string>, ids: set<string>, d: Delta) {
    exists id :: id in ids && DeltaAt(b, c, subjects, id) == Some(d)
  }

  ghost predicate Clashing(b: Result, c: Result, subjects: seq<string>, i: string, j: string) {
    var x, y := DeltaAt(b, c, subjects, i), DeltaAt(b, c, subjects, j);
    i != j && x.Some? && y.Some? && x.value.Key() == y.value.Key()
  }

  /** Two identities would be filed under one key. */
  ghost predicate Collides(b: Result, c: Result, subjects: seq<string>, ids: set<string>) {
    exists i, j :: i in ids && j in ids && Clashing(b, c, subjects, i, j)
  }

  /** The record's deltas: exactly what the identities yield, each key once, in key order. */
  ghost predicate Lists(b: Result, c: Result, subjects: seq<string>, ids: set<string>, list: seq<Delta>) {
    && Sorted(DeltaLeq, list)
    && Distinct(list)
    && (forall d :: d in list <==> Yields(b, c, subjects, ids, d))
  }

  /** The collector's outcome, errors included. */
  ghost predicate Collects(b: Result, c: Result, subjects: seq<string>, r: Collected) {
    match Classify.Classify(b, c)
    case Unclassified => r == CollectFailed(UnclassifiableDelta)
    case Agree => r == Deltas([])
    case Differs(_) =>
      if Collides(b, c, subjects, Ids(b, c)) then r == CollectFailed(DuplicateDelta)
      else if !exists d :: Yields(b, c, subjects, Ids(b, c), d) then r == CollectFailed(UnclassifiableDelta)
      else r.Deltas? && Lists(b, c, subjects, Ids(b, c), r.list)
  }

  /** The deltas by key, so far. */
  ghost predicate Filed(
    b: Result, c: Result, subjects: seq<string>, done: set<string>, byKey: map<seq<string>, Delta>)
  {
    && (forall k :: k in byKey ==> byKey[k].Key() == k && Yields(b, c, subjects, done, byKey[k]))
    && (forall id :: id in done && DeltaAt(b, c, subjects, id).Some? ==>
          var d := DeltaAt(b, c, subjects, id).value;
          d.Key() in byKey && byKey[d.Key()] == d)
    && !Collides(b, c, subjects, done)
  }

  lemma FiledNothing(b: Result, c: Result, subjects: seq<string>)
    ensures Filed(b, c, subjects, {}, map[])
  {}

  lemma {:induction false} FiledSkip(
    b: Result, c: Result, subjects: seq<string>, done: set<string>, byKey: map<seq<string>, Delta>, id: string)
    requires Filed(b, c, subjects, done, byKey) && DeltaAt(b, c, subjects, id) == None
    ensures Filed(b, c, subjects, done + {id}, byKey)
  {
    hide DeltaAt;
    forall k | k in byKey
      ensures Yields(b, c, subjects, done + {id}, byKey[k])
    {
      var i :| i in done && DeltaAt(b, c, subjects, i) == Some(byKey[k]);
      assert i in done + {id};
    }
  }

  lemma {:induction false} FiledInsert(
    b: Result, c: Result, subjects: seq<string>, done: set<string>, byKey: map<seq<string>, Delta>, id: string,
    d: Delta)
    requires Filed(b, c, subjects, done, byKey) && DeltaAt(b, c, subjects, id) == Some(d) && id !in done
    ensures d.Key() in byKey ==> Collides(b, c, subjects, done + {id})
    ensures d.Key() !in byKey ==> Filed(b, c, subjects, done + {id}, byKey[d.Key() := d])
  {
    hide DeltaAt;
    var more := done + {id};
    if d.Key() in byKey {
      var i :| i in done && DeltaAt(b, c, subjects, i) == Some(byKey[d.Key()]);
      assert Clashing(b, c, subjects, i, id) && i in more && id in more;
    } else {
      var byKey' := byKey[d.Key() := d];
      forall k | k in byKey'
        ensures Yields(b, c, subjects, more, byKey'[k])
      {
        if k in byKey {
          var i :| i in done && DeltaAt(b, c, subjects, i) == Some(byKey[k]);
          assert i in more;
        } else {
          assert id in more;
        }
      }
    }
  }

  /** Lists the filed deltas in key order. */
  method ListDeltas(byKey: map<seq<string>, Delta>) returns (out: seq<Delta>)
    requires forall k :: k in byKey ==> byKey[k].Key() == k
    ensures Sorted(DeltaLeq, out) && Distinct(out)
    ensures forall d :: d in out <==> d.Key() in byKey && byKey[d.Key()] == d
  {
    hide DeltaLeq;
    out := [];
    var todo := byKey.Keys;
    while todo != {}
      invariant todo <= byKey.Keys
      invariant Distinct(out)
      invariant forall d :: d in out <==> d.Key() in byKey && d.Key() !in todo && byKey[d.Key()] == d
      decreases todo
    {
      var k :| k in todo;
      var d := byKey[k];
      out, todo := out + [d], todo - {k};
    }
    DeltaLeqPreorder();
    SortBySorted(DeltaLeq, out);
    var sorted := SortBy(DeltaLeq, out);
    PermutationMembers(sorted, out);
    PermutationDistinct(out, sorted);
    out := sorted;
  }

  method CollectDeltas(b: Result, c: Result, subjects: seq<string>) returns (r: Collected)
    ensures Collects(b, c, subjects, r)
  {
    hide Classify.Classify, DeltaLeq, Filed, Collides;
    var caseClass := ClassifyPair(b, c);
    match caseClass {
      case Unclassified => return CollectFailed(UnclassifiableDelta);
      case Agree => return Deltas([]);
      case Differs(_) =>
    }
    r := CollectDiffering(b, c, subjects);
  }

  method CollectDiffering(b: Result, c: Result, subjects: seq<string>) returns (r: Collected)
    ensures if Collides(b, c, subjects, Ids(b, c)) then r == CollectFailed(DuplicateDelta)
            else if !exists d :: Yields(b, c, subjects, Ids(b, c), d) then r == CollectFailed(UnclassifiableDelta)
            else r.Deltas? && Lists(b, c, subjects, Ids(b, c), r.list)
  {
    hide DeltaLeq, Filed, Collides, IdentityKind, BuildDelta, ById, Yields, DeltaAt;
    var byKey: map<seq<string>, Delta> := map[];
    var baseById := FindingsByIdentity(b.findings);
    var candById := FindingsByIdentity(c.findings);
    var ids := baseById.Keys + candById.Keys;
    var todo := ids;
    FiledNothing(b, c, subjects);
    assert ids - todo == {};
    while todo != {}
      invariant todo <= ids
      invariant Filed(b, c, subjects, ids - todo, byKey)
      decreases todo
    {
      var id :| id in todo;
      ghost var done := ids - todo;
      var bf, cf := At(baseById, id), At(candById, id);
      var kind := ClassifyIdentityDelta(b, c, bf, cf);
      todo := todo - {id};
      assert ids - todo == done + {id};
      DeltaAtIs(b, c, subjects, id);
      if kind == None {
        FiledSkip(b, c, subjects, done, byKey, id);
        continue;
      }
      var d := BuildDelta(kind.value, bf, cf, b, c, subjects);
      FiledInsert(b, c, subjects, done, byKey, id, d);
      if d.Key() in byKey {
        CollidesMore(b, c, subjects, done + {id}, ids);
        return CollectFailed(DuplicateDelta);
      }
      byKey := byKey[d.Key() := d];
    }
    assert ids - todo == ids;
    FiledMeans(b, c, subjects, ids, byKey);
    if byKey == map[] { return CollectFailed(UnclassifiableDelta); }
    var out := ListDeltas(byKey);
    r := Deltas(out);
  }

  lemma {:induction false} DeltaAtIs(b: Result, c: Result, subjects: seq<string>, id: string)
    ensures var bf, cf := At(ById(b.findings), id), At(ById(c.findings), id);
            var kind := IdentityKind(b, c, bf, cf);
            DeltaAt(b, c, subjects, id)
            == if kind == None then None else Some(BuildDelta(kind.value, bf, cf, b, c, subjects))
  {
    hide IdentityKind, BuildDelta, ById;
  }

  lemma {:induction false} CollidesMore(
    b: Result, c: Result, subjects: seq<string>, ids: set<string>, more: set<string>)
    requires ids <= more && Collides(b, c, subjects, ids)
    ensures Collides(b, c, subjects, more)
  {
    hide Clashing;
  }

  lemma {:induction false} FiledMeans(
    b: Result, c: Result, subjects: seq<string>, ids: set<string>, byKey: map<seq<string>, Delta>)
    requires Filed(b, c, subjects, ids, byKey)
    ensures !Collides(b, c, subjects, ids)
    ensures forall k :: k in byKey ==> byKey[k].Key() == k
    ensures forall d :: Yields(b, c, subjects, ids, d) <==> d.Key() in byKey && byKey[d.Key()] == d
    ensures byKey == map[] <==> !exists d :: Yields(b, c, subjects, ids, d)
  {
    hide DeltaAt, Collides;
    forall d
      ensures Yields(b, c, subjects, ids, d) <==> d.Key() in byKey && byKey[d.Key()] == d
    {}
    if byKey != map[] {
      var k :| k in byKey;
      assert Yields(b, c, subjects, ids, byKey[k]);
    }
  }

  // ----- What a record certifies -----

  /** The order in which the identities are visited does not show: one outcome per case. */
  lemma {:induction false} CollectDeterministic(b: Result, c: Result, subjects: seq<string>, x: Collected, y: Collected)
    requires Collects(b, c, subjects, x) && Collects(b, c, subjects, y)
    ensures x == y
  {
    hide Yields, DeltaAt, DeltaLeq, Classify.Classify;
    if x.Deltas? && y.Deltas? && x != y {
      var ids := Ids(b, c);
      ListsUnique(b, c, subjects, ids, x.list, y.list);
    }
  }

  lemma {:induction false} ListsUnique(
    b: Result, c: Result, subjects: seq<string>, ids: set<string>, x: seq<Delta>, y: seq<Delta>)
    requires Lists(b, c, subjects, ids, x) && Lists(b, c, subjects, ids, y) && !Collides(b, c, subjects, ids)
    ensures x == y
  {
    hide DeltaAt, DeltaLeq;
    DistinctPermutation(x, y);
    forall d, e | d in x && e in x && DeltaLeq(d, e) && DeltaLeq(e, d)
      ensures d == e
    {
      SameKey(d, e);
      var i :| i in ids && DeltaAt(b, c, subjects, i) == Some(d);
      var j :| j in ids && DeltaAt(b, c, subjects, j) == Some(e);
      assert i != j ==> Clashing(b, c, subjects, i, j);
    }
    SortedUnique(DeltaLeq, x, y);
  }

  lemma {:induction false} SameKey(d: Delta, e: Delta)
    requires DeltaLeq(d, e) && DeltaLeq(e, d)
    ensures d.Key() == e.Key()
  {
    LexCompare(d.Key(), e.Key());
  }

  lemma {:induction false} IdentityKindShows(b: Result, c: Result, bf: Option<Finding>, cf: Option<Finding>)
    requires IdentityKind(b, c, bf, cf).Some?
    ensures b.decision != c.decision ==> IdentityKind(b, c, bf, cf) != Some(ExplanationOnly)
    ensures b.decision == c.decision && bf.Some? && cf.Some? ==> IdentityKind(b, c, bf, cf) == Some(ExplanationOnly)
  {
    hide SameBag, UncoveredObligations;
  }

  /** A change of decision is never recorded as nothing, and never as a change of wording. */
  lemma {:induction false} DecisionChangeIsRecorded(b: Result, c: Result, subjects: seq<string>, list: seq<Delta>)
    requires Collects(b, c, subjects, Deltas(list)) && b.decision != c.decision
    ensures list != [] && forall d :: d in list ==> d.kind != ExplanationOnly
  {
    hide IdentityKind, BuildDelta, DeltaLeq, SameBag, Missed, Uncovers, Stricter, ById, Collides;
    assert Lists(b, c, subjects, Ids(b, c), list);
    forall d | d in list
      ensures d.kind != ExplanationOnly
    {
      assert Yields(b, c, subjects, Ids(b, c), d);
      var id :| id in Ids(b, c) && DeltaAt(b, c, subjects, id) == Some(d);
      DeltaKind(b, c, subjects, id);
      IdentityKindShows(b, c, At(ById(b.findings), id), At(ById(c.findings), id));
    }
    var d :| Yields(b, c, subjects, Ids(b, c), d);
    assert d in list;
  }

  lemma DeltaKind(b: Result, c: Result, subjects: seq<string>, id: string)
    requires DeltaAt(b, c, subjects, id).Some?
    ensures IdentityKind(b, c, At(ById(b.findings), id), At(ById(c.findings), id))
         == Some(DeltaAt(b, c, subjects, id).value.kind)
  {}

  /** An unchanged decision is recorded only with unchanged findings, and then only as wording. */
  lemma {:induction false} SameDecisionIsWording(b: Result, c: Result, subjects: seq<string>, list: seq<Delta>)
    requires Collects(b, c, subjects, Deltas(list)) && b.decision == c.decision
    requires Legible(b.findings, c.findings)
    ensures SameBag(IdOf(), b.findings, c.findings) && forall d :: d in list ==> d.kind == ExplanationOnly
  {
    hide IdentityKind, BuildDelta, DeltaLeq, SameBag, Legible, FindingKey, Missed, Uncovers, Stricter;
    KeyBagsAreIdentityBags(b.findings, c.findings);
    SharedIdentities(b, c);
    forall d | d in list
      ensures d.kind == ExplanationOnly
    {
      assert Yields(b, c, subjects, Ids(b, c), d);
      var id :| id in Ids(b, c) && DeltaAt(b, c, subjects, id) == Some(d);
      DeltaKind(b, c, subjects, id);
      IdentityKindShows(b, c, At(ById(b.findings), id), At(ById(c.findings), id));
    }
  }

  lemma {:induction false} Counterpart(a: seq<Finding>, b: seq<Finding>, f: Finding) returns (g: Finding)
    requires SameBag(IdOf(), a, b) && f in a
    ensures g in b && Identify(g) == Identify(f)
  {
    PermutationMembers(Map(IdOf(), a), Map(IdOf(), b));
    var i :| 0 <= i < |a| && a[i] == f;
    assert Map(IdOf(), a)[i] in Map(IdOf(), b);
    var j :| 0 <= j < |b| && Map(IdOf(), b)[j] == Identify(f);
    g := b[j];
  }

  /** Equal identities are filed under equal keys on both sides. */
  lemma {:induction false} SharedIdentities(b: Result, c: Result)
    requires SameBag(IdOf(), b.findings, c.findings)
    ensures ById(b.findings).Keys == ById(c.findings).Keys
  {
    hide SameBag, ById;
    SharedOneWay(b.findings, c.findings);
    assert SameBag(IdOf(), c.findings, b.findings) by { BagSymmetric(b.findings, c.findings); }
    SharedOneWay(c.findings, b.findings);
  }

  lemma BagSymmetric(a: seq<Finding>, b: seq<Finding>)
    requires SameBag(IdOf(), a, b)
    ensures SameBag(IdOf(), b, a)
  {}

  lemma {:induction false} SharedOneWay(a: seq<Finding>, b: seq<Finding>)
    requires SameBag(IdOf(), a, b)
    ensures ById(a).Keys <= ById(b).Keys
  {
    hide SameBag, ById;
    forall id | id in ById(a)
      ensures id in ById(b)
    {
      var g := Counterpart(a, b, ById(a)[id]);
      SameDeltaIdentity(g, ById(a)[id]);
    }
  }

  lemma SameDeltaIdentity(f: Finding, g: Finding)
    requires Identify(f) == Identify(g)
    ensures DeltaIdentity(f) == DeltaIdentity(g)
  {}

  // ----- When agreeing cases pass without an error -----

  /** Plain findings, at most one per rule, obligation and subject. */
  ghost predicate Tidy(fs: seq<Finding>) {
    && AllPlain(fs)
    && (forall i, j :: 0 <= i < j < |fs| ==>
          fs[i].rule != fs[j].rule || fs[i].obligation != fs[j].obligation || fs[i].subject != fs[j].subject)
  }

  /** On a behaving case: the finding changed its wording. */
  ghost predicate Reworded(b: Result, c: Result, f: Finding) {
    f in b.findings && f !in c.findings
  }

  /** Findings whose wording changed name their subject, and no two of them share rule and subject. */
  ghost predicate RewordedApart(b: Result, c: Result) {
    forall f, g :: Reworded(b, c, f) && Reworded(b, c, g) ==>
      f.subject != "" && (f.rule == g.rule && f.subject == g.subject ==> f == g)
  }

  lemma {:induction false} TidyUnique(fs: seq<Finding>, f: Finding, g: Finding)
    requires Tidy(fs) && f in fs && g in fs && f.rule == g.rule && f.obligation == g.obligation
    requires f.subject == g.subject
    ensures f == g
  {
    var i :| 0 <= i < |fs| && fs[i] == f;
    var j :| 0 <= j < |fs| && fs[j] == g;
  }

  lemma {:induction false} TidyById(fs: seq<Finding>, f: Finding)
    requires Tidy(fs) && f in fs
    ensures ById(fs)[DeltaIdentity(f)] == f
  {
    hide ById, Plain;
    var g := ById(fs)[DeltaIdentity(f)];
    DeltaIdentityDetermines(f, g);
    TidyUnique(fs, f, g);
  }

  /** On an agreeing case each identity pairs one finding with its counterpart. */
  lemma {:induction false} TidyPairs(b: Result, c: Result, id: string)
    requires Tidy(b.findings) && Tidy(c.findings) && SameBag(IdOf(), b.findings, c.findings) && id in Ids(b, c)
    ensures id in ById(b.findings) && id in ById(c.findings)
    ensures Identify(ById(b.findings)[id]) == Identify(ById(c.findings)[id])
  {
    hide Tidy, SameBag, ById;
    SharedIdentities(b, c);
    var f := ById(b.findings)[id];
    var g := Counterpart(b.findings, c.findings, f);
    SameDeltaIdentity(f, g);
    TidyById(c.findings, g);
  }

  lemma {:induction false} PairedKind(b: Result, c: Result, f: Finding, g: Finding)
    requires Identify(f) == Identify(g) && b.decision == c.decision
    ensures IdentityKind(b, c, Some(f), Some(g)) == if f == g then None else Some(ExplanationOnly)
  {
    hide SameBag, UncoveredObligations;
  }

  lemma {:induction false} PairedKey(kind: Kind, b: Result, c: Result, subjects: seq<string>, f: Finding, g: Finding)
    requires Identify(f) == Identify(g) && f.subject != ""
    ensures BuildDelta(kind, Some(f), Some(g), b, c, subjects).Key() == [f.rule, f.subject, kind.Name()]
  {
    hide ResolveDeltaSubject, OutcomeSide;
  }

  lemma {:induction false} WordingDelta(b: Result, c: Result, subjects: seq<string>, id: string)
    requires Tidy(b.findings) && Tidy(c.findings) && SameBag(IdOf(), b.findings, c.findings) && id in Ids(b, c)
    requires b.decision == c.decision
    ensures id in ById(b.findings) && id in ById(c.findings)
    ensures var f, g := ById(b.findings)[id], ById(c.findings)[id];
            if f == g then DeltaAt(b, c, subjects, id) == None
            else && DeltaAt(b, c, subjects, id).Some?
                 && (f.subject != "" ==>
                       DeltaAt(b, c, subjects, id).value.Key() == [f.rule, f.subject, ExplanationOnly.Name()])
  {
    hide SameBag, ById, IdentityKind, BuildDelta, Tidy;
    TidyPairs(b, c, id);
    var f, g := ById(b.findings)[id], ById(c.findings)[id];
    PairedKind(b, c, f, g);
    if f.subject != "" { PairedKey(ExplanationOnly, b, c, subjects, f, g); }
  }

  /** An agreeing case gives a record, not an error. */
  lemma {:induction false} AgreeingCaseIsRecorded(b: Result, c: Result, subjects: seq<string>, r: Collected)
    requires Collects(b, c, subjects, r) && Tidy(b.findings) && Tidy(c.findings)
    requires b.decision == c.decision && SameBag(IdOf(), b.findings, c.findings) && RewordedApart(b, c)
    ensures r.Deltas?
  {
    hide DeltaAt, DeltaLeq, SameBag, ById, FindingKey, Plain, Missed, Uncovers, Stricter;
    TidyPlain(b.findings);
    KeyBagsAreIdentityBags(b.findings, c.findings);
    forall i, j | i in Ids(b, c) && j in Ids(b, c)
      ensures !Clashing(b, c, subjects, i, j)
    {
      TidyNoClash(b, c, subjects, i, j);
    }
    if !SameBag(KeyOf(true), b.findings, c.findings) {
      WordingYields(b, c, subjects);
    }
  }

  lemma TidyPlain(fs: seq<Finding>)
    requires Tidy(fs)
    ensures AllPlain(fs)
  {}

  lemma {:induction false} RewordedFinding(b: Result, c: Result, subjects: seq<string>, id: string)
    requires Tidy(b.findings) && Tidy(c.findings) && SameBag(IdOf(), b.findings, c.findings) && b.decision == c.decision
    requires id in Ids(b, c) && DeltaAt(b, c, subjects, id).Some? && RewordedApart(b, c)
    ensures id in ById(b.findings)
    ensures var f := ById(b.findings)[id];
            && f !in c.findings && f.subject != ""
            && DeltaAt(b, c, subjects, id).value.Key()[..2] == [f.rule, f.subject]
  {
    hide SameBag, ById, DeltaAt, Tidy;
    WordingDelta(b, c, subjects, id);
    var f := ById(b.findings)[id];
    if f in c.findings { TidyById(c.findings, f); }
  }

  lemma {:induction false} TidyNoClash(b: Result, c: Result, subjects: seq<string>, i: string, j: string)
    requires Tidy(b.findings) && Tidy(c.findings) && SameBag(IdOf(), b.findings, c.findings) && b.decision == c.decision
    requires i in Ids(b, c) && j in Ids(b, c) && RewordedApart(b, c)
    ensures !Clashing(b, c, subjects, i, j)
  {
    hide SameBag, ById, DeltaAt, Tidy;
    var x, y := DeltaAt(b, c, subjects, i), DeltaAt(b, c, subjects, j);
    if x.Some? && y.Some? && x.value.Key() == y.value.Key() {
      RewordedFinding(b, c, subjects, i);
      RewordedFinding(b, c, subjects, j);
      var f, g := ById(b.findings)[i], ById(b.findings)[j];
      assert [f.rule, f.subject] == [g.rule, g.subject];
      assert f.rule == [f.rule, f.subject][0] == g.rule && f.subject == [f.rule, f.subject][1] == g.subject;
    }
  }

  /** A change of wording shows up at some identity. */
  lemma {:induction false} WordingYields(b: Result, c: Result, subjects: seq<string>)
    requires Tidy(b.findings) && Tidy(c.findings) && SameBag(IdOf(), b.findings, c.findings) && b.decision == c.decision
    requires !SameBag(KeyOf(true), b.findings, c.findings)
    ensures exists d :: Yields(b, c, subjects, Ids(b, c), d)
  {
    hide SameBag, ById, DeltaAt, Tidy, FindingKey;
    if forall id :: id in Ids(b, c) ==> DeltaAt(b, c, subjects, id) == None {
      forall id | id in Ids(b, c)
        ensures id in ById(b.findings) && id in ById(c.findings) && ById(b.findings)[id] == ById(c.findings)[id]
      {
        TidyPairs(b, c, id);
        WordingDelta(b, c, subjects, id);
      }
      SameByIdSameFindings(b.findings, c.findings);
      FindingsSameFullKeys(b.findings, c.findings);
    } else {
      var id :| id in Ids(b, c) && DeltaAt(b, c, subjects, id) != None;
      assert Yields(b, c, subjects, Ids(b, c), DeltaAt(b, c, subjects, id).value);
    }
  }

  lemma {:induction false} FindingsSameFullKeys(a: seq<Finding>, b: seq<Finding>)
    requires Permutation(a, b)
    ensures SameBag(KeyOf(true), a, b)
  {
    MapPermutes(KeyOf(true), a, b);
  }

  lemma {:induction false} SameByIdSameFindings(a: seq<Finding>, b: seq<Finding>)
    requires Tidy(a) && Tidy(b)
    requires forall id :: id in ById(a).Keys + ById(b).Keys ==>
               id in ById(a) && id in ById(b) && ById(a)[id] == ById(b)[id]
    ensures Permutation(a, b)
  {
    hide ById, DeltaIdentity;
    forall f
      ensures f in a <==> f in b
    {
      if f in a { TidyById(a, f); assert DeltaIdentity(f) in ById(a).Keys + ById(b).Keys; }
      if f in b { TidyById(b, f); assert DeltaIdentity(f) in ById(a).Keys + ById(b).Keys; }
    }
    DistinctPermutation(a, b);
  }

  // ----- What the record schema asks of a delta -----

  predicate KnownEffect(effect: string) {
    effect == EFFECT_COMMENT || effect == EFFECT_CHALLENGE || effect == EFFECT_BLOCK || effect == EFFECT_REQUIRE_REVIEW
  }

  /** An empty effect and zero points are omitted from the record. */
  predicate SideFits(s: Side) {
    (s.effect == "" || KnownEffect(s.effect)) && (s.points.Some? ==> s.points.value >= 0)
  }

  predicate DeltaFits(d: Delta) {
    d.rule != "" && d.subject != "" && SideFits(d.baseline) && SideFits(d.candidate)
  }

  predicate Reportable(f: Finding) {
    f.rule != "" && (f.effect == "" || KnownEffect(f.effect)) && f.points >= 0
  }

  /** The composite key the schema's uniqueness keyword compares: the fields, each after a NUL. */
  function SchemaKey(d: Delta): string {
    ['\0'] + d.kind.Name() + FieldsKey(d.rule, d.subject)
  }

  function FieldsKey(rule: string, subject: string): string {
    ['\0'] + rule + ['\0'] + subject
  }

  /** What the record schema asks of the deltas: each one fits, and no two share the composite key. */
  ghost predicate DeltasFit(list: seq<Delta>) {
    && (forall d :: d in list ==> DeltaFits(d))
    && forall i, j :: 0 <= i < j < |list| ==> SchemaKey(list[i]) != SchemaKey(list[j])
  }

  /** Findings whose wording changed can be put on record, each under a key of its own. */
  ghost predicate RewordedReportable(b: Result, c: Result) {
    && (forall f :: Reworded(b, c, f) ==> Reportable(f))
    && forall f, g :: Reworded(b, c, f) && Reworded(b, c, g) ==>
         (FieldsKey(f.rule, f.subject) == FieldsKey(g.rule, g.subject) ==> f == g)
  }

  /** NUL-free rule names are enough for keys of their own. */
  lemma {:induction false} NulFreeReportable(b: Result, c: Result)
    requires RewordedApart(b, c) && forall f :: Reworded(b, c, f) ==> Reportable(f) && '\0' !in f.rule
    ensures RewordedReportable(b, c)
  {
    hide Reportable, FieldsKey;
    forall f, g | Reworded(b, c, f) && Reworded(b, c, g) && FieldsKey(f.rule, f.subject) == FieldsKey(g.rule, g.subject)
      ensures f == g
    {
      NulFreeKeys(f, g);
    }
  }

  lemma {:induction false} NulFreeKeys(f: Finding, g: Finding)
    requires '\0' !in f.rule && '\0' !in g.rule && FieldsKey(f.rule, f.subject) == FieldsKey(g.rule, g.subject)
    ensures f.rule == g.rule && f.subject == g.subject
  {
    var x, y := FieldsKey(f.rule, f.subject), FieldsKey(g.rule, g.subject);
    assert x[1..] == f.rule + ['\0'] + f.subject && y[1..] == g.rule + ['\0'] + g.subject;
    SeparatorSplits(f.rule, f.subject, g.rule, g.subject, '\0');
  }

  lemma {:induction false} SchemaKeyFields(d: Delta, e: Delta)
    requires d.kind == e.kind && SchemaKey(d) == SchemaKey(e)
    ensures FieldsKey(d.rule, d.subject) == FieldsKey(e.rule, e.subject)
  {
    hide FieldsKey;
    var n := 1 + |d.kind.Name()|;
    assert SchemaKey(d)[n..] == FieldsKey(d.rule, d.subject) && SchemaKey(e)[n..] == FieldsKey(e.rule, e.subject);
  }

  lemma {:induction false} PairFits(kind: Kind, b: Result, c: Result, subjects: seq<string>, f: Finding, g: Finding)
    requires Identify(f) == Identify(g) && f.subject != "" && Reportable(f)
    ensures DeltaFits(BuildDelta(kind, Some(f), Some(g), b, c, subjects))
  {
    hide ResolveDeltaSubject, KnownEffect;
  }

  /** What a behaving case puts on record meets the schema. */
  lemma {:induction false} WordingFits(b: Result, c: Result, subjects: seq<string>, id: string)
    requires Tidy(b.findings) && Tidy(c.findings) && SameBag(IdOf(), b.findings, c.findings) && b.decision == c.decision
    requires id in Ids(b, c) && DeltaAt(b, c, subjects, id).Some? && RewordedApart(b, c) && RewordedReportable(b, c)
    ensures DeltaFits(DeltaAt(b, c, subjects, id).value)
  {
    hide SameBag, ById, DeltaAt, Tidy, IdentityKind, BuildDelta, DeltaFits, Reportable, RewordedApart;
    RewordedFinding(b, c, subjects, id);
    TidyPairs(b, c, id);
    DeltaAtIs(b, c, subjects, id);
    var f, g := ById(b.findings)[id], ById(c.findings)[id];
    PairFits(IdentityKind(b, c, Some(f), Some(g)).value, b, c, subjects, f, g);
  }

  /** A reworded finding's delta is filed under the finding's own rule and subject. */
  lemma {:induction false} WordingNames(b: Result, c: Result, subjects: seq<string>, id: string)
    requires Tidy(b.findings) && Tidy(c.findings) && SameBag(IdOf(), b.findings, c.findings) && b.decision == c.decision
    requires id in Ids(b, c) && DeltaAt(b, c, subjects, id).Some? && RewordedApart(b, c)
    ensures id in ById(b.findings)
    ensures var f, d := ById(b.findings)[id], DeltaAt(b, c, subjects, id).value;
            f !in c.findings && DeltaIdentity(f) == id && d.rule == f.rule && d.subject == f.subject
  {
    hide SameBag, ById, DeltaAt, Tidy, DeltaIdentity, RewordedApart;
    RewordedFinding(b, c, subjects, id);
    var f, d := ById(b.findings)[id], DeltaAt(b, c, subjects, id).value;
    assert d.rule == d.Key()[..2][0] && d.subject == d.Key()[..2][1];
  }

  /** No two deltas of a behaving case share the schema's key. */
  lemma {:induction false} WordingKeysApart(b: Result, c: Result, subjects: seq<string>, x: string, y: string)
    requires Tidy(b.findings) && Tidy(c.findings) && SameBag(IdOf(), b.findings, c.findings) && b.decision == c.decision
    requires x in Ids(b, c) && DeltaAt(b, c, subjects, x).Some? && y in Ids(b, c) && DeltaAt(b, c, subjects, y).Some?
    requires RewordedApart(b, c) && RewordedReportable(b, c)
    requires DeltaAt(b, c, subjects, x).value.kind == DeltaAt(b, c, subjects, y).value.kind
    requires SchemaKey(DeltaAt(b, c, subjects, x).value) == SchemaKey(DeltaAt(b, c, subjects, y).value)
    ensures x == y
  {
    hide SameBag, ById, DeltaAt, Tidy, DeltaIdentity, RewordedApart, SchemaKey, FieldsKey, Reportable;
    WordingNames(b, c, subjects, x);
    WordingNames(b, c, subjects, y);
    SchemaKeyFields(DeltaAt(b, c, subjects, x).value, DeltaAt(b, c, subjects, y).value);
  }

  /** What a behaving case puts on record is what the schema asks for. */
  lemma {:induction false} AgreeingRecordFits(b: Result, c: Result, subjects: seq<string>, list: seq<Delta>)
    requires Collects(b, c, subjects, Deltas(list)) && Tidy(b.findings) && Tidy(c.findings)
    requires b.decision == c.decision && SameBag(IdOf(), b.findings, c.findings)
    requires RewordedApart(b, c) && RewordedReportable(b, c)
    ensures DeltasFit(list)
  {
    hide DeltaAt, SameBag, ById, Tidy, Collects, DeltaFits, RewordedApart, RewordedReportable, SchemaKey;
    forall d | d in list
      ensures DeltaFits(d)
    {
      var id := ListedFrom(b, c, subjects, list, d);
      WordingFits(b, c, subjects, id);
    }
    assert Legible(b.findings, c.findings) by { TidyPlain(b.findings); }
    SameDecisionIsWording(b, c, subjects, list);
    forall i, j | 0 <= i < j < |list|
      ensures SchemaKey(list[i]) != SchemaKey(list[j])
    {
      var x := ListedFrom(b, c, subjects, list, list[i]);
      var y := ListedFrom(b, c, subjects, list, list[j]);
      ListedOnce(b, c, subjects, list, i, j);
      if SchemaKey(list[i]) == SchemaKey(list[j]) { WordingKeysApart(b, c, subjects, x, y); }
    }
  }

  lemma {:induction false} ListedFrom(b: Result, c: Result, subjects: seq<string>, list: seq<Delta>, d: Delta)
    returns (id: string)
    requires Collects(b, c, subjects, Deltas(list)) && d in list
    ensures id in Ids(b, c) && DeltaAt(b, c, subjects, id) == Some(d)
  {
    hide DeltaAt, DeltaLeq, ById, Collides, Classify.Classify;
    assert Yields(b, c, subjects, Ids(b, c), d);
    id :| id in Ids(b, c) && DeltaAt(b, c, subjects, id) == Some(d);
  }

  lemma ListedOnce(b: Result, c: Result, subjects: seq<string>, list: seq<Delta>, i: nat, j: nat)
    requires Collects(b, c, subjects, Deltas(list)) && i < j < |list|
    ensures list[i] != list[j]
  {
    hide Yields, DeltaLeq, ById, Collides, Classify.Classify;
  }

  // ----- When the case's kind is on record -----

  ghost predicate KindAt(b: Result, c: Result, id: string, k: Kind) {
    id in Ids(b, c) && IdentityKind(b, c, At(ById(b.findings), id), At(ById(c.findings), id)) == Some(k)
  }

  /** The finding reports an obligation the baseline did not report uncovered. */
  ghost predicate ReportsNewly(b: Result, g: Finding) {
    g.code == UNCOVERED_CODE && g.obligation !in UncoveredObligations(b)
  }

  /**
   Some finding under an identity the baseline lacks carries the kind.  Only two kinds need it: the
   classifier compares obligations and interventions, the collector whole identities.
   */
  ghost predicate CarriedByNew(b: Result, c: Result, k: Kind) {
    match k
    case ObligationUncovered => exists g :: g in c.findings && Lacks(b.findings, g) && ReportsNewly(b, g)
    case StricterInterventionAdded =>
      exists g :: g in c.findings && Lacks(b.findings, g) && StricterEffect(g.effect) && !ReportsNewly(b, g)
    case _ => true
  }

  /** The kinds on record are the kinds of the identities. */
  lemma {:induction false} RecordedKinds(b: Result, c: Result, subjects: seq<string>, list: seq<Delta>, k: Kind)
    requires Lists(b, c, subjects, Ids(b, c), list)
    ensures (exists d :: d in list && d.kind == k) <==> exists id :: KindAt(b, c, id, k)
  {
    hide IdentityKind, BuildDelta, DeltaLeq, ById, Collides;
    if exists d :: d in list && d.kind == k {
      var d :| d in list && d.kind == k;
      assert Yields(b, c, subjects, Ids(b, c), d);
      var id :| id in Ids(b, c) && DeltaAt(b, c, subjects, id) == Some(d);
      DeltaKind(b, c, subjects, id);
      assert KindAt(b, c, id, k);
    }
    if exists id :: KindAt(b, c, id, k) {
      var id :| KindAt(b, c, id, k);
      DeltaAtIs(b, c, subjects, id);
      DeltaKind(b, c, subjects, id);
      var d := DeltaAt(b, c, subjects, id).value;
      assert Yields(b, c, subjects, Ids(b, c), d);
      assert d in list;
    }
  }

  lemma {:induction false} MissedAt(b: Result, c: Result) returns (id: string)
    requires Tidy(b.findings) && Missed(b, c)
    ensures KindAt(b, c, id, InterventionMissed)
  {
    hide ById, DeltaIdentity, Tidy, UncoveredObligations, SameBag;
    var f :| f in b.findings && MissedEffect(f.effect) && Lacks(c.findings, f);
    id := DeltaIdentity(f);
    TidyById(b.findings, f);
    assert id !in ById(c.findings);
  }

  /** What an identity the baseline lacks contributes where the decision worsens. */
  lemma {:induction false} NewIdentity(b: Result, c: Result, g: Finding)
    requires Tidy(c.findings) && g in c.findings && Lacks(b.findings, g)
    requires c.decision.Severity() > b.decision.Severity()
    ensures KindAt(b, c, DeltaIdentity(g), ObligationUncovered) <==> ReportsNewly(b, g)
    ensures b.decision == Approve ==>
            (KindAt(b, c, DeltaIdentity(g), StricterInterventionAdded)
             <==> !ReportsNewly(b, g) && StricterEffect(g.effect))
  {
    hide ById, DeltaIdentity, Tidy, SameBag, UncoveredObligations;
    TidyById(c.findings, g);
    assert DeltaIdentity(g) !in ById(b.findings);
  }

  /** Those two kinds come from identities the baseline lacks, and from nowhere else. */
  lemma {:induction false} OnlyNew(b: Result, c: Result, id: string, k: Kind) returns (g: Finding)
    requires KindAt(b, c, id, k) && (k == ObligationUncovered || k == StricterInterventionAdded)
    ensures g in c.findings && Lacks(b.findings, g) && DeltaIdentity(g) == id
  {
    hide ById, DeltaIdentity, SameBag, UncoveredObligations;
    assert id !in ById(b.findings) && id in ById(c.findings);
    g := ById(c.findings)[id];
  }

  lemma {:induction false} CarriedExactlyWhen(b: Result, c: Result, k: Kind)
    requires Tidy(c.findings) && c.decision.Severity() > b.decision.Severity()
    requires k == ObligationUncovered || (k == StricterInterventionAdded && b.decision == Approve)
    ensures (exists id :: KindAt(b, c, id, k)) <==> CarriedByNew(b, c, k)
  {
    hide KindAt, ReportsNewly, Lacks, Tidy, DeltaIdentity;
    if exists id :: KindAt(b, c, id, k) {
      var id :| KindAt(b, c, id, k);
      var g := OnlyNew(b, c, id, k);
      NewIdentity(b, c, g);
    }
    if CarriedByNew(b, c, k) {
      var g :| && g in c.findings && Lacks(b.findings, g)
               && if k == ObligationUncovered then ReportsNewly(b, g)
                  else StricterEffect(g.effect) && !ReportsNewly(b, g);
      NewIdentity(b, c, g);
    }
  }

  /** With equal interventions every identity is on both sides. */
  lemma {:induction false} SharedInterventions(a: seq<Finding>, b: seq<Finding>, id: string)
    requires Tidy(a) && Tidy(b) && SameBag(InterventionOf(), a, b) && id in ById(a)
    ensures id in ById(b)
  {
    hide ById, DeltaIdentity, InterventionKey, PlainNames;
    PermutationMembers(Map(InterventionOf(), a), Map(InterventionOf(), b));
    var f := ById(a)[id];
    var i :| 0 <= i < |a| && a[i] == f;
    assert Map(InterventionOf(), a)[i] in Map(InterventionOf(), b);
    var j :| 0 <= j < |b| && Map(InterventionOf(), b)[j] == InterventionKey(f);
    assert Plain(f) && Plain(b[j]);
    InterventionKeyDetermines(f, b[j]);
  }

  /** Where the two sides hold the same interventions, or the candidate approves, only one kind can occur. */
  lemma {:induction false} OnlyKind(b: Result, c: Result, id: string, k: Kind)
    requires Tidy(b.findings) && Tidy(c.findings) && KindAt(b, c, id, k) && b.decision != c.decision
    ensures SameBag(InterventionOf(), b.findings, c.findings) ==> k == ScoreThresholdChange
    ensures !SameBag(InterventionOf(), b.findings, c.findings) && c.decision == Approve ==> k == NewlyAutoMergeable
  {
    hide ById, Tidy, SameBag, UncoveredObligations;
    if SameBag(InterventionOf(), b.findings, c.findings) {
      InterventionsSymmetric(b.findings, c.findings);
      if id in ById(b.findings) {
        SharedInterventions(b.findings, c.findings, id);
      } else {
        SharedInterventions(c.findings, b.findings, id);
      }
    }
  }

  lemma InterventionsSymmetric(a: seq<Finding>, b: seq<Finding>)
    requires SameBag(InterventionOf(), a, b)
    ensures SameBag(InterventionOf(), b, a)
  {}

  lemma {:induction false} ChangedCaseKind(b: Result, c: Result, k: Kind, some: string, seen: Kind)
    requires Tidy(b.findings) && Tidy(c.findings) && b.decision != c.decision
    requires Classify.Classify(b, c) == Differs(k) && KindAt(b, c, some, seen)
    ensures (exists id :: KindAt(b, c, id, k)) <==> CarriedByNew(b, c, k)
  {
    hide KindAt, SameBag, Missed, Tidy, CarriedByNew;
    OnlyKind(b, c, some, seen);
    CarriedAnyway(b, c, k);
    match k
    case InterventionMissed =>
      var id := MissedAt(b, c);
    case ObligationUncovered => CarriedExactlyWhen(b, c, k);
    case StricterInterventionAdded => CarriedExactlyWhen(b, c, k);
    case _ =>
  }

  lemma CarriedAnyway(b: Result, c: Result, k: Kind)
    ensures k !in {ObligationUncovered, StricterInterventionAdded} ==> CarriedByNew(b, c, k)
  {}

  /** The kind that classifies the case is the kind of one of its deltas exactly when a new identity carries it. */
  lemma {:induction false} CaseKindRecordedExactlyWhen(
    b: Result, c: Result, subjects: seq<string>, list: seq<Delta>, k: Kind)
    requires Tidy(b.findings) && Tidy(c.findings) && Collects(b, c, subjects, Deltas(list))
    requires Classify.Classify(b, c) == Differs(k)
    ensures (exists d :: d in list && d.kind == k) <==> CarriedByNew(b, c, k)
  {
    hide DeltaAt, DeltaLeq, Classify.Classify, KindAt, CarriedByNew, Tidy, Lists;
    var d :| Yields(b, c, subjects, Ids(b, c), d);
    assert Lists(b, c, subjects, Ids(b, c), list);
    assert d in list by { ListsHolds(b, c, subjects, Ids(b, c), list, d); }
    if b.decision == c.decision {
      TidyPlain(b.findings);
      SameDecisionIsWording(b, c, subjects, list);
      EqualDecisionKind(b, c, k);
      CarriedAnyway(b, c, k);
    } else {
      RecordedKinds(b, c, subjects, list, d.kind);
      var some :| KindAt(b, c, some, d.kind);
      RecordedKinds(b, c, subjects, list, k);
      ChangedCaseKind(b, c, k, some, d.kind);
    }
  }

  lemma ListsHolds(b: Result, c: Result, subjects: seq<string>, ids: set<string>, list: seq<Delta>, d: Delta)
    requires Lists(b, c, subjects, ids, list) && Yields(b, c, subjects, ids, d)
    ensures d in list
  {
    hide Yields, DeltaLeq;
  }

  lemma EqualDecisionKind(b: Result, c: Result, k: Kind)
    requires b.decision == c.decision && Classify.Classify(b, c) == Differs(k)
    ensures k == ExplanationOnly
  {}

  /** No key occurs twice in a record. */
  lemma {:induction false} RecordKeysUnique(b: Result, c: Result, subjects: seq<string>, list: seq<Delta>)
    requires Collects(b, c, subjects, Deltas(list))
    ensures forall i, j :: 0 <= i < j < |list| ==> list[i].Key() != list[j].Key()
  {
    hide Collects;
    forall i, j | 0 <= i < j < |list|
      ensures list[i].Key() != list[j].Key()
    {
      RecordPairApart(b, c, subjects, list, i, j);
    }
  }

  lemma {:induction false} RecordPairApart(
    b: Result, c: Result, subjects: seq<string>, list: seq<Delta>, i: nat, j: nat)
    requires Collects(b, c, subjects, Deltas(list)) && i < j < |list|
    ensures list[i].Key() != list[j].Key()
  {
    hide Collects, DeltaAt, ById;
    var x := ListedFrom(b, c, subjects, list, list[i]);
    var y := ListedFrom(b, c, subjects, list, list[j]);
    ListedOnce(b, c, subjects, list, i, j);
    NoClash(b, c, subjects, list, x, y);
  }

  lemma NoClash(b: Result, c: Result, subjects: seq<string>, list: seq<Delta>, x: string, y: string)
    requires Collects(b, c, subjects, Deltas(list)) && list != [] && x in Ids(b, c) && y in Ids(b, c)
    ensures !Clashing(b, c, subjects, x, y)
  {
    hide Lists, Clashing, Yields, ById, Classify.Classify;
  }

  /**
   A finding that keeps its identity but changes its effect or code has no delta of its own; only the
   other findings of its case can put the change on record.
   */
  lemma {:induction false} ChangedInPlaceIsUnrecorded(
    b: Result, c: Result, subjects: seq<string>, f: Finding, g: Finding)
    requires Tidy(b.findings) && Tidy(c.findings) && f in b.findings && g in c.findings
    requires DeltaIdentity(f) == DeltaIdentity(g) && (f.effect != g.effect || f.code != g.code)
    ensures DeltaAt(b, c, subjects, DeltaIdentity(f)) == None
  {
    hide ById, Tidy, DeltaIdentity;
    TidyById(b.findings, f);
    TidyById(c.findings, g);
  }

  /**
   So a case's own kind can be missing from its record: a finding that turns into an uncovered report
   under its identity makes the case "uncovered", and only the new finding beside it is recorded.
   */
  lemma {:induction false} UncoveredInPlaceUnrecorded(
    f: Finding, g: Finding, h: Finding, b: Result, c: Result, r: Collected)
    requires b == Result(Approve, [f], [], map[]) && c == Result(Block, [g, h], [], map[])
    requires Tidy(b.findings) && Tidy(c.findings) && DeltaIdentity(f) == DeltaIdentity(g) != DeltaIdentity(h)
    requires f.code != UNCOVERED_CODE && ReportsUncovered(g) && StricterEffect(h.effect) && !ReportsNewly(b, h)
    requires Collects(b, c, [], r)
    ensures Classify.Classify(b, c) == Differs(ObligationUncovered)
    ensures r.Deltas? && r.list != [] && forall d :: d in r.list ==> d.kind == StricterInterventionAdded
  {
    hide DeltaAt, DeltaIdentity, ById, DeltaLeq, Tidy, SameBag, Lists, Classify.Classify, Collects, KindAt,
         IdentityKind;
    var i, j := DeltaIdentity(g), DeltaIdentity(h);
    assert f in b.findings && g in c.findings && h in c.findings;
    InPlaceClassified(f, g, h, b, c);
    InPlaceIds(f, g, h, b, c);
    ChangedInPlaceIsUnrecorded(b, c, [], f, g);
    NewIdentity(b, c, h);
    InPlaceDelta(b, c, j);
    ListsOnly(b, c, r, i, j, DeltaAt(b, c, [], j).value);
  }

  lemma {:induction false} InPlaceClassified(f: Finding, g: Finding, h: Finding, b: Result, c: Result)
    requires b == Result(Approve, [f], [], map[]) && c == Result(Block, [g, h], [], map[])
    requires DeltaIdentity(f) == DeltaIdentity(g) && f.code != UNCOVERED_CODE && ReportsUncovered(g)
    ensures Classify.Classify(b, c) == Differs(ObligationUncovered)
  {
    hide DeltaIdentity, SameBag, Stricter;
    assert g in c.findings;
    assert g.obligation in UncoveredObligations(c) && UncoveredObligations(b) == {};
  }

  lemma {:induction false} InPlaceIds(f: Finding, g: Finding, h: Finding, b: Result, c: Result)
    requires b == Result(Approve, [f], [], map[]) && c == Result(Block, [g, h], [], map[])
    requires DeltaIdentity(f) == DeltaIdentity(g)
    ensures Ids(b, c) == {DeltaIdentity(g), DeltaIdentity(h)}
  {
    hide DeltaIdentity, ById;
    assert f in b.findings && g in c.findings && h in c.findings;
    forall id
      ensures id in Ids(b, c) <==> id == DeltaIdentity(g) || id == DeltaIdentity(h)
    {
      if id in ById(b.findings) { assert ById(b.findings)[id] == f; }
      if id in ById(c.findings) { assert ById(c.findings)[id] in [g, h]; }
    }
  }

  lemma {:induction false} InPlaceDelta(b: Result, c: Result, id: string)
    requires KindAt(b, c, id, StricterInterventionAdded)
    ensures DeltaAt(b, c, [], id).Some? && DeltaAt(b, c, [], id).value.kind == StricterInterventionAdded
  {
    hide IdentityKind, ById, BuildDelta;
    DeltaAtIs(b, c, [], id);
    DeltaKind(b, c, [], id);
  }

  lemma {:induction false} ListsOnly(b: Result, c: Result, r: Collected, i: string, j: string, d: Delta)
    requires Collects(b, c, [], r) && Classify.Classify(b, c).Differs? && Ids(b, c) == {i, j}
    requires DeltaAt(b, c, [], i) == None && DeltaAt(b, c, [], j) == Some(d)
    ensures r.Deltas? && r.list != [] && forall e :: e in r.list ==> e == d
  {
    hide DeltaAt, DeltaLeq, Classify.Classify, ById;
    assert Yields(b, c, [], Ids(b, c), d);
    assert !Collides(b, c, [], Ids(b, c));
    assert d in r.list;
  }
}
