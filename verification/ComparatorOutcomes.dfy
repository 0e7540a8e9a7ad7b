/**
 What the promotion comparator says, spelled out in the fields of findings: when a case gets each kind,
 and which deltas, with which sides, a record holds.
 */
module ComparatorOutcomes {
  import opened Sequences
  import opened Strings
  import opened Findings
  import opened Classify
  import opened Deltas

  // ----- Keys and fields -----

  ghost predicate SamePlace(f: Finding, g: Finding) {
    f.rule == g.rule && f.obligation == g.obligation && f.subject == g.subject
  }

  ghost function Acted(): Finding -> (string, string, string, string, string) {
    (f: Finding) => (f.rule, f.obligation, f.effect, f.subject, f.code)
  }

  /** The two sides intervene alike: the same rules, obligations, effects, subjects and codes equally often. */
  ghost predicate SameActs(a: seq<Finding>, b: seq<Finding>) {
    Permutation(Map(Acted(), a), Map(Acted(), b))
  }

  ghost function Unworded(): Finding -> Finding { (f: Finding) => f.(message := "") }

  /** The two sides hold the same findings, whatever their order and wording. */
  ghost predicate SameButWording(a: seq<Finding>, b: seq<Finding>) {
    Permutation(Map(Unworded(), a), Map(Unworded(), b))
  }

  lemma {:induction false} IdentityIsPlace(f: Finding, g: Finding)
    requires PlainNames(f) && PlainNames(g)
    ensures DeltaIdentity(f) == DeltaIdentity(g) <==> SamePlace(f, g)
  {
    hide Field;
    if DeltaIdentity(f) == DeltaIdentity(g) {
      FieldSplits(f.rule, Field(f.obligation, f.subject), g.rule, Field(g.obligation, g.subject));
      FieldSplits(f.obligation, f.subject, g.obligation, g.subject);
    }
  }

  lemma {:induction false} InterventionIsAct(f: Finding, g: Finding)
    requires PlainNames(f) && PlainNames(g)
    ensures InterventionKey(f) == InterventionKey(g) <==> Acted()(f) == Acted()(g)
  {
    hide Field;
    if InterventionKey(f) == InterventionKey(g) {
      FieldSplits(f.rule, Field(f.obligation, Field(f.effect, Field(f.subject, f.code))),
                  g.rule, Field(g.obligation, Field(g.effect, Field(g.subject, g.code))));
      FieldSplits(f.obligation, Field(f.effect, Field(f.subject, f.code)),
                  g.obligation, Field(g.effect, Field(g.subject, g.code)));
      FieldSplits(f.effect, Field(f.subject, f.code), g.effect, Field(g.subject, g.code));
      LastFieldSplits(f.subject, f.code, g.subject, g.code);
    }
  }

  lemma {:induction false} InterventionBagsAreActs(a: seq<Finding>, b: seq<Finding>)
    requires AllPlainNames(a) && AllPlainNames(b)
    ensures SameBag(InterventionOf(), a, b) <==> SameActs(a, b)
  {
    hide InterventionKey, PlainNames;
    forall f, g | f in a && g in b
      ensures InterventionOf()(f) == InterventionOf()(g) <==> Acted()(f) == Acted()(g)
    {
      InterventionIsAct(f, g);
    }
    if SameBag(InterventionOf(), a, b) { BagThrough(InterventionOf(), Acted(), a, b); }
    if SameActs(a, b) { BagThrough(Acted(), InterventionOf(), a, b); }
  }

  lemma {:induction false} IdentityBagsAreUnworded(a: seq<Finding>, b: seq<Finding>)
    ensures SameBag(IdOf(), a, b) <==> SameButWording(a, b)
  {
    if SameBag(IdOf(), a, b) { BagThrough(IdOf(), Unworded(), a, b); }
    if SameButWording(a, b) { BagThrough(Unworded(), IdOf(), a, b); }
  }

  // ----- The kind of a case -----

  /** The candidate no longer reports a block or review of the baseline, under any effect. */
  ghost predicate Drops(b: Result, c: Result) {
    exists f :: f in b.findings && f.effect in {"block", "require-review"}
             && forall g :: g in c.findings ==> !SamePlace(f, g)
  }

  ghost predicate LeavesUncovered(b: Result, c: Result) {
    exists f :: f in c.findings && f.code == "obligation.uncovered" && f.obligation != ""
             && forall g :: g in b.findings && g.code == "obligation.uncovered" ==> g.obligation != f.obligation
  }

  ghost predicate Adds(b: Result, c: Result) {
    exists f :: f in c.findings && f.effect in {"block", "require-review", "challenge"}
             && forall g :: g in b.findings && g.effect in {"block", "require-review", "challenge"} ==> !SamePlace(f, g)
  }

  ghost predicate Tightens(b: Result, c: Result) {
    (b.decision == Approve && c.decision != Approve) || (b.decision == Review && c.decision == Block)
  }

  lemma {:induction false} ReasonsAre(b: Result, c: Result)
    requires AllPlainNames(b.findings) && AllPlainNames(c.findings)
    ensures Missed(b, c) <==> c.decision != Approve && Drops(b, c)
    ensures Uncovers(b, c) <==> Tightens(b, c) && LeavesUncovered(b, c)
    ensures Stricter(b, c) <==> b.decision == Approve && Adds(b, c)
  {
    hide DeltaIdentity, PlainNames;
    forall f, g | f in b.findings && g in c.findings
      ensures DeltaIdentity(f) == DeltaIdentity(g) <==> SamePlace(f, g)
    {
      IdentityIsPlace(f, g);
    }
    assert Missed(b, c) ==> Drops(b, c);
    UncoversAre(b, c);
  }

  lemma {:induction false} UncoversAre(b: Result, c: Result)
    ensures Uncovers(b, c) <==> Tightens(b, c) && LeavesUncovered(b, c)
  {
    if o :| o in UncoveredObligations(c) && o !in UncoveredObligations(b) {
      var f :| f in c.findings && ReportsUncovered(f) && f.obligation == o;
      assert LeavesUncovered(b, c);
    }
    if f :| && f in c.findings && f.code == "obligation.uncovered" && f.obligation != ""
            && forall g :: g in b.findings && g.code == "obligation.uncovered" ==> g.obligation != f.obligation
    {
      assert f.obligation in UncoveredObligations(c) && f.obligation !in UncoveredObligations(b);
    }
  }

  /** Equal interventions leave nothing to drop, add or uncover. */
  lemma {:induction false} ActsExplain(b: Result, c: Result)
    requires SameActs(b.findings, c.findings)
    ensures !Drops(b, c) && !LeavesUncovered(b, c) && !Adds(b, c)
  {
    hide SameActs;
    forall f | f in b.findings
      ensures exists g :: g in c.findings && SamePlace(f, g)
    {
      var g := ActOnBoth(b.findings, c.findings, f);
    }
    assert SameActs(c.findings, b.findings) by { ActsSymmetric(b.findings, c.findings); }
    forall g | g in c.findings
      ensures exists f :: && f in b.findings && SamePlace(g, f) && f.effect == g.effect && f.code == g.code
    {
      var f := ActOnBoth(c.findings, b.findings, g);
    }
  }

  lemma ActsSymmetric(a: seq<Finding>, b: seq<Finding>)
    requires SameActs(a, b)
    ensures SameActs(b, a)
  {}

  lemma {:induction false} ActOnBoth(a: seq<Finding>, b: seq<Finding>, f: Finding) returns (g: Finding)
    requires SameActs(a, b) && f in a
    ensures g in b && SamePlace(f, g) && f.effect == g.effect && f.code == g.code
  {
    var i :| 0 <= i < |a| && a[i] == f;
    assert Map(Acted(), a)[i] in multiset(Map(Acted(), b));
    var j :| 0 <= j < |b| && Map(Acted(), b)[j] == Acted()(f);
    g := b[j];
  }

  /** The kind of a case whose decision changed, each kind if and only if. */
  lemma {:induction false} ChangedDecisionKinds(b: Result, c: Result)
    requires b.decision != c.decision && AllPlainNames(b.findings) && AllPlainNames(c.findings)
    ensures Classify.Classify(b, c) == Differs(InterventionMissed) <==> c.decision != Approve && Drops(b, c)
    ensures Classify.Classify(b, c) == Differs(ObligationUncovered) <==>
            Tightens(b, c) && LeavesUncovered(b, c) && !Drops(b, c)
    ensures Classify.Classify(b, c) == Differs(NewlyAutoMergeable) <==>
            c.decision == Approve && !SameActs(b.findings, c.findings)
    ensures Classify.Classify(b, c) == Differs(ScoreThresholdChange) <==> SameActs(b.findings, c.findings)
    ensures Classify.Classify(b, c) == Differs(StricterInterventionAdded) <==>
            b.decision == Approve && Adds(b, c) && !LeavesUncovered(b, c) && !Drops(b, c)
    ensures Classify.Classify(b, c) == Unclassified <==>
            && c.decision != Approve && !SameActs(b.findings, c.findings) && !Drops(b, c)
            && !(Tightens(b, c) && LeavesUncovered(b, c)) && !(b.decision == Approve && Adds(b, c))
    ensures Classify.Classify(b, c) != Agree && Classify.Classify(b, c) != Differs(ExplanationOnly)
  {
    hide Missed, Uncovers, Stricter, SameBag, SameActs, Drops, LeavesUncovered, Adds, AllPlainNames;
    ReasonsAre(b, c);
    InterventionBagsAreActs(b.findings, c.findings);
    if SameActs(b.findings, c.findings) { ActsExplain(b, c); }
  }

  /** The kind of a case whose decision stayed. */
  lemma {:induction false} SameDecisionKinds(b: Result, c: Result)
    requires b.decision == c.decision && AllPlain(b.findings)
    ensures Classify.Classify(b, c) == Agree <==> Permutation(b.findings, c.findings)
    ensures Classify.Classify(b, c) == Differs(ExplanationOnly) <==>
            SameButWording(b.findings, c.findings) && !Permutation(b.findings, c.findings)
    ensures Classify.Classify(b, c) == Unclassified <==> !SameButWording(b.findings, c.findings)
  {
    hide Missed, Uncovers, Stricter, SameBag, SameButWording, AllPlain, KeyOf;
    AgreeExactlyWhen(b, c);
    KeyBagsAreIdentityBags(b.findings, c.findings);
    IdentityBagsAreUnworded(b.findings, c.findings);
  }

  // ----- The deltas of a record -----

  /** No later finding stands in the same place, so this one speaks for it. */
  ghost predicate Speaks(fs: seq<Finding>, i: int) {
    0 <= i < |fs| && forall j :: i < j < |fs| ==> !SamePlace(fs[i], fs[j])
  }

  ghost predicate Absent(fs: seq<Finding>, f: Finding) {
    forall g :: g in fs ==> !SamePlace(f, g)
  }

  /** The first element with a subject under the obligation, else the first with a subject, else the bundle's. */
  ghost predicate StandsFor(obligation: string, fs: seq<Finding>, subjects: seq<string>, s: string) {
    if exists i :: 0 <= i < |fs| && obligation != "" && fs[i].obligation == obligation && fs[i].subject != "" then
      exists i :: && 0 <= i < |fs| && fs[i].obligation == obligation && fs[i].subject != "" && s == fs[i].subject
                  && forall j :: 0 <= j < i && fs[j].obligation == obligation ==> fs[j].subject == ""
    else if exists i :: 0 <= i < |fs| && fs[i].subject != "" then
      exists i :: && 0 <= i < |fs| && fs[i].subject != "" && s == fs[i].subject
                  && forall j :: 0 <= j < i ==> fs[j].subject == ""
    else
      s == if subjects == [] then "" else subjects[0]
  }

  /** The delta is filed under the finding's rule, obligation and subject, or the subject that stands for it. */
  ghost predicate FiledUnder(d: Delta, f: Finding, b: Result, c: Result, subjects: seq<string>) {
    && d.rule == f.rule && d.obligation == f.obligation
    && if f.subject != "" then d.subject == f.subject
       else StandsFor(f.obligation, b.findings + c.findings, subjects, d.subject)
  }

  ghost function PresentSide(f: Finding, decision: Decision): Side {
    Side(true, decision, f.effect, if f.points == 0 then None else Some(f.points))
  }

  ghost function AbsentSide(decision: Decision): Side {
    Side(false, decision, "", None)
  }

  // How a finding of both sides, of the baseline alone or of the candidate alone is named.

  ghost predicate KeptAs(b: Result, c: Result, f: Finding, g: Finding, kind: Kind) {
    && Acted()(f) == Acted()(g)
    && if b.decision == c.decision then f.message != g.message && kind == ExplanationOnly
       else SameActs(b.findings, c.findings) && kind == ScoreThresholdChange
  }

  ghost predicate GoneAs(b: Result, c: Result, f: Finding, kind: Kind) {
    if c.decision != Approve then f.effect in {"block", "require-review"} && kind == InterventionMissed
    else b.decision != Approve && kind == NewlyAutoMergeable
  }

  ghost predicate ComeAs(b: Result, c: Result, g: Finding, kind: Kind) {
    if && Tightens(b, c) && g.code == "obligation.uncovered"
       && forall f :: f in b.findings && f.code == "obligation.uncovered" && f.obligation != "" ==>
            f.obligation != g.obligation
    then kind == ObligationUncovered
    else b.decision == Approve && g.effect in {"block", "require-review", "challenge"}
         && kind == StricterInterventionAdded
  }

  /** A finding of both sides, equal but for its wording, or judged differently overall. */
  ghost predicate Kept(b: Result, c: Result, subjects: seq<string>, d: Delta, i: int, j: int) {
    && Speaks(b.findings, i) && Speaks(c.findings, j)
    && var f, g := b.findings[i], c.findings[j];
       && d.baseline == PresentSide(f, b.decision) && d.candidate == PresentSide(g, c.decision)
       && FiledUnder(d, f, b, c, subjects) && KeptAs(b, c, f, g, d.kind)
  }

  ghost predicate Gone(b: Result, c: Result, subjects: seq<string>, d: Delta, i: int) {
    && Speaks(b.findings, i)
    && var f := b.findings[i];
       && Absent(c.findings, f)
       && d.baseline == PresentSide(f, b.decision) && d.candidate == AbsentSide(c.decision)
       && FiledUnder(d, f, b, c, subjects) && GoneAs(b, c, f, d.kind)
  }

  ghost predicate Come(b: Result, c: Result, subjects: seq<string>, d: Delta, j: int) {
    && Speaks(c.findings, j)
    && var g := c.findings[j];
       && Absent(b.findings, g)
       && d.baseline == AbsentSide(b.decision) && d.candidate == PresentSide(g, c.decision)
       && FiledUnder(d, g, b, c, subjects) && ComeAs(b, c, g, d.kind)
  }

  lemma {:induction false} SpokenFor(fs: seq<Finding>, id: string) returns (i: int)
    requires AllPlainNames(fs) && id in ById(fs)
    ensures Speaks(fs, i) && fs[i] == ById(fs)[id]
  {
    hide DeltaIdentity, PlainNames;
    var n := |fs| - 1;
    assert fs == fs[..n] + [fs[n]];
    if DeltaIdentity(fs[n]) == id {
      i := n;
    } else {
      i := SpokenFor(fs[..n], id);
      IdentityIsPlace(fs[i], fs[n]);
    }
  }

  lemma {:induction false} SpeakerById(fs: seq<Finding>, i: int)
    requires AllPlainNames(fs) && Speaks(fs, i)
    ensures DeltaIdentity(fs[i]) in ById(fs) && ById(fs)[DeltaIdentity(fs[i])] == fs[i]
  {
    hide DeltaIdentity, PlainNames;
    var n := |fs| - 1;
    assert fs == fs[..n] + [fs[n]];
    if i < n {
      SpeakerById(fs[..n], i);
      IdentityIsPlace(fs[i], fs[n]);
    }
  }

  lemma {:induction false} AbsentById(fs: seq<Finding>, f: Finding)
    requires AllPlainNames(fs) && PlainNames(f)
    ensures Absent(fs, f) <==> DeltaIdentity(f) !in ById(fs)
  {
    hide DeltaIdentity, PlainNames;
    forall g | g in fs
      ensures DeltaIdentity(f) == DeltaIdentity(g) <==> SamePlace(f, g)
    {
      IdentityIsPlace(f, g);
    }
  }

  lemma {:induction false} FirstIs(want: Finding -> bool, fs: seq<Finding>) returns (i: nat)
    ensures First(want, fs) == None ==> forall j :: 0 <= j < |fs| ==> !want(fs[j])
    ensures First(want, fs).Some? ==>
            && i < |fs| && want(fs[i]) && First(want, fs) == Some(fs[i])
            && forall j :: 0 <= j < i ==> !want(fs[j])
  {
    i := 0;
    if fs != [] && !want(fs[0]) {
      var k := FirstIs(want, fs[1..]);
      i := k + 1;
      assert forall j :: 1 <= j < |fs| ==> fs[j] == fs[1..][j - 1];
    }
  }

  lemma {:induction false} ResolvedStands(obligation: string, fs: seq<Finding>, subjects: seq<string>)
    ensures StandsFor(obligation, fs, subjects, ResolveDeltaSubject(obligation, fs, subjects))
  {
    var i := FirstIs(Names(obligation), fs);
    var k := FirstIs(HasSubject(), fs);
    if First(Names(obligation), fs).Some? { assert Names(obligation)(fs[i]); }
    if First(HasSubject(), fs).Some? { assert HasSubject()(fs[k]); }
    assert forall j :: 0 <= j < |fs| ==>
        (Names(obligation)(fs[j]) <==> obligation != "" && fs[j].obligation == obligation && fs[j].subject != "");
    assert forall j :: 0 <= j < |fs| ==> (HasSubject()(fs[j]) <==> fs[j].subject != "");
  }

  /** The delta built from a finding of the baseline, the candidate or both. */
  lemma {:induction false} BuiltFrom(
    kind: Kind, bf: Option<Finding>, cf: Option<Finding>, b: Result, c: Result, subjects: seq<string>, f: Finding)
    requires bf.Some? || cf.Some?
    requires (bf.Some? ==> SamePlace(bf.value, f)) && (cf.Some? ==> SamePlace(cf.value, f))
    ensures var d := BuildDelta(kind, bf, cf, b, c, subjects);
            && d.kind == kind && FiledUnder(d, f, b, c, subjects)
            && d.baseline == (if bf.Some? then PresentSide(bf.value, b.decision) else AbsentSide(b.decision))
            && d.candidate == (if cf.Some? then PresentSide(cf.value, c.decision) else AbsentSide(c.decision))
  {
    hide ResolveDeltaSubject, StandsFor;
    ResolvedStands(f.obligation, b.findings + c.findings, subjects);
  }

  lemma {:induction false} StandsForOne(
    obligation: string, fs: seq<Finding>, subjects: seq<string>, s: string, t: string)
    requires StandsFor(obligation, fs, subjects, s) && StandsFor(obligation, fs, subjects, t)
    ensures s == t
  {}

  /** A delta is what its kind, its place and its sides are. */
  lemma {:induction false} FiledOnce(d: Delta, e: Delta, f: Finding, b: Result, c: Result, subjects: seq<string>)
    requires FiledUnder(d, f, b, c, subjects) && FiledUnder(e, f, b, c, subjects)
    requires d.kind == e.kind && d.baseline == e.baseline && d.candidate == e.candidate
    ensures d == e
  {
    hide StandsFor;
    if f.subject == "" {
      StandsForOne(f.obligation, b.findings + c.findings, subjects, d.subject, e.subject);
    }
  }

  lemma {:induction false} IdentityKindIs(b: Result, c: Result, bf: Option<Finding>, cf: Option<Finding>, kind: Kind)
    requires AllPlainNames(b.findings) && AllPlainNames(c.findings) && (bf.Some? || cf.Some?)
    ensures IdentityKind(b, c, bf, cf) == Some(kind) <==>
            if bf.Some? && cf.Some? then KeptAs(b, c, bf.value, cf.value, kind)
            else if bf.Some? then GoneAs(b, c, bf.value, kind)
            else ComeAs(b, c, cf.value, kind)
  {
    hide SameBag, SameActs, AllPlainNames;
    InterventionBagsAreActs(b.findings, c.findings);
    if cf.Some? {
      var o := cf.value.obligation;
      assert o in UncoveredObligations(b) <==>
          exists f :: f in b.findings && f.code == "obligation.uncovered" && f.obligation != "" && f.obligation == o;
    }
  }

  /** What the record says of a delta: kept, gone or come. */
  ghost predicate Told(b: Result, c: Result, subjects: seq<string>, d: Delta) {
    || (exists i, j :: Kept(b, c, subjects, d, i, j))
    || (exists i :: Gone(b, c, subjects, d, i))
    || (exists j :: Come(b, c, subjects, d, j))
  }

  lemma {:induction false} YieldedIsTold(b: Result, c: Result, subjects: seq<string>, d: Delta, id: string)
    requires AllPlainNames(b.findings) && AllPlainNames(c.findings)
    requires id in Ids(b, c) && DeltaAt(b, c, subjects, id) == Some(d)
    ensures Told(b, c, subjects, d)
  {
    hide IdentityKind, BuildDelta, FiledUnder, KeptAs, GoneAs, ComeAs, DeltaIdentity, PlainNames, Absent,
         PresentSide, AbsentSide;
    var bf, cf := At(ById(b.findings), id), At(ById(c.findings), id);
    DeltaAtIs(b, c, subjects, id);
    DeltaKind(b, c, subjects, id);
    IdentityKindIs(b, c, bf, cf, d.kind);
    if bf.Some? {
      var i := SpokenFor(b.findings, id);
      if cf.Some? {
        var j := SpokenFor(c.findings, id);
        IdentityIsPlace(bf.value, cf.value);
        BuiltFrom(d.kind, bf, cf, b, c, subjects, bf.value);
        assert Kept(b, c, subjects, d, i, j);
      } else {
        AbsentById(c.findings, bf.value);
        assert DeltaIdentity(bf.value) == id;
        BuiltFrom(d.kind, bf, cf, b, c, subjects, bf.value);
        assert Gone(b, c, subjects, d, i);
      }
    } else {
      var j := SpokenFor(c.findings, id);
      AbsentById(b.findings, cf.value);
      assert DeltaIdentity(cf.value) == id;
      BuiltFrom(d.kind, bf, cf, b, c, subjects, cf.value);
      assert Come(b, c, subjects, d, j);
    }
  }

  lemma {:induction false} ToldIsYielded(
    b: Result, c: Result, subjects: seq<string>, d: Delta, f: Finding, bf: Option<Finding>, cf: Option<Finding>)
    requires AllPlainNames(b.findings) && AllPlainNames(c.findings)
    requires At(ById(b.findings), DeltaIdentity(f)) == bf && At(ById(c.findings), DeltaIdentity(f)) == cf
    requires bf.Some? || cf.Some?
    requires (bf.Some? ==> SamePlace(bf.value, f)) && (cf.Some? ==> SamePlace(cf.value, f))
    requires FiledUnder(d, f, b, c, subjects)
    requires d.baseline == if bf.Some? then PresentSide(bf.value, b.decision) else AbsentSide(b.decision)
    requires d.candidate == if cf.Some? then PresentSide(cf.value, c.decision) else AbsentSide(c.decision)
    requires IdentityKind(b, c, bf, cf) == Some(d.kind)
    ensures Yields(b, c, subjects, Ids(b, c), d)
  {
    hide IdentityKind, BuildDelta, FiledUnder, DeltaIdentity, PlainNames, ById;
    var id := DeltaIdentity(f);
    DeltaAtIs(b, c, subjects, id);
    BuiltFrom(d.kind, bf, cf, b, c, subjects, f);
    FiledOnce(d, BuildDelta(d.kind, bf, cf, b, c, subjects), f, b, c, subjects);
    assert id in Ids(b, c);
  }

  lemma {:induction false} KeptIsYielded(b: Result, c: Result, subjects: seq<string>, d: Delta, i: int, j: int)
    requires AllPlainNames(b.findings) && AllPlainNames(c.findings) && Kept(b, c, subjects, d, i, j)
    ensures Yields(b, c, subjects, Ids(b, c), d)
  {
    hide IdentityKind, FiledUnder, DeltaIdentity, PlainNames, ById, Yields, SameActs;
    var f, g := b.findings[i], c.findings[j];
    assert f in b.findings && g in c.findings;
    IdentityIsPlace(f, g);
    SpeakerById(b.findings, i);
    SpeakerById(c.findings, j);
    IdentityKindIs(b, c, Some(f), Some(g), d.kind);
    ToldIsYielded(b, c, subjects, d, f, Some(f), Some(g));
  }

  lemma {:induction false} GoneIsYielded(b: Result, c: Result, subjects: seq<string>, d: Delta, i: int)
    requires AllPlainNames(b.findings) && AllPlainNames(c.findings) && Gone(b, c, subjects, d, i)
    ensures Yields(b, c, subjects, Ids(b, c), d)
  {
    hide IdentityKind, FiledUnder, DeltaIdentity, PlainNames, ById, Yields, GoneAs;
    var f := b.findings[i];
    assert f in b.findings;
    SpeakerById(b.findings, i);
    AbsentById(c.findings, f);
    IdentityKindIs(b, c, Some(f), None, d.kind);
    ToldIsYielded(b, c, subjects, d, f, Some(f), None);
  }

  lemma {:induction false} ComeIsYielded(b: Result, c: Result, subjects: seq<string>, d: Delta, j: int)
    requires AllPlainNames(b.findings) && AllPlainNames(c.findings) && Come(b, c, subjects, d, j)
    ensures Yields(b, c, subjects, Ids(b, c), d)
  {
    hide IdentityKind, FiledUnder, DeltaIdentity, PlainNames, ById, Yields, ComeAs;
    var g := c.findings[j];
    assert g in c.findings;
    SpeakerById(c.findings, j);
    AbsentById(b.findings, g);
    IdentityKindIs(b, c, None, Some(g), d.kind);
    ToldIsYielded(b, c, subjects, d, g, None, Some(g));
  }

  /**
   The deltas of a record, spelled out: exactly one for each place whose finding was kept under a changed
   wording or decision, dropped, or added, in the kinds those changes have, with the two sides as they were.
   */
  lemma {:induction false} RecordedExactly(b: Result, c: Result, subjects: seq<string>, list: seq<Delta>, d: Delta)
    requires AllPlainNames(b.findings) && AllPlainNames(c.findings)
    requires Collects(b, c, subjects, Deltas(list)) && list != []
    ensures d in list <==> Told(b, c, subjects, d)
  {
    hide AllPlainNames, DeltaAt, Kept, Gone, Come, Classify.Classify, Collides, ById, DeltaLeq;
    assert Lists(b, c, subjects, Ids(b, c), list);
    if d in list {
      var id :| id in Ids(b, c) && DeltaAt(b, c, subjects, id) == Some(d);
      YieldedIsTold(b, c, subjects, d, id);
    }
    if i, j :| Kept(b, c, subjects, d, i, j) { KeptIsYielded(b, c, subjects, d, i, j); }
    if i :| Gone(b, c, subjects, d, i) { GoneIsYielded(b, c, subjects, d, i); }
    if j :| Come(b, c, subjects, d, j) { ComeIsYielded(b, c, subjects, d, j); }
  }

  /** A record is in strict order of rule, then subject, then the kind's name. */
  lemma {:induction false} RecordInOrder(b: Result, c: Result, subjects: seq<string>, list: seq<Delta>, i: nat, j: nat)
    requires Collects(b, c, subjects, Deltas(list)) && i < j < |list|
    ensures var d, e := list[i], list[j];
            || Less(d.rule, e.rule)
            || (d.rule == e.rule
                && (|| Less(d.subject, e.subject)
                    || (d.subject == e.subject && Less(d.kind.Name(), e.kind.Name()))))
  {
    hide Collects, Less, LexLeq, Kind.Name;
    RecordKeysUnique(b, c, subjects, list);
    RecordSorted(b, c, subjects, list, i, j);
    var d, e := list[i], list[j];
    var v, w := [d.kind.Name()], [e.kind.Name()];
    assert v == v + [] && w == w + [];
    LexFirst(d.kind.Name(), [], e.kind.Name(), []);
    LexFirst(d.subject, v, e.subject, w);
    LexFirst(d.rule, [d.subject] + v, e.rule, [e.subject] + w);
    assert d.Key() == [d.rule] + ([d.subject] + v) && e.Key() == [e.rule] + ([e.subject] + w);
  }

  lemma RecordSorted(b: Result, c: Result, subjects: seq<string>, list: seq<Delta>, i: nat, j: nat)
    requires Collects(b, c, subjects, Deltas(list)) && i < j < |list|
    ensures LexLeq(list[i].Key(), list[j].Key())
  {
    hide Classify.Classify, Collides, Yields, LexLeq;
  }
}
