/**
 The promotion comparator, one case at a time: the keys that identify findings, and the classifier
 that names the difference between a baseline result and a candidate result.
 */
module Classify {
  import opened Sequences
  import opened Strings
  import opened Findings

  /** The closed taxonomy of differences. */
  datatype Kind =
    | StricterInterventionAdded
    | InterventionMissed
    | ObligationUncovered
    | NewlyAutoMergeable
    | ScoreThresholdChange
    | ExplanationOnly
  {
    function Name(): string {
      match this
      case StricterInterventionAdded => "stricter-intervention-added"
      case InterventionMissed => "destructive-or-authorization-intervention-missed"
      case ObligationUncovered => "subject-or-obligation-uncovered"
      case NewlyAutoMergeable => "newly-auto-mergeable"
      case ScoreThresholdChange => "score-threshold-change"
      case ExplanationOnly => "explanation-only"
    }
  }

  datatype CaseClass = Agree | Differs(kind: Kind) | Unclassified

  // ----- Keys -----

  function Field(a: string, rest: string): string {
    a + ['|'] + rest
  }

  /** What a finding is, apart from its wording. */
  datatype FindingId = FindingId(
    rule: string, obligation: string, effect: string, subject: string, code: string, points: int)

  function Identify(f: Finding): FindingId {
    FindingId(f.rule, f.obligation, f.effect, f.subject, f.code, f.points)
  }

  function FindingKey(f: Finding, withMessage: bool): string {
    var points := Itoa(f.points);
    Field(f.rule, Field(f.obligation, Field(f.effect, Field(f.subject, Field(f.code,
      if withMessage then Field(points, f.message) else points)))))
  }

  function InterventionKey(f: Finding): string {
    Field(f.rule, Field(f.obligation, Field(f.effect, Field(f.subject, f.code))))
  }

  /** The key a finding's difference is filed under. */
  function DeltaIdentity(f: Finding): string {
    Field(f.rule, Field(f.obligation, f.subject))
  }

  function KeyOf(withMessage: bool): Finding -> string { (f: Finding) => FindingKey(f, withMessage) }
  function InterventionOf(): Finding -> string { (f: Finding) => InterventionKey(f) }
  function IdOf(): Finding -> FindingId { (f: Finding) => Identify(f) }

  /** The same keys equally often, in whatever order the findings came. */
  ghost predicate SameBag<U>(key: Finding -> U, a: seq<Finding>, b: seq<Finding>) {
    Permutation(Map(key, a), Map(key, b))
  }

  /** No separator inside a name; the subject may hold anything. */
  predicate PlainNames(f: Finding) {
    '|' !in f.rule && '|' !in f.obligation && '|' !in f.effect && '|' !in f.code
  }

  predicate Plain(f: Finding) {
    PlainNames(f) && '|' !in f.subject
  }

  ghost predicate AllPlainNames(fs: seq<Finding>) { forall f :: f in fs ==> PlainNames(f) }
  ghost predicate AllPlain(fs: seq<Finding>) { forall f :: f in fs ==> Plain(f) }

  /** The keys of the two sides can be told apart: one side is plain, or both sides' names are. */
  ghost predicate Legible(a: seq<Finding>, b: seq<Finding>) {
    AllPlain(a) || AllPlain(b) || (AllPlainNames(a) && AllPlainNames(b))
  }

  lemma {:induction false} FieldSplits(a: string, x: string, b: string, y: string)
    requires '|' !in a && '|' !in b && Field(a, x) == Field(b, y)
    ensures a == b && x == y
  {
    SeparatorSplits(a, x, b, y, '|');
  }

  lemma {:induction false} LastFieldSplits(a: string, x: string, b: string, y: string)
    requires '|' !in x && '|' !in y && Field(a, x) == Field(b, y)
    ensures a == b && x == y
  {
    LastSeparatorSplits(a, x, b, y, '|');
  }

  lemma ItoaPlain(n: int)
    ensures '|' !in Itoa(n)
  {}

  lemma {:induction false} FieldAssociates(a: string, b: string, c: string)
    ensures Field(a, Field(b, c)) == Field(Field(a, b), c)
  {
    assert a + ['|'] + (b + ['|'] + c) == (a + ['|'] + b) + ['|'] + c;
  }

  /** The key without the message determines the identity, whatever the subject holds. */
  lemma {:induction false} KeyDeterminesIdentity(f: Finding, g: Finding)
    requires PlainNames(f) && PlainNames(g) && FindingKey(f, false) == FindingKey(g, false)
    ensures Identify(f) == Identify(g)
  {
    hide Field, Itoa;
    var p, q := Itoa(f.points), Itoa(g.points);
    FieldSplits(f.rule, Field(f.obligation, Field(f.effect, Field(f.subject, Field(f.code, p)))),
                g.rule, Field(g.obligation, Field(g.effect, Field(g.subject, Field(g.code, q)))));
    FieldSplits(f.obligation, Field(f.effect, Field(f.subject, Field(f.code, p))),
                g.obligation, Field(g.effect, Field(g.subject, Field(g.code, q))));
    FieldSplits(f.effect, Field(f.subject, Field(f.code, p)), g.effect, Field(g.subject, Field(g.code, q)));
    FieldAssociates(f.subject, f.code, p);
    FieldAssociates(g.subject, g.code, q);
    ItoaPlain(f.points);
    ItoaPlain(g.points);
    LastFieldSplits(Field(f.subject, f.code), p, Field(g.subject, g.code), q);
    LastFieldSplits(f.subject, f.code, g.subject, g.code);
    ItoaInjective(f.points, g.points);
  }

  // ----- Exactly which keys determine an identity -----

  function Pipes(s: string): nat {
    multiset(s)['|']
  }

  lemma PipesField(a: string, rest: string)
    ensures Pipes(Field(a, rest)) == Pipes(a) + 1 + Pipes(rest)
  {}

  lemma PipesPlain(s: string)
    ensures Pipes(s) == 0 <==> '|' !in s
  {}

  /** Five separators, and one for every bar inside a field. */
  lemma {:induction false} KeyPipes(f: Finding)
    ensures Pipes(FindingKey(f, false))
         == 5 + Pipes(f.rule) + Pipes(f.obligation) + Pipes(f.effect) + Pipes(f.subject) + Pipes(f.code)
  {
    hide Field, Itoa, Pipes;
    var p := Itoa(f.points);
    ItoaPlain(f.points);
    PipesPlain(p);
    PipesField(f.code, p);
    PipesField(f.subject, Field(f.code, p));
    PipesField(f.effect, Field(f.subject, Field(f.code, p)));
    PipesField(f.obligation, Field(f.effect, Field(f.subject, Field(f.code, p))));
    PipesField(f.rule, Field(f.obligation, Field(f.effect, Field(f.subject, Field(f.code, p)))));
  }

  /** A plain finding shares its key only with plain findings of the same identity. */
  lemma {:induction false} PlainKeyDetermines(f: Finding, g: Finding)
    requires Plain(f) && FindingKey(f, false) == FindingKey(g, false)
    ensures Plain(g) && Identify(f) == Identify(g)
  {
    hide FindingKey, Pipes;
    KeyPipes(f);
    KeyPipes(g);
    forall s: string
      ensures Pipes(s) == 0 <==> '|' !in s
    {
      PipesPlain(s);
    }
    KeyDeterminesIdentity(f, g);
  }

  /** The part of `s` after its first bar. */
  function After(s: string): string {
    if s == [] then "" else if s[0] == '|' then s[1..] else After(s[1..])
  }

  lemma {:induction false} SplitAtBar(s: string)
    requires '|' in s
    ensures s == Field(Before(s, '|'), After(s)) && |Before(s, '|')| < |s|
  {
    assert s == [s[0]] + s[1..];
    if s[0] != '|' {
      SplitAtBar(s[1..]);
    }
  }

  /** A finding with a bar in a field shares its keys with another one: the bar can separate instead. */
  lemma {:induction false} Shifted(f: Finding) returns (g: Finding)
    requires !Plain(f)
    ensures Identify(g) != Identify(f) && forall m :: FindingKey(g, m) == FindingKey(f, m)
  {
    hide Field, Itoa, Before, After;
    forall a, b, c
      ensures Field(a, Field(b, c)) == Field(Field(a, b), c)
    {
      FieldAssociates(a, b, c);
    }
    if '|' in f.rule {
      SplitAtBar(f.rule);
      g := f.(rule := Before(f.rule, '|'), obligation := Field(After(f.rule), f.obligation));
    } else if '|' in f.obligation {
      SplitAtBar(f.obligation);
      g := f.(obligation := Before(f.obligation, '|'), effect := Field(After(f.obligation), f.effect));
    } else if '|' in f.effect {
      SplitAtBar(f.effect);
      g := f.(effect := Before(f.effect, '|'), subject := Field(After(f.effect), f.subject));
    } else if '|' in f.subject {
      SplitAtBar(f.subject);
      g := f.(subject := Before(f.subject, '|'), code := Field(After(f.subject), f.code));
    } else {
      SplitAtBar(f.code);
      FieldLonger(f.subject, Before(f.code, '|'));
      g := f.(subject := Field(f.subject, Before(f.code, '|')), code := After(f.code));
    }
  }

  lemma FieldLonger(a: string, rest: string)
    ensures |Field(a, rest)| > |a|
  {}

  /** A finding's key stands for its identity alone exactly when none of its fields holds a bar. */
  lemma {:induction false} KeyUniqueExactlyWhen(f: Finding)
    ensures (forall g :: FindingKey(g, false) == FindingKey(f, false) ==> Identify(g) == Identify(f)) <==> Plain(f)
  {
    hide FindingKey, Plain, Identify;
    if Plain(f) {
      forall g | FindingKey(g, false) == FindingKey(f, false)
        ensures Identify(g) == Identify(f)
      {
        PlainKeyDetermines(f, g);
      }
    } else {
      var g := Shifted(f);
    }
  }

  /** The key with the message determines the finding, when the subject is plain too. */
  lemma {:induction false} FullKeyDeterminesFinding(f: Finding, g: Finding)
    requires Plain(f) && Plain(g) && FindingKey(f, true) == FindingKey(g, true)
    ensures f == g
  {
    hide Field, Itoa;
    var p, q := Field(Itoa(f.points), f.message), Field(Itoa(g.points), g.message);
    FieldSplits(f.rule, Field(f.obligation, Field(f.effect, Field(f.subject, Field(f.code, p)))),
                g.rule, Field(g.obligation, Field(g.effect, Field(g.subject, Field(g.code, q)))));
    FieldSplits(f.obligation, Field(f.effect, Field(f.subject, Field(f.code, p))),
                g.obligation, Field(g.effect, Field(g.subject, Field(g.code, q))));
    FieldSplits(f.effect, Field(f.subject, Field(f.code, p)), g.effect, Field(g.subject, Field(g.code, q)));
    FieldSplits(f.subject, Field(f.code, p), g.subject, Field(g.code, q));
    FieldSplits(f.code, p, g.code, q);
    ItoaPlain(f.points);
    ItoaPlain(g.points);
    FieldSplits(Itoa(f.points), f.message, Itoa(g.points), g.message);
    ItoaInjective(f.points, g.points);
  }

  lemma {:induction false} DeltaIdentityDetermines(f: Finding, g: Finding)
    requires Plain(f) && Plain(g) && DeltaIdentity(f) == DeltaIdentity(g)
    ensures f.rule == g.rule && f.obligation == g.obligation && f.subject == g.subject
  {
    hide Field;
    FieldSplits(f.rule, Field(f.obligation, f.subject), g.rule, Field(g.obligation, g.subject));
    FieldSplits(f.obligation, f.subject, g.obligation, g.subject);
  }

  lemma {:induction false} InterventionKeyDetermines(f: Finding, g: Finding)
    requires PlainNames(f) && PlainNames(g) && InterventionKey(f) == InterventionKey(g)
    ensures DeltaIdentity(f) == DeltaIdentity(g)
  {
    hide Field;
    FieldSplits(f.rule, Field(f.obligation, Field(f.effect, Field(f.subject, f.code))),
                g.rule, Field(g.obligation, Field(g.effect, Field(g.subject, g.code))));
    FieldSplits(f.obligation, Field(f.effect, Field(f.subject, f.code)),
                g.obligation, Field(g.effect, Field(g.subject, g.code)));
    FieldSplits(f.effect, Field(f.subject, f.code), g.effect, Field(g.subject, g.code));
    LastFieldSplits(f.subject, f.code, g.subject, g.code);
  }

  lemma {:induction false} LegibleKeys(a: seq<Finding>, b: seq<Finding>, f: Finding, g: Finding)
    requires Legible(a, b) && f in a && g in b && FindingKey(f, false) == FindingKey(g, false)
    ensures Identify(f) == Identify(g)
  {
    hide FindingKey, Plain, PlainNames;
    if AllPlain(a) {
      PlainKeyDetermines(f, g);
    } else if AllPlain(b) {
      PlainKeyDetermines(g, f);
    } else {
      KeyDeterminesIdentity(f, g);
    }
  }

  /** Equal key bags are equal identity bags. */
  lemma {:induction false} KeyBagsAreIdentityBags(a: seq<Finding>, b: seq<Finding>)
    requires Legible(a, b)
    ensures SameBag(KeyOf(false), a, b) <==> SameBag(IdOf(), a, b)
  {
    hide FindingKey, Legible;
    if SameBag(KeyOf(false), a, b) {
      forall f, g | f in a && g in b && KeyOf(false)(f) == KeyOf(false)(g)
        ensures IdOf()(f) == IdOf()(g)
      {
        LegibleKeys(a, b, f, g);
      }
      BagThrough(KeyOf(false), IdOf(), a, b);
    }
    if SameBag(IdOf(), a, b) {
      forall f, g | f in a && g in b && IdOf()(f) == IdOf()(g)
        ensures KeyOf(false)(f) == KeyOf(false)(g)
      {
        IdentityDeterminesKey(f, g);
      }
      BagThrough(IdOf(), KeyOf(false), a, b);
    }
  }

  /** A side with the keys of a plain side is plain. */
  lemma {:induction false} PlainSpreads(a: seq<Finding>, b: seq<Finding>)
    requires AllPlain(a) && SameBag(KeyOf(false), a, b)
    ensures AllPlain(b)
  {
    hide FindingKey, Plain;
    PermutationMembers(Map(KeyOf(false), a), Map(KeyOf(false), b));
    forall g | g in b
      ensures Plain(g)
    {
      var j :| 0 <= j < |b| && b[j] == g;
      assert Map(KeyOf(false), b)[j] in Map(KeyOf(false), a);
      var i :| 0 <= i < |a| && Map(KeyOf(false), a)[i] == FindingKey(g, false);
      assert a[i] in a;
      PlainKeyDetermines(a[i], g);
    }
  }

  lemma IdentityDeterminesKey(f: Finding, g: Finding)
    requires Identify(f) == Identify(g)
    ensures FindingKey(f, false) == FindingKey(g, false)
  {}

  /** Equal full-key bags are equal finding bags. */
  lemma {:induction false} FullKeyBagsAreFindings(a: seq<Finding>, b: seq<Finding>)
    requires AllPlain(a) && AllPlain(b)
    ensures SameBag(KeyOf(true), a, b) <==> Permutation(a, b)
  {
    hide FindingKey, Plain;
    if SameBag(KeyOf(true), a, b) {
      forall f, g | f in a && g in b && KeyOf(true)(f) == KeyOf(true)(g)
        ensures f == g
      {
        FullKeyDeterminesFinding(f, g);
      }
      BagThrough(KeyOf(true), Itself(), a, b);
      assert Map(Itself(), a) == a && Map(Itself(), b) == b;
    }
    if Permutation(a, b) {
      MapPermutes(KeyOf(true), a, b);
    }
  }

  ghost function Itself(): Finding -> Finding { (f: Finding) => f }

  // ----- What the classifier looks for -----

  predicate MissedEffect(effect: string) {
    effect == EFFECT_BLOCK || effect == EFFECT_REQUIRE_REVIEW
  }

  predicate StricterEffect(effect: string) {
    effect == EFFECT_BLOCK || effect == EFFECT_REQUIRE_REVIEW || effect == EFFECT_CHALLENGE
  }

  ghost predicate Lacks(fs: seq<Finding>, f: Finding) {
    forall g :: g in fs ==> DeltaIdentity(g) != DeltaIdentity(f)
  }

  /** The candidate drops an intervention and still does not approve. */
  ghost predicate Missed(b: Result, c: Result) {
    c.decision != Approve && exists f :: f in b.findings && MissedEffect(f.effect) && Lacks(c.findings, f)
  }

  const UNCOVERED_CODE := "obligation.uncovered"

  predicate ReportsUncovered(f: Finding) {
    f.code == UNCOVERED_CODE && f.obligation != ""
  }

  ghost function UncoveredObligations(r: Result): set<string> {
    set f | f in r.findings && ReportsUncovered(f) :: f.obligation
  }

  /** The candidate decides worse and newly leaves an obligation uncovered. */
  ghost predicate Uncovers(b: Result, c: Result) {
    && c.decision.Severity() > b.decision.Severity()
    && exists o :: o in UncoveredObligations(c) && o !in UncoveredObligations(b)
  }

  /** The candidate adds an intervention where the baseline approved. */
  ghost predicate Stricter(b: Result, c: Result) {
    && b.decision == Approve
    && exists f :: f in c.findings && StricterEffect(f.effect)
                && forall g :: g in b.findings && StricterEffect(g.effect) ==> DeltaIdentity(g) != DeltaIdentity(f)
  }

  /** The first reason that applies names the difference; no reason is an error. */
  ghost function Classify(b: Result, c: Result): CaseClass {
    var same := SameBag(InterventionOf(), b.findings, c.findings);
    if b.decision == c.decision then
      if !SameBag(KeyOf(false), b.findings, c.findings) then Unclassified
      else if SameBag(KeyOf(true), b.findings, c.findings) then Agree
      else Differs(ExplanationOnly)
    else if Missed(b, c) then Differs(InterventionMissed)
    else if Uncovers(b, c) then Differs(ObligationUncovered)
    else if c.decision == Approve then
      if same then Differs(ScoreThresholdChange) else Differs(NewlyAutoMergeable)
    else if same then Differs(ScoreThresholdChange)
    else if Stricter(b, c) then Differs(StricterInterventionAdded)
    else Unclassified
  }

  // ----- The program's way -----

  method SortStrings(s: seq<string>) returns (r: seq<string>)
    ensures Permutation(r, s) && Sorted(Leq, r)
  {
    LeqTotalOrder();
    r := SortBy(Leq, s);
    SortBySorted(Leq, s);
  }

  method FindingKeys(findings: seq<Finding>, withMessage: bool) returns (keys: seq<string>)
    ensures Permutation(keys, Map(KeyOf(withMessage), findings)) && Sorted(Leq, keys)
  {
    hide FindingKey, Leq;
    keys := [];
    for i := 0 to |findings|
      invariant keys == Map(KeyOf(withMessage), findings[..i])
    {
      keys := keys + [FindingKey(findings[i], withMessage)];
    }
    assert findings[..|findings|] == findings;
    keys := SortStrings(keys);
  }

  method InterventionKeys(findings: seq<Finding>) returns (keys: seq<string>)
    ensures Permutation(keys, Map(InterventionOf(), findings)) && Sorted(Leq, keys)
  {
    hide InterventionKey, Leq;
    keys := [];
    for i := 0 to |findings|
      invariant keys == Map(InterventionOf(), findings[..i])
    {
      keys := keys + [InterventionKey(findings[i])];
    }
    assert findings[..|findings|] == findings;
    keys := SortStrings(keys);
  }

  method EqualStrings(a: seq<string>, b: seq<string>) returns (equal: bool)
    ensures equal <==> a == b
  {
    if |a| != |b| { return false; }
    for i := 0 to |a|
      invariant a[..i] == b[..i]
    {
      if a[i] != b[i] { return false; }
    }
    return true;
  }

  /** Sorted listings are equal exactly when the bags are. */
  lemma {:induction false} SortedListingsEqual(x: seq<string>, y: seq<string>, a: seq<string>, b: seq<string>)
    requires Sorted(Leq, x) && Sorted(Leq, y) && Permutation(x, a) && Permutation(y, b)
    ensures x == y <==> Permutation(a, b)
  {
    hide Leq;
    LeqTotalOrder();
    if Permutation(a, b) { SortedUnique(Leq, x, y); }
  }

  method SameFindingKeys(a: seq<Finding>, b: seq<Finding>, withMessage: bool) returns (same: bool)
    ensures same <==> SameBag(KeyOf(withMessage), a, b)
  {
    hide Leq, FindingKey;
    var x := FindingKeys(a, withMessage);
    var y := FindingKeys(b, withMessage);
    same := EqualStrings(x, y);
    SortedListingsEqual(x, y, Map(KeyOf(withMessage), a), Map(KeyOf(withMessage), b));
  }

  method SameInterventionKeys(a: seq<Finding>, b: seq<Finding>) returns (same: bool)
    ensures same <==> SameBag(InterventionOf(), a, b)
  {
    hide Leq, InterventionKey;
    var x := InterventionKeys(a);
    var y := InterventionKeys(b);
    same := EqualStrings(x, y);
    SortedListingsEqual(x, y, Map(InterventionOf(), a), Map(InterventionOf(), b));
  }

  /** The findings by identity; a later finding replaces an earlier one. */
  ghost function ById(fs: seq<Finding>): (m: map<string, Finding>)
    ensures forall id :: id in m ==> m[id] in fs && DeltaIdentity(m[id]) == id
    ensures forall f :: f in fs ==> DeltaIdentity(f) in m
  {
    if fs == [] then map[] else
    var last := fs[|fs| - 1];
    assert fs == fs[..|fs| - 1] + [last];
    ById(fs[..|fs| - 1])[DeltaIdentity(last) := last]
  }

  method FindingsByIdentity(findings: seq<Finding>) returns (m: map<string, Finding>)
    ensures m == ById(findings)
  {
    hide DeltaIdentity;
    m := map[];
    for i := 0 to |findings|
      invariant m == ById(findings[..i])
    {
      m := m[DeltaIdentity(findings[i]) := findings[i]];
      assert findings[..i + 1][..i] == findings[..i];
    }
    assert findings[..|findings|] == findings;
  }

  method DetectMissedIntervention(b: Result, c: Result) returns (found: bool)
    ensures found <==> Missed(b, c)
  {
    hide DeltaIdentity;
    if c.decision == Approve { return false; }
    var candidates := FindingsByIdentity(c.findings);
    for i := 0 to |b.findings|
      invariant forall j :: 0 <= j < i ==> !(MissedEffect(b.findings[j].effect) && Lacks(c.findings, b.findings[j]))
    {
      var f := b.findings[i];
      if !MissedEffect(f.effect) { continue; }
      if DeltaIdentity(f) !in candidates { return true; }
    }
    return false;
  }

  method InterventionIdentities(findings: seq<Finding>) returns (ids: set<string>)
    ensures forall id :: id in ids <==> exists f :: f in findings && StricterEffect(f.effect) && DeltaIdentity(f) == id
  {
    hide DeltaIdentity;
    ids := {};
    for i := 0 to |findings|
      invariant forall id :: id in ids <==>
                  exists f :: f in findings[..i] && StricterEffect(f.effect) && DeltaIdentity(f) == id
    {
      var f := findings[i];
      assert findings[..i + 1] == findings[..i] + [f];
      if !StricterEffect(f.effect) { continue; }
      ids := ids + {DeltaIdentity(f)};
    }
    assert findings[..|findings|] == findings;
  }

  method DetectStricterInterventionAdded(b: Result, c: Result) returns (found: bool)
    ensures found <==> Stricter(b, c)
  {
    hide DeltaIdentity;
    if b.decision != Approve { return false; }
    var known := InterventionIdentities(b.findings);
    for i := 0 to |c.findings|
      invariant forall j :: 0 <= j < i && StricterEffect(c.findings[j].effect) ==> DeltaIdentity(c.findings[j]) in known
    {
      var f := c.findings[i];
      if !StricterEffect(f.effect) { continue; }
      if DeltaIdentity(f) !in known {
        assert f in c.findings;
        return true;
      }
    }
    return false;
  }

  method CollectUncovered(r: Result) returns (obligations: set<string>)
    ensures obligations == UncoveredObligations(r)
  {
    obligations := {};
    for i := 0 to |r.findings|
      invariant obligations == set f | f in r.findings[..i] && ReportsUncovered(f) :: f.obligation
    {
      var f := r.findings[i];
      assert r.findings[..i + 1] == r.findings[..i] + [f];
      if f.code != UNCOVERED_CODE { continue; }
      if f.obligation != "" { obligations := obligations + {f.obligation}; }
    }
    assert r.findings[..|r.findings|] == r.findings;
  }

  method IsObligationUncovered(b: Result, c: Result) returns (found: bool)
    ensures found <==> Uncovers(b, c)
  {
    var before := CollectUncovered(b);
    var after := CollectUncovered(c);
    var todo := after;
    while todo != {}
      invariant todo <= after
      invariant forall o :: o in after && o !in todo && o !in before ==> c.decision.Severity() <= b.decision.Severity()
      decreases todo
    {
      var o :| o in todo;
      todo := todo - {o};
      if o in before { continue; }
      if c.decision.Severity() > b.decision.Severity() { return true; }
    }
    return false;
  }

  method ClassifyPair(b: Result, c: Result) returns (r: CaseClass)
    ensures r == Classify(b, c)
  {
    hide Missed, Uncovers, Stricter, SameBag;
    if b.decision == c.decision {
      var sameIds := SameFindingKeys(b.findings, c.findings, false);
      if !sameIds { return Unclassified; }
      var sameAll := SameFindingKeys(b.findings, c.findings, true);
      return if sameAll then Agree else Differs(ExplanationOnly);
    }
    var missed := DetectMissedIntervention(b, c);
    if missed { return Differs(InterventionMissed); }
    var uncovered := IsObligationUncovered(b, c);
    if uncovered { return Differs(ObligationUncovered); }
    var same := SameInterventionKeys(b.findings, c.findings);
    if c.decision == Approve && b.decision != Approve {
      return Differs(if same then ScoreThresholdChange else NewlyAutoMergeable);
    }
    if same { return Differs(ScoreThresholdChange); }
    var stricter := DetectStricterInterventionAdded(b, c);
    if stricter { return Differs(StricterInterventionAdded); }
    return Unclassified;
  }

  // ----- What the classes mean -----

  lemma {:induction false} AgreeMeans(b: Result, c: Result)
    requires Classify(b, c) == Agree && AllPlain(b.findings)
    ensures b.decision == c.decision && Permutation(b.findings, c.findings)
  {
    hide SameBag, Missed, Uncovers, Stricter, AllPlain;
    PlainSpreads(b.findings, c.findings);
    FullKeyBagsAreFindings(b.findings, c.findings);
  }

  lemma {:induction false} SameIsAgree(b: Result, c: Result)
    requires b.decision == c.decision && Permutation(b.findings, c.findings)
    ensures Classify(b, c) == Agree
  {
    hide Missed, Uncovers, Stricter, KeyOf;
    MapPermutes(KeyOf(false), b.findings, c.findings);
    MapPermutes(KeyOf(true), b.findings, c.findings);
  }

  /** "No difference" from a plain baseline means the same decision and the same findings, wording included. */
  lemma {:induction false} AgreeExactlyWhen(b: Result, c: Result)
    requires AllPlain(b.findings)
    ensures Classify(b, c) == Agree <==> b.decision == c.decision && Permutation(b.findings, c.findings)
  {
    hide Classify, AllPlain;
    if Classify(b, c) == Agree { AgreeMeans(b, c); }
    if b.decision == c.decision && Permutation(b.findings, c.findings) { SameIsAgree(b, c); }
  }

  /** One finding exchanged for another with the same keys goes unnoticed. */
  lemma {:induction false} SwapUnnoticed(b: Result, i: nat, g: Finding)
    requires i < |b.findings| && g != b.findings[i] && forall m :: FindingKey(g, m) == FindingKey(b.findings[i], m)
    ensures var c := b.(findings := b.findings[i := g]);
            Classify(b, c) == Agree && !Permutation(b.findings, c.findings)
  {
    hide Missed, Uncovers, Stricter, FindingKey;
    var fs, gs := b.findings, b.findings[i := g];
    assert Map(KeyOf(false), fs) == Map(KeyOf(false), gs) && Map(KeyOf(true), fs) == Map(KeyOf(true), gs);
    assert fs == fs[..i] + [fs[i]] + fs[i + 1..] && gs == fs[..i] + [g] + fs[i + 1..];
    assert multiset(gs)[g] == multiset(fs)[g] + 1;
  }

  /** The comparison sees every change to a baseline exactly when no field of its findings holds a bar. */
  lemma {:induction false} SeesEveryChangeExactlyWhen(b: Result)
    ensures (forall c :: Classify(b, c) == Agree ==> b.decision == c.decision && Permutation(b.findings, c.findings))
            <==> AllPlain(b.findings)
  {
    hide Classify, Plain, FindingKey;
    if AllPlain(b.findings) {
      forall c | Classify(b, c) == Agree
        ensures b.decision == c.decision && Permutation(b.findings, c.findings)
      {
        AgreeMeans(b, c);
      }
    } else {
      var f :| f in b.findings && !Plain(f);
      var i :| 0 <= i < |b.findings| && b.findings[i] == f;
      var g := Shifted(f);
      SwapUnnoticed(b, i, g);
    }
  }

  /** A separator inside a name hides a change: two different findings, one key. */
  lemma {:induction false} PipeHidesAChange(f: Finding, g: Finding)
    requires f == Finding("a|b", "c", "block", "s", 1, "x", "m") && g == Finding("a", "b|c", "block", "s", 1, "x", "m")
    ensures f != g && Classify(Result(Block, [f], [], map[]), Result(Block, [g], [], map[])) == Agree
  {
    hide Itoa;
    assert Field(f.rule, Field(f.obligation, "")) == "a|b|c|" == Field(g.rule, Field(g.obligation, ""));
    forall m | true
      ensures FindingKey(f, m) == FindingKey(g, m)
    {
      var rest := Field("block", Field("s", Field("x", if m then Field(Itoa(1), "m") else Itoa(1))));
      SameStart(rest);
    }
    assert Map(KeyOf(false), [f]) == Map(KeyOf(false), [g]) && Map(KeyOf(true), [f]) == Map(KeyOf(true), [g]);
  }

  lemma SameStart(rest: string)
    ensures Field("a|b", Field("c", rest)) == Field("a", Field("b|c", rest))
  {}
}
