/** Loaded policy values, the four match domains, phases and approval evidence. */
module Policy {
  import opened Sequences
  import opened AssertTree

  /** One change as the engine sees it; a whole-file event has an empty path. */
  datatype EvalChange = EvalChange(
    subject: string, file: string, path: string, kind: string, oldValue: string, newValue: string)

  datatype FileEvents = FileEvents(kinds: seq<string>, paths: seq<string>)
  datatype ValueChanges = ValueChanges(pointers: seq<string>, kinds: seq<string>, paths: seq<string>)
  datatype ValuesMatch = ValuesMatch(pointers: seq<string>, paths: seq<string>)

  datatype Match = Match(
    fileEvents: Option<FileEvents>, files: Option<seq<string>>,
    valueChanges: Option<ValueChanges>, values: Option<ValuesMatch>)

  datatype Prove = Prove(obligation: string, when: Tree)
  datatype OnFailure = OnFailure(effect: string, code: string)

  datatype Rule = Rule(
    name: string, phase: string, domain: Match, prove: Option<Prove>, onFailure: Option<OnFailure>, points: int)

  // ----- Matching -----

  /** Glob matching is a parameter: glob(pattern, text). */
  type Glob = (string, string) -> bool

  predicate AnyGlob(glob: Glob, patterns: seq<string>, s: string) {
    exists i :: 0 <= i < |patterns| && glob(patterns[i], s)
  }

  /** No supported domain, or a values domain without any selector. */
  predicate MatchFails(m: Match) {
    && m.fileEvents.None? && m.files.None? && m.valueChanges.None?
    && (m.values.Some? ==> m.values.value.pointers == [] && m.values.value.paths == [])
  }

  /** The rule's domain selects the change; the first domain that is set decides. */
  predicate Selects(glob: Glob, m: Match, ch: EvalChange) {
    if m.fileEvents.Some? then
      var fe := m.fileEvents.value;
      ch.path == "" && ch.kind in fe.kinds && AnyGlob(glob, fe.paths, ch.file)
    else if m.files.Some? then
      ch.path != "" && AnyGlob(glob, m.files.value, ch.file)
    else if m.valueChanges.Some? then
      var vc := m.valueChanges.value;
      && ch.path != "" && AnyGlob(glob, vc.pointers, ch.path)
      && (vc.kinds != [] ==> ch.kind in vc.kinds)
      && (vc.paths != [] ==> AnyGlob(glob, vc.paths, ch.file))
    else if m.values.Some? then
      var v := m.values.value;
      && !(v.pointers == [] && v.paths == [])
      && ch.path != "" && ch.kind == "modify"
      && (v.pointers != [] ==> AnyGlob(glob, v.pointers, ch.path))
      && (v.paths != [] ==> AnyGlob(glob, v.paths, ch.file))
    else false
  }

  function SelectFilter(glob: Glob, m: Match): EvalChange -> bool {
    (ch: EvalChange) => Selects(glob, m, ch)
  }

  /** The selected changes in input order, or an error for a domain the loader should have refused. */
  method MatchChanges(glob: Glob, m: Match, changes: seq<EvalChange>) returns (r: Option<seq<EvalChange>>)
    ensures r == if MatchFails(m) then None else Some(Filter(SelectFilter(glob, m), changes))
  {
    if MatchFails(m) { return None; }
    var out: seq<EvalChange> := [];
    for i := 0 to |changes|
      invariant out == Filter(SelectFilter(glob, m), changes[..i])
    {
      FilterSnoc(SelectFilter(glob, m), changes, i);
      if Selects(glob, m, changes[i]) { out := out + [changes[i]]; }
    }
    assert changes[..|changes|] == changes;
    r := Some(out);
  }

  /** Whole-file events and value-level changes are never selected by the same rule. */
  lemma DomainsDisjoint(glob: Glob, m: Match, a: EvalChange, b: EvalChange)
    requires Selects(glob, m, a) && Selects(glob, m, b)
    ensures a.path == "" <==> b.path == ""
    ensures m.fileEvents.Some? <==> a.path == ""
  {}

  ghost predicate SomePattern(glob: Glob, patterns: seq<string>, s: string) {
    exists p :: p in patterns && glob(p, s)
  }

  lemma {:induction false} AnyGlobIs(glob: Glob, patterns: seq<string>, s: string)
    ensures AnyGlob(glob, patterns, s) <==> SomePattern(glob, patterns, s)
  {
    if SomePattern(glob, patterns, s) {
      var p :| p in patterns && glob(p, s);
      var i :| 0 <= i < |patterns| && patterns[i] == p;
    }
  }

  /** Domain by domain, what is selected; an unset narrowing selector does not narrow. */
  lemma {:induction false} SelectsExactlyWhen(glob: Glob, m: Match, ch: EvalChange)
    ensures m.fileEvents.Some? ==>
      (Selects(glob, m, ch) <==>
         && ch.path == "" && ch.kind in m.fileEvents.value.kinds
         && SomePattern(glob, m.fileEvents.value.paths, ch.file))
    ensures m.fileEvents.None? && m.files.Some? ==>
      (Selects(glob, m, ch) <==> ch.path != "" && SomePattern(glob, m.files.value, ch.file))
    ensures m.fileEvents.None? && m.files.None? && m.valueChanges.Some? ==>
      (Selects(glob, m, ch) <==>
         && ch.path != "" && SomePattern(glob, m.valueChanges.value.pointers, ch.path)
         && (m.valueChanges.value.kinds == [] || ch.kind in m.valueChanges.value.kinds)
         && (m.valueChanges.value.paths == [] || SomePattern(glob, m.valueChanges.value.paths, ch.file)))
    ensures m.fileEvents.None? && m.files.None? && m.valueChanges.None? && m.values.Some? && !MatchFails(m) ==>
      (Selects(glob, m, ch) <==>
         && ch.path != "" && ch.kind == "modify"
         && (m.values.value.pointers == [] || SomePattern(glob, m.values.value.pointers, ch.path))
         && (m.values.value.paths == [] || SomePattern(glob, m.values.value.paths, ch.file)))
    ensures MatchFails(m) ==> !Selects(glob, m, ch)
  {
    hide AnyGlob, SomePattern;
    if m.fileEvents.Some? {
      AnyGlobIs(glob, m.fileEvents.value.paths, ch.file);
    } else if m.files.Some? {
      AnyGlobIs(glob, m.files.value, ch.file);
    } else if m.valueChanges.Some? {
      AnyGlobIs(glob, m.valueChanges.value.pointers, ch.path);
      AnyGlobIs(glob, m.valueChanges.value.paths, ch.file);
    } else if m.values.Some? {
      AnyGlobIs(glob, m.values.value.pointers, ch.path);
      AnyGlobIs(glob, m.values.value.paths, ch.file);
    }
  }

  /** A match block is unusable exactly when it sets no domain, or only a values domain without selectors. */
  lemma MatchFailsExactlyWhen(m: Match)
    ensures !MatchFails(m) <==>
      || m.fileEvents.Some? || m.files.Some? || m.valueChanges.Some?
      || (m.values.Some? && (m.values.value.pointers != [] || m.values.value.paths != []))
  {}

  // ----- Phases -----

  const OBSERVE := "observe"
  const ENFORCE := "enforce"

  function PhaseRank(p: string): nat {
    if p == OBSERVE then 1 else if p == ENFORCE then 2 else 0
  }

  /** The pack ceiling only ever lowers a rule's phase. */
  function EffectivePhase(rule: string, ceiling: string): string {
    if PhaseRank(ceiling) < PhaseRank(rule) then ceiling else rule
  }

  /** An unset ceiling means no cap. */
  function NormalCeiling(ceiling: string): string {
    if ceiling == "" then ENFORCE else ceiling
  }

  predicate Enforced(ceiling: string, r: Rule) {
    r.prove.Some? && EffectivePhase(r.phase, ceiling) == ENFORCE
  }

  predicate Observed(ceiling: string, r: Rule) {
    r.prove.Some? && EffectivePhase(r.phase, ceiling) == OBSERVE
  }

  function EnforcedFilter(ceiling: string): Rule -> bool { (r: Rule) => Enforced(ceiling, r) }

  /** A rule enforces exactly when both it and the ceiling say enforce. */
  lemma EnforcedExactlyWhen(ceiling: string, r: Rule)
    ensures Enforced(ceiling, r) <==> r.prove.Some? && r.phase == "enforce" && ceiling == "enforce"
  {}

  /** A rule is only observed exactly when it proves something and the lower of its phase and the ceiling is observe. */
  lemma ObservedExactlyWhen(ceiling: string, r: Rule)
    ensures Observed(ceiling, r) <==>
      && r.prove.Some?
      && ((r.phase == "observe" && ceiling in {"observe", "enforce"}) || (r.phase == "enforce" && ceiling == "observe"))
  {}

  // ----- Approval evidence -----

  datatype Approver = Approver(id: string, username: string, isAuthor: bool)

  datatype Evidence = Evidence(
    capability: string, approvalsRequired: int, approvedBy: seq<Approver>, eligibility: seq<string>,
    pinnedSha: string, expired: bool)

  datatype Approval = Approval(sourceSha: string, evidence: map<string, Evidence>)

  /** Eligible by the forge, and not the author under any name. */
  predicate CountsAsApprover(a: Approver, eligible: seq<string>, author: string) {
    && !a.isAuthor
    && !(author != "" && (a.username == author || a.id == author))
    && a.id in eligible
  }

  /** The distinct people whose approval counts. */
  ghost function CountingIds(ev: Evidence, author: string): set<string> {
    set i | 0 <= i < |ev.approvedBy| && CountsAsApprover(ev.approvedBy[i], ev.eligibility, author)
      :: ev.approvedBy[i].id
  }

  ghost predicate Satisfied(ev: Option<Evidence>, sha: string, author: string) {
    && ev.Some?
    && (ev.value.capability == "approval-rules-api" || ev.value.capability == "codeowners")
    && !ev.value.expired
    && sha != "" && ev.value.pinnedSha == sha
    && 1 <= ev.value.approvalsRequired <= |CountingIds(ev.value, author)|
  }

  predicate IsGap(ev: Option<Evidence>) {
    ev.Some? && ev.value.capability == "none"
  }

  method ApprovalSatisfies(ev: Option<Evidence>, sha: string, author: string) returns (satisfied: bool, gap: bool)
    ensures satisfied <==> Satisfied(ev, sha, author)
    ensures gap <==> IsGap(ev)
  {
    if ev.None? { return false, false; }
    var e := ev.value;
    if e.capability == "none" { return false, true; }
    if e.capability != "approval-rules-api" && e.capability != "codeowners" { return false, false; }
    if e.expired { return false, false; }
    if sha == "" || e.pinnedSha == "" || e.pinnedSha != sha { return false, false; }
    if e.approvalsRequired < 1 { return false, false; }
    var distinct: set<string> := {};
    for i := 0 to |e.approvedBy|
      invariant distinct
             == set j | 0 <= j < i && CountsAsApprover(e.approvedBy[j], e.eligibility, author) :: e.approvedBy[j].id
    {
      if CountsAsApprover(e.approvedBy[i], e.eligibility, author) { distinct := distinct + {e.approvedBy[i].id}; }
    }
    return |distinct| >= e.approvalsRequired, false;
  }

  function EvidenceFor(a: Option<Approval>, subject: string): Option<Evidence> {
    if a.Some? && subject in a.value.evidence then Some(a.value.evidence[subject]) else None
  }

  function SourceSha(a: Option<Approval>): string {
    if a.Some? then a.value.sourceSha else ""
  }

  /** The approver is the author, by flag, by name or by id. */
  predicate IsSelf(a: Approver, author: string) {
    a.isAuthor || (author != "" && (a.username == author || a.id == author))
  }

  /** The ids of listed approvers that the forge proved eligible and that are not the author. */
  ghost function Independent(ev: Evidence, author: string): set<string> {
    set a | a in ev.approvedBy && !IsSelf(a, author) && a.id in ev.eligibility :: a.id
  }

  lemma {:induction false} CountingIsIndependent(ev: Evidence, author: string)
    ensures CountingIds(ev, author) == Independent(ev, author)
  {
    forall id
      ensures id in CountingIds(ev, author) <==> id in Independent(ev, author)
    {
      if id in Independent(ev, author) {
        var a :| a in ev.approvedBy && !IsSelf(a, author) && a.id in ev.eligibility && a.id == id;
        var i :| 0 <= i < |ev.approvedBy| && ev.approvedBy[i] == a;
      }
    }
  }

  /**
   Evidence satisfies exactly when a real capability produced it, it has not expired, it was given for
   the evaluated source, and enough different people other than the author, all proven eligible, approved.
   */
  lemma {:induction false} SatisfiedExactlyWhen(ev: Evidence, sha: string, author: string)
    ensures Satisfied(Some(ev), sha, author) <==>
      && ev.capability in {"approval-rules-api", "codeowners"} && !ev.expired
      && sha != "" && ev.pinnedSha == sha
      && ev.approvalsRequired >= 1 && |Independent(ev, author)| >= ev.approvalsRequired
  {
    hide CountingIds, Independent;
    CountingIsIndependent(ev, author);
  }

  /** Nobody satisfies their own review, and nobody satisfies one without being eligible. */
  lemma {:induction false} SelfApprovalNeverSatisfies(ev: Evidence, sha: string, author: string)
    requires forall a :: a in ev.approvedBy ==>
      (a.id !in ev.eligibility || a.isAuthor || (author != "" && (a.username == author || a.id == author)))
    ensures !Satisfied(Some(ev), sha, author)
  {
    hide CountingIds;
    CountingIsIndependent(ev, author);
    assert Independent(ev, author) == {};
  }

  /** Evidence of capability "none" is the one gap; neither it nor missing evidence satisfies. */
  lemma GapExactlyWhen(ev: Option<Evidence>, sha: string, author: string)
    ensures IsGap(ev) <==> ev.Some? && ev.value.capability == "none"
    ensures ev.None? || IsGap(ev) ==> !Satisfied(ev, sha, author)
  {}

  /** One person never satisfies a two-person rule, however often they are listed. */
  lemma {:induction false} ApprovalNeedsPeople(ev: Evidence, sha: string, author: string, id: string)
    requires Satisfied(Some(ev), sha, author) && ev.approvalsRequired >= 2
    ensures exists a :: a in ev.approvedBy && a.id != id && !IsSelf(a, author) && a.id in ev.eligibility
  {
    hide CountingIds;
    CountingIsIndependent(ev, author);
    var ids := Independent(ev, author);
    assert ids - {id} != {} by {
      if ids - {id} == {} {
        AtMostOne(ids, id);
      }
    }
    var other :| other in ids - {id};
  }

  lemma {:induction false} AtMostOne(s: set<string>, x: string)
    requires s - {x} == {}
    ensures |s| <= 1
  {
    if x in s {
      assert s == {x};
    } else {
      assert s == {};
    }
  }
}
