/**
 The promotion gates and the suite that runs them: a candidate policy passes only when every case
 behaves as under the baseline, or each recorded difference is individually accepted.
 */
module Promotion {
  import opened Sequences
  import opened Strings
  import opened Findings
  import opened Classify
  import opened Deltas
  import opened ComparatorOutcomes

  datatype Gate = Gate(id: string, failOnKinds: seq<Kind>, defaultVerdict: string, acceptance: string)

  datatype AcceptedDelta = AcceptedDelta(caseId: string, kind: Kind, rule: string, subject: string, obligation: string)

  datatype Spec = Spec(gates: seq<Gate>, accepted: seq<AcceptedDelta>)

  datatype Record = Record(baselineProfile: string, candidateProfile: string, caseId: string, deltas: seq<Delta>)

  datatype Verdict = Pass | Fail

  datatype GateEvaluation = GateEvaluation(results: map<string, Verdict>, firstFailure: string)

  // ----- Gates -----

  predicate Matches(a: AcceptedDelta, caseId: string, d: Delta) {
    && a.caseId == caseId && a.kind == d.kind && a.rule == d.rule && a.subject == d.subject
    && (a.obligation == "" || a.obligation == d.obligation)
  }

  ghost predicate IsAccepted(accepted: seq<AcceptedDelta>, caseId: string, d: Delta) {
    exists a :: a in accepted && Matches(a, caseId, d)
  }

  method FindAccepted(accepted: seq<AcceptedDelta>, caseId: string, d: Delta) returns (found: bool)
    ensures found <==> IsAccepted(accepted, caseId, d)
  {
    for i := 0 to |accepted|
      invariant forall j :: 0 <= j < i ==> !Matches(accepted[j], caseId, d)
    {
      if Matches(accepted[i], caseId, d) { return true; }
    }
    return false;
  }

  /** This delta alone fails the gate. */
  ghost predicate Trips(g: Gate, accepted: seq<AcceptedDelta>, caseId: string, d: Delta) {
    && d.kind != ExplanationOnly
    && d.kind in g.failOnKinds
    && !(g.acceptance == "per-delta-identity" && IsAccepted(accepted, caseId, d))
    && g.defaultVerdict != "pass"
  }

  ghost predicate RecordTrips(g: Gate, accepted: seq<AcceptedDelta>, r: Record) {
    exists d :: d in r.deltas && Trips(g, accepted, r.caseId, d)
  }

  ghost predicate GateFails(g: Gate, accepted: seq<AcceptedDelta>, records: seq<Record>) {
    exists r :: r in records && RecordTrips(g, accepted, r)
  }

  method EvaluateRecord(g: Gate, accepted: seq<AcceptedDelta>, r: Record) returns (fails: bool)
    ensures fails <==> RecordTrips(g, accepted, r)
  {
    hide IsAccepted;
    for j := 0 to |r.deltas|
      invariant forall i :: 0 <= i < j ==> !Trips(g, accepted, r.caseId, r.deltas[i])
    {
      var d := r.deltas[j];
      if d.kind == ExplanationOnly { continue; }
      if d.kind !in g.failOnKinds { continue; }
      if g.acceptance == "per-delta-identity" {
        var accept := FindAccepted(accepted, r.caseId, d);
        if accept { continue; }
      }
      if g.defaultVerdict == "pass" { continue; }
      assert Trips(g, accepted, r.caseId, d);
      return true;
    }
    return false;
  }

  method EvaluateGate(g: Gate, accepted: seq<AcceptedDelta>, records: seq<Record>) returns (v: Verdict)
    ensures v == Fail <==> GateFails(g, accepted, records)
  {
    hide RecordTrips;
    for i := 0 to |records|
      invariant forall k :: 0 <= k < i ==> !RecordTrips(g, accepted, records[k])
    {
      var fails := EvaluateRecord(g, accepted, records[i]);
      if fails {
        assert records[i] in records;
        return Fail;
      }
    }
    return Pass;
  }

  /** The first gate of the table, in table order, that fails and has a name. */
  ghost function FirstFailure(gates: seq<Gate>, accepted: seq<AcceptedDelta>, records: seq<Record>): string {
    if gates == [] then ""
    else
      var earlier := FirstFailure(gates[..|gates| - 1], accepted, records);
      var g := gates[|gates| - 1];
      if earlier == "" && GateFails(g, accepted, records) then g.id else earlier
  }

  ghost function VerdictOf(g: Gate, accepted: seq<AcceptedDelta>, records: seq<Record>): Verdict {
    if GateFails(g, accepted, records) then Fail else Pass
  }

  /** The verdicts by gate name; a later gate of the same name replaces an earlier one. */
  ghost function Table(gates: seq<Gate>, accepted: seq<AcceptedDelta>, records: seq<Record>): map<string, Verdict> {
    if gates == [] then map[]
    else
      var g := gates[|gates| - 1];
      Table(gates[..|gates| - 1], accepted, records)[g.id := VerdictOf(g, accepted, records)]
  }

  method EvaluateGates(spec: Spec, records: seq<Record>) returns (e: GateEvaluation)
    ensures e.results == Table(spec.gates, spec.accepted, records)
    ensures e.firstFailure == FirstFailure(spec.gates, spec.accepted, records)
  {
    hide GateFails;
    var results: map<string, Verdict> := map[];
    var firstFailure := "";
    for n := 0 to |spec.gates|
      invariant results == Table(spec.gates[..n], spec.accepted, records)
      invariant firstFailure == FirstFailure(spec.gates[..n], spec.accepted, records)
    {
      var g := spec.gates[n];
      var verdict := EvaluateGate(g, spec.accepted, records);
      assert spec.gates[..n + 1][..n] == spec.gates[..n];
      results := results[g.id := verdict];
      if verdict == Fail && firstFailure == "" { firstFailure := g.id; }
    }
    assert spec.gates[..|spec.gates|] == spec.gates;
    e := GateEvaluation(results, firstFailure);
  }

  /**
   A gate fails exactly when it does not pass by default and some record holds a delta of a kind it fails
   on, wording apart, that no entry of the allowlist names by case, kind, rule, subject and, if set, obligation.
   Entries count only for a gate that accepts by delta identity.
   */
  lemma {:induction false} GateFailsExactlyWhen(g: Gate, accepted: seq<AcceptedDelta>, records: seq<Record>)
    ensures GateFails(g, accepted, records) <==>
            && g.defaultVerdict != "pass"
            && exists r, d :: && r in records && d in r.deltas && d.kind != ExplanationOnly && d.kind in g.failOnKinds
                              && (g.acceptance == "per-delta-identity" ==>
                                    forall a :: a in accepted ==>
                                      || a.caseId != r.caseId || a.kind != d.kind || a.rule != d.rule
                                      || a.subject != d.subject
                                      || (a.obligation != "" && a.obligation != d.obligation))
  {
    if GateFails(g, accepted, records) {
      var r :| r in records && RecordTrips(g, accepted, r);
      var d :| d in r.deltas && Trips(g, accepted, r.caseId, d);
      assert g.acceptance == "per-delta-identity" ==> !IsAccepted(accepted, r.caseId, d);
    }
    if r, d :| && r in records && d in r.deltas && d.kind != ExplanationOnly && d.kind in g.failOnKinds
               && (g.acceptance == "per-delta-identity" ==>
                     forall a :: a in accepted ==>
                       || a.caseId != r.caseId || a.kind != d.kind || a.rule != d.rule
                       || a.subject != d.subject
                       || (a.obligation != "" && a.obligation != d.obligation))
    {
      assert g.defaultVerdict != "pass" ==> Trips(g, accepted, r.caseId, d);
      assert g.defaultVerdict != "pass" ==> RecordTrips(g, accepted, r);
    }
  }

  /** An entry for another case, kind, rule, subject or obligation than every delta on record changes no verdict. */
  lemma {:induction false} UnrelatedEntryChangesNothing(
    g: Gate, before: seq<AcceptedDelta>, a: AcceptedDelta, after: seq<AcceptedDelta>, records: seq<Record>)
    requires forall r, d :: r in records && d in r.deltas ==>
               || a.caseId != r.caseId || a.kind != d.kind || a.rule != d.rule || a.subject != d.subject
               || (a.obligation != "" && a.obligation != d.obligation)
    ensures GateFails(g, before + [a] + after, records) <==> GateFails(g, before + after, records)
  {
    var longer, shorter := before + [a] + after, before + after;
    assert forall b :: b in longer <==> b in shorter || b == a;
    forall r, d | r in records && d in r.deltas
      ensures Trips(g, longer, r.caseId, d) <==> Trips(g, shorter, r.caseId, d)
    {
      assert !Matches(a, r.caseId, d);
    }
  }

  /** The reported failure is the name of the first failing gate that has one. */
  lemma {:induction false} FirstFailureExactly(
    gates: seq<Gate>, accepted: seq<AcceptedDelta>, records: seq<Record>, id: string)
    requires id != ""
    ensures FirstFailure(gates, accepted, records) == id <==>
            exists i :: && 0 <= i < |gates| && gates[i].id == id && GateFails(gates[i], accepted, records)
                        && forall j :: 0 <= j < i && GateFails(gates[j], accepted, records) ==> gates[j].id == ""
  {
    hide GateFails;
    if gates != [] {
      var front, last := gates[..|gates| - 1], gates[|gates| - 1];
      FirstFailureExactly(front, accepted, records, id);
      PassesExactlyWhen(front, accepted, records);
      if FirstFailure(front, accepted, records) == "" {
        assert forall j :: 0 <= j < |front| ==> gates[j] in front;
      } else {
        var other := FirstFailure(front, accepted, records);
        if other != id { FirstFailureExactly(front, accepted, records, other); }
      }
    }
  }

  /** The run passes exactly when every failing gate is nameless. */
  lemma {:induction false} PassesExactlyWhen(gates: seq<Gate>, accepted: seq<AcceptedDelta>, records: seq<Record>)
    ensures FirstFailure(gates, accepted, records) == "" <==>
            forall g :: g in gates && GateFails(g, accepted, records) ==> g.id == ""
  {
    hide GateFails;
    if gates != [] {
      var front, last := gates[..|gates| - 1], gates[|gates| - 1];
      PassesExactlyWhen(front, accepted, records);
      assert gates == front + [last];
    }
  }

  /** A nameless gate fails without a trace in the exit code. */
  lemma {:induction false} NamelessGatePasses(r: Record, d: Delta)
    requires d.kind == NewlyAutoMergeable && r.deltas == [d]
    ensures var g := Gate("", [NewlyAutoMergeable], "fail", "none");
            GateFails(g, [], [r]) && FirstFailure([g], [], [r]) == ""
  {
    var g := Gate("", [NewlyAutoMergeable], "fail", "none");
    assert NewlyAutoMergeable in g.failOnKinds;
    assert Trips(g, [], r.caseId, d) && d in r.deltas;
    assert RecordTrips(g, [], r) && r in [r];
    PassesExactlyWhen([g], [], [r]);
  }

  ghost predicate NamedApart(gates: seq<Gate>) {
    && (forall i, j :: 0 <= i < j < |gates| ==> gates[i].id != gates[j].id)
    && forall g :: g in gates ==> g.id != ""
  }

  lemma {:induction false} TableHolds(gates: seq<Gate>, accepted: seq<AcceptedDelta>, records: seq<Record>)
    requires NamedApart(gates)
    ensures forall id :: id in Table(gates, accepted, records) ==> exists g :: g in gates && g.id == id
    ensures forall g :: g in gates ==>
              && g.id in Table(gates, accepted, records)
              && Table(gates, accepted, records)[g.id] == VerdictOf(g, accepted, records)
  {
    hide VerdictOf;
    if gates != [] {
      var front, last := gates[..|gates| - 1], gates[|gates| - 1];
      assert gates == front + [last];
      TableHolds(front, accepted, records);
      LastNamedApart(gates);
    }
  }

  lemma {:induction false} LastNamedApart(gates: seq<Gate>)
    requires NamedApart(gates) && gates != []
    ensures forall g :: g in gates[..|gates| - 1] ==> g.id != gates[|gates| - 1].id
  {
    var front, last := gates[..|gates| - 1], gates[|gates| - 1];
    forall g | g in front
      ensures g.id != last.id
    {
      var i :| 0 <= i < |front| && front[i] == g;
      assert gates[i] == g;
    }
  }

  ghost predicate AllPass(table: map<string, Verdict>) {
    forall id :: id in table ==> table[id] == Pass
  }

  /** With distinct, named gates the table and the first failure tell the same story. */
  lemma {:induction false} TableMatchesFirstFailure(
    gates: seq<Gate>, accepted: seq<AcceptedDelta>, records: seq<Record>)
    requires NamedApart(gates)
    ensures FirstFailure(gates, accepted, records) == "" <==> AllPass(Table(gates, accepted, records))
  {
    hide GateFails, Table, FirstFailure;
    PassesExactlyWhen(gates, accepted, records);
    TableHolds(gates, accepted, records);
    var table := Table(gates, accepted, records);
    if FirstFailure(gates, accepted, records) != "" {
      var g :| g in gates && GateFails(g, accepted, records) && g.id != "";
      assert table[g.id] != Pass;
    } else {
      forall id | id in table
        ensures table[id] == Pass
      {
        var g :| g in gates && g.id == id;
      }
    }
  }

  /** More records never help: what fails keeps failing. */
  lemma {:induction false} MoreRecordsNeverHelp(
    gates: seq<Gate>, accepted: seq<AcceptedDelta>, records: seq<Record>, more: seq<Record>)
    requires forall r :: r in records ==> r in more
    requires FirstFailure(gates, accepted, records) != ""
    ensures FirstFailure(gates, accepted, more) != ""
  {
    hide FirstFailure, RecordTrips;
    PassesExactlyWhen(gates, accepted, records);
    PassesExactlyWhen(gates, accepted, more);
    var g :| g in gates && GateFails(g, accepted, records) && g.id != "";
    var r :| r in records && RecordTrips(g, accepted, r);
    assert r in more;
  }

  /** A longer allowlist never hurts: what passes keeps passing. */
  lemma {:induction false} MoreAcceptedNeverHurts(
    gates: seq<Gate>, accepted: seq<AcceptedDelta>, more: seq<AcceptedDelta>, records: seq<Record>)
    requires forall a :: a in accepted ==> a in more
    requires FirstFailure(gates, accepted, records) == ""
    ensures FirstFailure(gates, more, records) == ""
  {
    hide FirstFailure, Matches;
    PassesExactlyWhen(gates, accepted, records);
    PassesExactlyWhen(gates, more, records);
    forall g | g in gates && GateFails(g, more, records)
      ensures g.id == ""
    {
      var r :| r in records && RecordTrips(g, more, r);
      var d :| d in r.deltas && Trips(g, more, r.caseId, d);
      assert IsAccepted(accepted, r.caseId, d) ==> IsAccepted(more, r.caseId, d);
      assert Trips(g, accepted, r.caseId, d);
      assert RecordTrips(g, accepted, r);
      assert GateFails(g, accepted, records);
    }
  }

  // ----- Exit codes -----

  const EXIT_FAIL_CLOSED := 6

  function ExitCodeForGate(id: string): int {
    if id == "zero-missed-destructive" then 1
    else if id == "zero-missed-authorization-ownership" then 2
    else if id == "no-unexpected-obligation-removal" then 3
    else if id == "bounded-auto-merge-widening" then 4
    else if id == "explicitly-accepted-deltas" then 5
    else EXIT_FAIL_CLOSED
  }

  function ExitCodeForSuiteRun(firstFailure: string): int {
    if firstFailure == "" then 0 else ExitCodeForGate(firstFailure)
  }

  /** Zero is kept for a run without a failure; each known gate has a code of its own, any other gate six. */
  lemma {:induction false} ExitCodesTellGatesApart(failed: string)
    ensures ExitCodeForSuiteRun(failed) == 0 <==> failed == ""
    ensures ExitCodeForSuiteRun(failed) == 1 <==> failed == "zero-missed-destructive"
    ensures ExitCodeForSuiteRun(failed) == 2 <==> failed == "zero-missed-authorization-ownership"
    ensures ExitCodeForSuiteRun(failed) == 3 <==> failed == "no-unexpected-obligation-removal"
    ensures ExitCodeForSuiteRun(failed) == 4 <==> failed == "bounded-auto-merge-widening"
    ensures ExitCodeForSuiteRun(failed) == 5 <==> failed == "explicitly-accepted-deltas"
    ensures 0 <= ExitCodeForSuiteRun(failed) <= 6
  {}

  // ----- The suite -----

  datatype SuiteCase = SuiteCase(caseId: string, digest: string)

  /** What the runner calls out to: digests, the bundle loader, the engine and the record schema. */
  datatype Setup<!Bundle> = Setup(
    baselineProfile: string,
    candidateProfile: string,
    digestOf: Bundle -> Option<string>,
    loads: Bundle -> bool,
    baseline: Bundle -> Option<Result>,
    candidate: Bundle -> Option<Result>,
    subjects: Bundle -> seq<string>,
    schemaAccepts: Record -> bool)

  datatype SuiteError =
    | MissingBundle | DigestUnreadable | DigestMismatch | BundleUnreadable
    | BaselineFailed | CandidateFailed | NoCaseId | NoProfileName
    | NotComparable(error: CompareError) | SchemaRejected

  datatype CaseOutcome = Recorded(record: Record) | Rejected(error: SuiteError)

  datatype SuiteOutcome = Ran(records: seq<Record>, gates: GateEvaluation) | SuiteFailed(error: SuiteError)

  /** The record of one evaluated pair of results. */
  ghost predicate Builds<B>(h: Setup<B>, caseId: string, b: Result, c: Result, subjects: seq<string>, o: CaseOutcome) {
    if caseId == "" then o == Rejected(NoCaseId)
    else if h.baselineProfile == "" || h.candidateProfile == "" then o == Rejected(NoProfileName)
    else exists deltas ::
      && Collects(b, c, subjects, deltas)
      && match deltas
         case CollectFailed(e) => o == Rejected(NotComparable(e))
         case Deltas(list) =>
           var r := Record(h.baselineProfile, h.candidateProfile, caseId, list);
           o == if h.schemaAccepts(r) then Recorded(r) else Rejected(SchemaRejected)
  }

  method BuildComparisonRecord<B>(
    h: Setup<B>, caseId: string, b: Result, c: Result, subjects: seq<string>)
    returns (o: CaseOutcome)
    ensures Builds(h, caseId, b, c, subjects, o)
  {
    hide Collects;
    if caseId == "" { return Rejected(NoCaseId); }
    if h.baselineProfile == "" || h.candidateProfile == "" { return Rejected(NoProfileName); }
    var deltas := CollectDeltas(b, c, subjects);
    match deltas {
      case CollectFailed(e) => o := Rejected(NotComparable(e));
      case Deltas(list) =>
        var r := Record(h.baselineProfile, h.candidateProfile, caseId, list);
        o := if h.schemaAccepts(r) then Recorded(r) else Rejected(SchemaRejected);
    }
  }

  /** Why a case cannot be evaluated, if it cannot. */
  function Unusable<B>(h: Setup<B>, bundles: map<string, B>, sc: SuiteCase): Option<SuiteError> {
    if sc.caseId !in bundles then Some(MissingBundle)
    else
      var raw := bundles[sc.caseId];
      if h.digestOf(raw) == None then Some(DigestUnreadable)
      else if h.digestOf(raw) != Some(sc.digest) then Some(DigestMismatch)
      else if !h.loads(raw) then Some(BundleUnreadable)
      else if h.baseline(raw) == None then Some(BaselineFailed)
      else if h.candidate(raw) == None then Some(CandidateFailed)
      else None
  }

  ghost predicate RunsCase<B>(h: Setup<B>, bundles: map<string, B>, sc: SuiteCase, o: CaseOutcome) {
    match Unusable(h, bundles, sc)
    case Some(e) => o == Rejected(e)
    case None =>
      var raw := bundles[sc.caseId];
      Builds(h, sc.caseId, h.baseline(raw).value, h.candidate(raw).value, h.subjects(raw), o)
  }

  method RunCase<B>(h: Setup<B>, bundles: map<string, B>, sc: SuiteCase) returns (o: CaseOutcome)
    ensures RunsCase(h, bundles, sc, o)
  {
    hide Builds;
    if sc.caseId !in bundles { return Rejected(MissingBundle); }
    var raw := bundles[sc.caseId];
    var digest := h.digestOf(raw);
    if digest == None { return Rejected(DigestUnreadable); }
    if digest.value != sc.digest { return Rejected(DigestMismatch); }
    if !h.loads(raw) { return Rejected(BundleUnreadable); }
    var b, c := h.baseline(raw), h.candidate(raw);
    if b == None { return Rejected(BaselineFailed); }
    if c == None { return Rejected(CandidateFailed); }
    o := BuildComparisonRecord(h, sc.caseId, b.value, c.value, h.subjects(raw));
  }

  predicate CaseLeq(a: Record, b: Record) {
    Leq(a.caseId, b.caseId)
  }

  lemma {:induction false} CaseLeqPreorder()
    ensures TotalPreorder(CaseLeq)
  {
    LeqTotalOrder();
  }

  lemma InCaseOrder(records: seq<Record>)
    requires Sorted(CaseLeq, records)
    ensures forall i, j :: 0 <= i < j < |records| ==> Leq(records[i].caseId, records[j].caseId)
  {}

  ghost predicate AllRecorded<B>(h: Setup<B>, bundles: map<string, B>, cases: seq<SuiteCase>, records: seq<Record>) {
    && |records| == |cases|
    && forall i :: 0 <= i < |cases| ==> RunsCase(h, bundles, cases[i], Recorded(records[i]))
  }

  /** The run: the records of all cases, ordered by case, and the gates over them; or the first error. */
  ghost predicate Runs<B>(h: Setup<B>, bundles: map<string, B>, cases: seq<SuiteCase>, spec: Spec, o: SuiteOutcome) {
    match o
    case Ran(records, gates) =>
      && (exists listed :: AllRecorded(h, bundles, cases, listed) && Permutation(records, listed))
      && (forall i, j :: 0 <= i < j < |records| ==> Leq(records[i].caseId, records[j].caseId))
      && gates.results == Table(spec.gates, spec.accepted, records)
      && gates.firstFailure == FirstFailure(spec.gates, spec.accepted, records)
    case SuiteFailed(e) =>
      exists i :: && 0 <= i < |cases| && RunsCase(h, bundles, cases[i], Rejected(e))
                  && RecordedBefore(h, bundles, cases, i)
  }

  ghost predicate RecordedBefore<B>(h: Setup<B>, bundles: map<string, B>, cases: seq<SuiteCase>, i: nat)
    requires i <= |cases|
  {
    exists listed :: AllRecorded(h, bundles, cases[..i], listed)
  }

  method RunSuite<B>(h: Setup<B>, bundles: map<string, B>, cases: seq<SuiteCase>, spec: Spec) returns (o: SuiteOutcome)
    ensures Runs(h, bundles, cases, spec, o)
  {
    hide RunsCase, CaseLeq, Table, FirstFailure;
    var listed: seq<Record> := [];
    for i := 0 to |cases|
      invariant AllRecorded(h, bundles, cases[..i], listed)
    {
      var r := RunCase(h, bundles, cases[i]);
      if r.Rejected? {
        assert RecordedBefore(h, bundles, cases, i);
        return SuiteFailed(r.error);
      }
      listed := listed + [r.record];
    }
    assert cases[..|cases|] == cases;
    CaseLeqPreorder();
    var records := SortBy(CaseLeq, listed);
    SortBySorted(CaseLeq, listed);
    InCaseOrder(records);
    var gates := EvaluateGates(spec, records);
    o := Ran(records, gates);
  }

  // ----- No silent promotion -----

  /** Every semantic kind is guarded by a named gate that fails by default. */
  ghost predicate GuardsEveryKind(gates: seq<Gate>) {
    && (forall g :: g in gates ==> g.id != "")
    && forall k: Kind :: k != ExplanationOnly ==> Guarded(gates, k)
  }

  ghost predicate Guarded(gates: seq<Gate>, k: Kind) {
    exists g :: g in gates && Guards(g, k)
  }

  ghost predicate Guards(g: Gate, k: Kind) {
    k in g.failOnKinds && g.defaultVerdict != "pass"
  }

  /** The same decision and the same findings, up to order and wording. */
  ghost predicate Behaves(b: Result, c: Result) {
    b.decision == c.decision && SameButWording(b.findings, c.findings)
  }

  /** The record holds differences, and none of them is a mere wording. */
  ghost predicate ChangesOnly(deltas: seq<Delta>) {
    deltas != [] && forall d :: d in deltas ==> d.kind != ExplanationOnly
  }

  lemma {:induction false} PassingRecord(spec: Spec, records: seq<Record>, r: Record, d: Delta)
    requires GuardsEveryKind(spec.gates) && FirstFailure(spec.gates, spec.accepted, records) == ""
    requires r in records && d in r.deltas && d.kind != ExplanationOnly
    ensures IsAccepted(spec.accepted, r.caseId, d)
  {
    hide FirstFailure, IsAccepted;
    PassesExactlyWhen(spec.gates, spec.accepted, records);
    assert Guarded(spec.gates, d.kind);
    var g :| g in spec.gates && Guards(g, d.kind);
    if !IsAccepted(spec.accepted, r.caseId, d) {
      TrippedGate(g, spec.accepted, records, r, d);
    }
  }

  lemma {:induction false} TrippedGate(g: Gate, accepted: seq<AcceptedDelta>, records: seq<Record>, r: Record, d: Delta)
    requires Guards(g, d.kind) && r in records && d in r.deltas && d.kind != ExplanationOnly
    requires !IsAccepted(accepted, r.caseId, d)
    ensures GateFails(g, accepted, records)
  {
    hide IsAccepted;
    assert Trips(g, accepted, r.caseId, d);
    assert RecordTrips(g, accepted, r);
  }

  lemma {:induction false} RecordMeans<B>(
    h: Setup<B>, caseId: string, b: Result, c: Result, subjects: seq<string>, r: Record)
    requires Builds(h, caseId, b, c, subjects, Recorded(r))
    ensures Collects(b, c, subjects, Deltas(r.deltas)) && h.schemaAccepts(r)
    ensures r == Record(h.baselineProfile, h.candidateProfile, caseId, r.deltas)
    ensures "" !in {h.baselineProfile, h.candidateProfile, caseId}
  {
    hide Collects;
  }

  /**
   No silent promotion: a suite run that exits with zero shows, for every case, that the candidate
   behaves as the baseline does, or that each recorded difference is individually on the allowlist.
   */
  lemma {:induction false} NoSilentPromotion<B>(
    h: Setup<B>, bundles: map<string, B>, cases: seq<SuiteCase>, spec: Spec, run: SuiteOutcome, sc: SuiteCase)
    returns (b: Result, c: Result, r: Record)
    requires Runs(h, bundles, cases, spec, run) && run.Ran? && ExitCodeForSuiteRun(run.gates.firstFailure) == 0
    requires GuardsEveryKind(spec.gates) && sc in cases
    ensures sc.caseId in bundles
    ensures var raw := bundles[sc.caseId];
            && h.digestOf(raw) == Some(sc.digest) && h.loads(raw)
            && h.baseline(raw) == Some(b) && h.candidate(raw) == Some(c)
    ensures r in run.records && h.schemaAccepts(r)
    ensures r == Record(h.baselineProfile, h.candidateProfile, sc.caseId, r.deltas)
    ensures "" !in {h.baselineProfile, h.candidateProfile, sc.caseId}
    ensures forall d :: d in r.deltas && d.kind != ExplanationOnly ==>
              exists a :: && a in spec.accepted && a.caseId == sc.caseId && a.kind == d.kind && a.rule == d.rule
                          && a.subject == d.subject && (a.obligation == "" || a.obligation == d.obligation)
    ensures b.decision == c.decision || ChangesOnly(r.deltas)
    ensures Legible(b.findings, c.findings) ==> Behaves(b, c) || ChangesOnly(r.deltas)
    ensures Legible(b.findings, c.findings) && spec.accepted == [] ==> Behaves(b, c)
  {
    hide Collects, Builds, FirstFailure, Table, SameBag, SameButWording, GuardsEveryKind, CaseLeq, Legible;
    var listed :| AllRecorded(h, bundles, cases, listed) && Permutation(run.records, listed);
    var i :| 0 <= i < |cases| && cases[i] == sc;
    PermutationMembers(run.records, listed);
    r := listed[i];
    assert r in listed;
    var raw := bundles[sc.caseId];
    b, c := h.baseline(raw).value, h.candidate(raw).value;
    RecordMeans(h, sc.caseId, b, c, h.subjects(raw), r);
    forall d | d in r.deltas && d.kind != ExplanationOnly
      ensures exists a :: && a in spec.accepted && a.caseId == sc.caseId && a.kind == d.kind && a.rule == d.rule
                          && a.subject == d.subject && (a.obligation == "" || a.obligation == d.obligation)
    {
      PassingRecord(spec, run.records, r, d);
      var a :| a in spec.accepted && Matches(a, sc.caseId, d);
    }
    if b.decision != c.decision {
      DecisionChangeIsRecorded(b, c, h.subjects(raw), r.deltas);
    } else if Legible(b.findings, c.findings) {
      SameDecisionIsWording(b, c, h.subjects(raw), r.deltas);
      IdentityBagsAreUnworded(b.findings, c.findings);
    }
    if ChangesOnly(r.deltas) {
      assert r.deltas[0] in r.deltas;
      assert spec.accepted != [];
    }
  }

  // ----- Agreeing suites pass -----

  /** What the frozen schema, its uniqueness keyword included, asks of a record beyond its shape. */
  ghost predicate SchemaFits(r: Record) {
    r.baselineProfile != "" && r.candidateProfile != "" && r.caseId != "" && DeltasFit(r.deltas)
  }

  /** Both profiles are named, and the schema takes every record that fits. */
  ghost predicate SoundSetup<B>(h: Setup<B>) {
    && h.baselineProfile != "" && h.candidateProfile != ""
    && forall r :: SchemaFits(r) ==> h.schemaAccepts(r)
  }

  /**
   A case that reaches the comparison with findings the comparator can tell apart and, where only
   their wording changed, can put on record.
   */
  ghost predicate Presentable<B>(h: Setup<B>, bundles: map<string, B>, sc: SuiteCase) {
    && Unusable(h, bundles, sc) == None && sc.caseId != ""
    && var raw := bundles[sc.caseId];
       var b, c := h.baseline(raw).value, h.candidate(raw).value;
       Tidy(b.findings) && Tidy(c.findings) && (Behaves(b, c) ==> RewordedApart(b, c) && RewordedReportable(b, c))
  }

  ghost predicate CaseBehaves<B>(h: Setup<B>, bundles: map<string, B>, sc: SuiteCase) {
    && Unusable(h, bundles, sc) == None
    && Behaves(h.baseline(bundles[sc.caseId]).value, h.candidate(bundles[sc.caseId]).value)
  }

  lemma {:induction false} BehavingCase<B>(h: Setup<B>, bundles: map<string, B>, sc: SuiteCase, o: CaseOutcome)
    requires SoundSetup(h)
    requires Presentable(h, bundles, sc) && CaseBehaves(h, bundles, sc) && RunsCase(h, bundles, sc, o)
    ensures o.Recorded? && forall d :: d in o.record.deltas ==> d.kind == ExplanationOnly
  {
    hide Collects, Tidy, SameBag, RewordedApart, RewordedReportable, DeltasFit;
    var raw := bundles[sc.caseId];
    var b, c, subjects := h.baseline(raw).value, h.candidate(raw).value, h.subjects(raw);
    assert Builds(h, sc.caseId, b, c, subjects, o);
    var deltas :| && Collects(b, c, subjects, deltas)
                  && match deltas
                     case CollectFailed(e) => o == Rejected(NotComparable(e))
                     case Deltas(list) =>
                       var r := Record(h.baselineProfile, h.candidateProfile, sc.caseId, list);
                       o == if h.schemaAccepts(r) then Recorded(r) else Rejected(SchemaRejected);
    IdentityBagsAreUnworded(b.findings, c.findings);
    AgreeingCaseIsRecorded(b, c, subjects, deltas);
    AgreeingRecordFits(b, c, subjects, deltas.list);
    assert SchemaFits(Record(h.baselineProfile, h.candidateProfile, sc.caseId, deltas.list));
    TidyPlain(b.findings);
    SameDecisionIsWording(b, c, subjects, deltas.list);
  }

  lemma {:induction false} WordingPasses(gates: seq<Gate>, accepted: seq<AcceptedDelta>, records: seq<Record>)
    requires forall r, d :: r in records && d in r.deltas ==> d.kind == ExplanationOnly
    ensures FirstFailure(gates, accepted, records) == ""
  {
    hide FirstFailure, IsAccepted;
    PassesExactlyWhen(gates, accepted, records);
    forall g | g in gates
      ensures !GateFails(g, accepted, records)
    {}
  }

  /** A suite whose cases all behave runs without error and passes every gate table. */
  lemma {:induction false} AgreeingSuitePasses<B>(
    h: Setup<B>, bundles: map<string, B>, cases: seq<SuiteCase>, spec: Spec, run: SuiteOutcome)
    requires SoundSetup(h)
    requires forall sc :: sc in cases ==> Presentable(h, bundles, sc) && CaseBehaves(h, bundles, sc)
    requires Runs(h, bundles, cases, spec, run)
    ensures run.Ran? && ExitCodeForSuiteRun(run.gates.firstFailure) == 0
  {
    hide RunsCase, Presentable, CaseBehaves, FirstFailure, Table, CaseLeq, SoundSetup;
    match run
    case SuiteFailed(e) =>
      var i :| 0 <= i < |cases| && RunsCase(h, bundles, cases[i], Rejected(e));
      assert cases[i] in cases;
      BehavingCase(h, bundles, cases[i], Rejected(e));
    case Ran(records, gates) =>
      var listed :| AllRecorded(h, bundles, cases, listed) && Permutation(records, listed);
      PermutationMembers(records, listed);
      forall r, d | r in records && d in r.deltas
        ensures d.kind == ExplanationOnly
      {
        var i :| 0 <= i < |listed| && listed[i] == r;
        assert cases[i] in cases;
        BehavingCase(h, bundles, cases[i], Recorded(r));
      }
      WordingPasses(spec.gates, spec.accepted, records);
  }

  /** With every kind guarded and nothing accepted, exit code zero means exactly that every case behaves. */
  lemma {:induction false} ExitZeroExactlyWhen<B>(
    h: Setup<B>, bundles: map<string, B>, cases: seq<SuiteCase>, spec: Spec, run: SuiteOutcome)
    requires SoundSetup(h)
    requires forall sc :: sc in cases ==> Presentable(h, bundles, sc)
    requires Runs(h, bundles, cases, spec, run) && GuardsEveryKind(spec.gates) && spec.accepted == []
    ensures run.Ran? && ExitCodeForSuiteRun(run.gates.firstFailure) == 0 <==>
            forall sc :: sc in cases ==> CaseBehaves(h, bundles, sc)
  {
    hide Runs, GuardsEveryKind, Behaves, Tidy, SoundSetup;
    if run.Ran? && ExitCodeForSuiteRun(run.gates.firstFailure) == 0 {
      forall sc | sc in cases
        ensures CaseBehaves(h, bundles, sc)
      {
        var b, c, r := NoSilentPromotion(h, bundles, cases, spec, run, sc);
        TidyPlain(b.findings);
      }
    }
    if forall sc :: sc in cases ==> CaseBehaves(h, bundles, sc) {
      AgreeingSuitePasses(h, bundles, cases, spec, run);
    }
  }
}
