/**
 The tail of a run: validate the record, emit it, and only then let Reconcile touch the forge,
 behind the self-edit and fork guards.
 */
module RunPath {
  import opened Sequences
  import opened Strings
  import opened Findings
  import opened Forge
  import opened ForgePort
  import opened ForgeTraces
  import opened ForgeConfluence
  import opened ForgeOutcomes
  import Reconciler

  const SELF_EDIT_CODE := "assent-policy.self-edit"

  /** What the run knows once the engine has decided. */
  datatype Inputs = Inputs(
    result: Result,
    record: string,
    recordValid: bool,
    emitWorks: bool,
    fork: bool,
    probeArmEligible: bool,
    factsFresh: bool,
    evaluated: Pins,
    project: string,
    mr: string,
    subject: string,
    occurrence: string,
    decisionDigest: string,
    summaryBody: string,
    threadBody: string)

  datatype RunError = InvalidRecord | EmitFailed

  datatype RunOutcome = Aborted(error: RunError) | NoWrites | Reconciled(outcome: Outcome)

  predicate HasSelfEdit(fs: seq<Finding>) {
    exists i :: 0 <= i < |fs| && fs[i].code == SELF_EDIT_CODE
  }

  /** A BLOCK caused by an edit of the policy itself; such a run writes nothing. */
  method ReservedSelfEditBlock(r: Result) returns (b: bool)
    ensures b <==> r.decision == Block && HasSelfEdit(r.findings)
  {
    if r.decision != Block { return false; }
    for i := 0 to |r.findings|
      invariant forall j :: 0 <= j < i ==> r.findings[j].code != SELF_EDIT_CODE
    {
      if r.findings[i].code == SELF_EDIT_CODE { return true; }
    }
    return false;
  }

  /** The effect and rule of the first finding, or the undecidable placeholder. */
  function DrivingFinding(r: Result): (string, string) {
    if r.findings == [] then (EFFECT_REQUIRE_REVIEW, "aggregate.changeset")
    else (r.findings[0].effect, r.findings[0].rule)
  }

  function SummaryComment(x: Inputs): Comment {
    Comment(
      Marker(Slot(x.project, x.mr, "assent/summary", EFFECT_COMMENT, ""), x.decisionDigest, x.decisionDigest,
             Artifact("summary-comment", "v1alpha1")),
      x.summaryBody)
  }

  function ArmEligible(x: Inputs): bool {
    x.probeArmEligible && (x.result.decision == Approve ==> x.factsFresh)
  }

  /** Decision to forge intent: APPROVE asks for a pinned merge, anything else for one thread. */
  function BuildDesired(x: Inputs): (Desired, Preconditions) {
    if x.result.decision == Approve then
      (Desired(None, None, true, Some(x.evaluated), Some(SummaryComment(x))),
       Preconditions(ArmEligible(x), x.evaluated))
    else
      var (effect, rule) := DrivingFinding(x.result);
      var marker := Marker(Slot(x.project, x.mr, rule, effect, x.subject), x.occurrence, x.decisionDigest,
                           Artifact("finding-thread", "v1alpha1"));
      (Desired(Some(Comment(marker, x.threadBody)), None, false, None, Some(SummaryComment(x))),
       Preconditions(false, Pins("", "", "")))
  }

  /** The run reaches Reconcile. */
  ghost predicate Reconciles(x: Inputs) {
    && x.recordValid && x.emitWorks && !x.fork
    && !(x.result.decision == Block && HasSelfEdit(x.result.findings))
  }

  ghost function EmittedWorld(x: Inputs, w: World): World {
    w.(log := w.log + [Emitted(x.record)])
  }

  /** The forge and the log after the run. */
  ghost function RunEnd(x: Inputs, w: World, script: seq<Tick>): World {
    if !x.recordValid || !x.emitWorks then w
    else if !Reconciles(x) then EmittedWorld(x, w)
    else
      var (d, pre) := BuildDesired(x);
      Run(d, pre, Start(d, pre), EmittedWorld(x, w), script).world
  }

  /** What the reconcile of the run answers. */
  ghost function RunAnswer(x: Inputs, w: World, script: seq<Tick>): Outcome {
    var (d, pre) := BuildDesired(x);
    Run(d, pre, Start(d, pre), EmittedWorld(x, w), script).publisher.Result()
  }

  method Orchestrate(f: Port, x: Inputs) returns (out: RunOutcome)
    modifies f
    ensures f.State() == RunEnd(x, old(f.State()), old(f.script))
    ensures out == Aborted(InvalidRecord) <==> !x.recordValid
    ensures out == Aborted(EmitFailed) <==> x.recordValid && !x.emitWorks
    ensures out.Reconciled? <==> Reconciles(x)
    ensures out.Reconciled? ==> out.outcome == RunAnswer(x, old(f.State()), old(f.script))
  {
    hide Run, Start;
    if !x.recordValid { return Aborted(InvalidRecord); }
    if !x.emitWorks { return Aborted(EmitFailed); }
    f.log := f.log + [Emitted(x.record)];
    var selfEdit := ReservedSelfEditBlock(x.result);
    if selfEdit || x.fork { return NoWrites; }
    var (d, pre) := BuildDesired(x);
    var outcome := Reconciler.Reconcile(f, d, pre);
    out := Reconciled(outcome);
  }

  /** Events that change the forge. */
  predicate IsWrite(e: Event) {
    e.Resolved? || e.Created? || e.Upserted? || e.Approved? || e.Merged?
  }

  ghost function RunLog(x: Inputs, w: World, script: seq<Tick>): seq<Event> {
    var log := RunEnd(x, w, script).log;
    if |log| < |w.log| then [] else log[|w.log|..]
  }

  lemma {:induction false} RunLogIs(x: Inputs, w: World, script: seq<Tick>)
    ensures RunLog(x, w, script) ==
      if !x.recordValid || !x.emitWorks then []
      else if !Reconciles(x) then [Emitted(x.record)]
      else var (d, pre) := BuildDesired(x); [Emitted(x.record)] + Written(d, pre, EmittedWorld(x, w), script)
  {
    hide Run, Start, Reconciles;
    if x.recordValid && x.emitWorks && Reconciles(x) {
      var (d, pre) := BuildDesired(x);
      var w1 := EmittedWorld(x, w);
      LogGrows(d, pre, w1, script);
      var log := Run(d, pre, Start(d, pre), w1, script).world.log;
      assert log[..|w1.log|] == w1.log;
      assert log[|w.log|..] == [Emitted(x.record)] + log[|w1.log|..];
    }
  }

  lemma {:induction false} LogGrows(d: Desired, pre: Preconditions, w: World, script: seq<Tick>)
    ensures w.log <= Run(d, pre, Start(d, pre), w, script).world.log
  {
    hide Run;
    assert NoMergeEvents([]) by { NothingMerges(); }
    var t, k := MergeInvRun(d, pre, Start(d, pre), w, script, w.log, [], 0);
  }

  /** Approvals and merges in `s` are the armed, fresh, non-fork ones of the evaluated heads. */
  ghost predicate ApprovalsEarned(x: Inputs, s: seq<Event>) {
    && (forall i :: 0 <= i < |s| && (s[i].Approved? || s[i].Merged?) ==>
          x.result.decision == Approve && x.probeArmEligible && x.factsFresh && !x.fork)
    && (forall i :: 0 <= i < |s| && s[i].Merged? ==>
          s[i] == Merged(x.evaluated, x.evaluated) && i == |s| - 1 && i > 0 && s[i - 1].Approved?)
  }

  lemma {:induction false} ReconcileEarns(x: Inputs, w: World, script: seq<Tick>)
    requires Reconciles(x)
    ensures var (d, pre) := BuildDesired(x); ApprovalsEarned(x, Written(d, pre, w, script))
  {
    hide Run, Start, Written, HasSelfEdit;
    var (d, pre) := BuildDesired(x);
    MergeSafety(d, pre, w, script);
    var t := Written(d, pre, w, script);
    if Armed(d, pre) {
      assert x.result.decision == Approve;
    } else {
      assert forall i :: 0 <= i < |t| ==> !IsMergeEvent(t[i]);
    }
  }

  lemma {:induction false} EarnedAfter(x: Inputs, e: Event, t: seq<Event>)
    requires ApprovalsEarned(x, t) && e.Emitted?
    ensures ApprovalsEarned(x, [e] + t)
  {
    var s := [e] + t;
    assert forall i :: 0 < i < |s| ==> s[i] == t[i - 1];
  }

  /**
   Run-level safety, whatever others do to the forge meanwhile: no write without a valid record
   emitted before it; no write at all from a fork or a policy self-edit; and a merge means an
   APPROVE that the probe armed with fresh facts, of exactly the evaluated heads.
   */
  lemma {:induction false} RunSafety(x: Inputs, w: World, script: seq<Tick>)
    ensures var s := RunLog(x, w, script);
            && ApprovalsEarned(x, s)
            && (forall i :: 0 <= i < |s| && IsWrite(s[i]) ==> Reconciles(x) && i > 0 && s[0] == Emitted(x.record))
  {
    hide Run, Start, Written, Reconciles, ApprovalsEarned, BuildDesired, RunLog;
    RunLogIs(x, w, script);
    NothingEarned(x);
    EarnedAfter(x, Emitted(x.record), []);
    assert [Emitted(x.record)] + [] == [Emitted(x.record)];
    if x.recordValid && x.emitWorks && Reconciles(x) {
      var (d, pre) := BuildDesired(x);
      ReconcileEarns(x, EmittedWorld(x, w), script);
      EarnedAfter(x, Emitted(x.record), Written(d, pre, EmittedWorld(x, w), script));
    }
  }

  lemma NothingEarned(x: Inputs)
    ensures ApprovalsEarned(x, [])
  {}

  // ----- What an undisturbed run publishes -----

  /** The summary note of the run, in full. */
  ghost predicate IsSummaryNote(x: Inputs, w: World, n: Note) {
    && n.author == w.bot && n.body == x.summaryBody
    && n.marker == Marker(Slot(x.project, x.mr, "assent/summary", "comment", ""), x.decisionDigest, x.decisionDigest,
                          Artifact("summary-comment", "v1alpha1"))
  }

  /** `v` is `w` with this run's summary: the bot's first summary note rewritten, or one more note. */
  ghost predicate HasSummary(x: Inputs, w: World, v: World) {
    && v.threads == w.threads && v.heads == w.heads && v.bot == w.bot && v.log == w.log
    && exists i :: && 0 <= i < |v.notes| && IsSummaryNote(x, w, v.notes[i])
                   && if i < |w.notes|
                      then FirstSummary(w, i) && v.nextId == w.nextId && v.notes == w.notes[i := v.notes[i]]
                      else v.nextId == w.nextId + 1 && v.notes == w.notes + [v.notes[i]]
                           && forall k :: !FirstSummary(w, k)
  }

  lemma {:induction false} SummaryWritten(x: Inputs, w: World, v: World, c: Comment, id: string)
    requires Summarises(w, v, c, id) && c.body == x.summaryBody
    requires c.marker == Marker(Slot(x.project, x.mr, "assent/summary", "comment", ""), x.decisionDigest,
                                x.decisionDigest, Artifact("summary-comment", "v1alpha1"))
    ensures HasSummary(x, w, v) && v.bot == w.bot
  {
    hide Numeral;
    if i :| 0 <= i < |w.notes| && FirstSummary(w, i) {
      var k :| && 0 <= k < |w.notes| && FirstSummary(w, k) && id == w.notes[k].id
               && v == w.(notes := w.notes[k := Note(id, c.marker, w.bot, c.body)]);
      assert IsSummaryNote(x, w, v.notes[k]);
    } else {
      assert IsSummaryNote(x, w, v.notes[|w.notes|]);
    }
  }

  /** The slot a run that does not approve speaks in: the first finding's, or the placeholder's. */
  ghost function ReportedSlot(x: Inputs): Slot {
    if x.result.findings == [] then Slot(x.project, x.mr, "aggregate.changeset", "require-review", x.subject)
    else Slot(x.project, x.mr, x.result.findings[0].rule, x.result.findings[0].effect, x.subject)
  }

  /**
   A REVIEW or BLOCK run on a quiet forge writes its summary and leaves the bot's thread for the judged
   content in the slot of its first finding: the one it found, or a new one with the rendered text.
   */
  lemma {:induction false} ReviewRunPublishes(x: Inputs, w: World)
    requires Reconciles(x) && x.result.decision != Approve && Valid(w)
    ensures var m := Marker(ReportedSlot(x), x.occurrence, x.decisionDigest, Artifact("finding-thread", "v1alpha1"));
            var w' := RunEnd(x, w, []);
            && (exists i :: Holds(m, w', i))
            && (forall i :: |w.threads| <= i < |w'.threads| ==> PostedAs(w'.log, w'.threads[i].id, x.threadBody))
            && exists v, id, inner ::
                 && HasSummary(x, EmittedWorld(x, w), v)
                 && ThreadsSettled(m, v, w') && w'.notes == v.notes && w'.heads == w.heads && w'.bot == w.bot
                 && ThreadAnswer(m, v, inner) && WithSummary(id, inner, RunAnswer(x, w, []))
  {
    hide Run, Start, Summarises, ThreadsSettled, ThreadAnswer, WithSummary, HasSummary, HasSelfEdit;
    var (d, pre) := BuildDesired(x);
    var m := d.thread.value.marker;
    var w1 := EmittedWorld(x, w);
    var w' := RunEnd(x, w, []);
    ReviewLeaves(d, pre, w1);
    CreatedWorded(d, pre, Start(d, pre), w1, |w.threads|);
    var v, id, inner :|
      && Summarises(w1, v, d.summary.value, id)
      && ThreadsSettled(m, v, w') && w'.notes == v.notes && w'.heads == w1.heads && w'.bot == w1.bot
      && ThreadAnswer(m, v, inner)
      && WithSummary(id, inner, RunAnswer(x, w, []));
    SummaryWritten(x, w1, v, d.summary.value, id);
    SettledHolds(m, v, w');
    assert m == Marker(ReportedSlot(x), x.occurrence, x.decisionDigest, Artifact("finding-thread", "v1alpha1"));
    assert Worded(d, w', |w.threads|);
  }

  lemma {:induction false} SettledHolds(m: Marker, v: World, w: World)
    requires ThreadsSettled(m, v, w) && w.bot == v.bot
    ensures exists i :: Holds(m, w, i)
  {
    if i :| Holds(m, v, i) {
      assert Holds(m, w, i);
    } else {
      assert Holds(m, w, |v.threads|);
    }
  }

  /**
   An APPROVE run on a quiet forge: armed, with fresh facts and unmoved, complete heads it merges exactly
   the evaluated heads; otherwise it writes its summary and nothing else, and says why.
   */
  lemma {:induction false} ApproveRunEnds(x: Inputs, w: World)
    requires Reconciles(x) && x.result.decision == Approve
    ensures exists v, id ::
              && HasSummary(x, EmittedWorld(x, w), v)
              && var w', answer := RunEnd(x, w, []), RunAnswer(x, w, []);
                 var start := w.log + [Emitted(x.record), Upserted(id)];
                 if !x.probeArmEligible || !x.factsFresh then
                   answer == Failed(ArmingRefused) && w' == v.(log := start)
                 else if "" in {x.evaluated.source, x.evaluated.target, x.evaluated.digest} then
                   answer == Failed(IncompletePreconditions) && w' == v.(log := start)
                 else if w.heads != x.evaluated then
                   answer == Failed(ShaMoved) && w' == v.(log := start + [HeadsRead(w.heads)])
                 else
                   && answer.Published?
                   && ReceiptFor(answer.receipt, [Operation(ThreadOp, id),
                                                  Operation(ApprovalOp, "note/" + Numeral(v.nextId)),
                                                  Operation(MergeOp, "note/" + Numeral(v.nextId + 1))])
                   && w' == v.(nextId := v.nextId + 2,
                               log := start + [HeadsRead(x.evaluated), Approved(x.evaluated),
                                               Merged(x.evaluated, x.evaluated)])
  {
    hide Run, Start, Summarises, HasSummary, HasSelfEdit, ReceiptFor, Numeral, Upsert, SummaryId;
    var (d, pre) := BuildDesired(x);
    var w1 := EmittedWorld(x, w);
    var v, id := Summarised(d, w1), SummaryId(w1);
    UpsertExactly(w1, d.summary.value);
    SummaryWritten(x, w1, v, d.summary.value, id);
    assert w1.log + [Upserted(id)] == w.log + [Emitted(x.record), Upserted(id)];
    assert w1.log + [Upserted(id)] + [] == w1.log + [Upserted(id)];
    if !x.probeArmEligible || !x.factsFresh {
      RefusedMerges(d, pre, w1, ArmingRefused);
    } else if "" in {x.evaluated.source, x.evaluated.target, x.evaluated.digest} {
      RefusedMerges(d, pre, w1, IncompletePreconditions);
    } else if w.heads != x.evaluated {
      RefusedMerges(d, pre, w1, ShaMoved);
    } else {
      ArmedMerges(d, pre, w1);
      var n := v.nextId;
      var two := [Operation(ApprovalOp, "note/" + Numeral(n)), Operation(MergeOp, "note/" + Numeral(n + 1))];
      assert SummaryOps(d, w1) + two == [Operation(ThreadOp, id), two[0], two[1]];
    }
  }
}
