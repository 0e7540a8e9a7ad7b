/** From policy to merge: what a merge on the forge says about the request that was decided. */
module EndToEnd {
  import opened Decider
  import opened EngineApprove
  import opened EngineOutcomes
  import opened Forge
  import opened RunPath

  /** Every condition under which the engine approves the request. */
  ghost predicate Earned(q: Request) {
    && q.subjectClass != RESERVED_POLICY_CLASS && !q.opaqueSet && q.ctx.changes != [] && q.ctx.require != []
    && !MatchErrorIn(Normalized(q), q.rules)
    && Vouched(Normalized(q), q.rules)
  }

  /**
   Whatever others do to the forge during the run, a merge in its log means that the policy vouches
   for every change of the request, that the record was emitted first, and that the merge took
   exactly the evaluated heads.
   */
  lemma {:induction false} MergeMeansVouched(
    q: Request, out: DecideOutcome, x: Inputs, w: World, script: seq<Tick>, i: nat)
    requires DecideSpec(q, out) && out.Decided? && x.result.decision == out.result.decision
    requires i < |RunLog(x, w, script)| && RunLog(x, w, script)[i].Merged?
    ensures Earned(q) && !x.fork && x.probeArmEligible && x.factsFresh
    ensures RunLog(x, w, script)[0] == Emitted(x.record)
    ensures RunLog(x, w, script)[i] == Merged(x.evaluated, x.evaluated)
  {
    hide DecideSpec, RunLog, Vouched;
    RunSafety(x, w, script);
    ApproveExactlyWhen(q, out);
  }

  /** A request the policy does not vouch for is never approved or merged, whatever happens around the run. */
  lemma {:induction false} UnvouchedNeverMerges(
    q: Request, out: DecideOutcome, x: Inputs, w: World, script: seq<Tick>, i: nat)
    requires DecideSpec(q, out) && out.Decided? && x.result.decision == out.result.decision && !Earned(q)
    requires i < |RunLog(x, w, script)|
    ensures !RunLog(x, w, script)[i].Merged? && !RunLog(x, w, script)[i].Approved?
  {
    hide DecideSpec, RunLog, Vouched;
    RunSafety(x, w, script);
    ApproveExactlyWhen(q, out);
  }

  /** The converse: a vouched request, armed, fresh and not from a fork, is merged by an undisturbed run. */
  lemma {:induction false} VouchedMerges(q: Request, out: DecideOutcome, x: Inputs, w: World)
    requires DecideSpec(q, out) && out.Decided? && x.result.decision == out.result.decision && Earned(q)
    requires x.recordValid && x.emitWorks && !x.fork && x.probeArmEligible && x.factsFresh
    requires "" !in {x.evaluated.source, x.evaluated.target, x.evaluated.digest} && w.heads == x.evaluated
    ensures exists id :: RunLog(x, w, []) == [Emitted(x.record), Upserted(id), HeadsRead(x.evaluated),
                                              Approved(x.evaluated), Merged(x.evaluated, x.evaluated)]
  {
    hide DecideSpec, Vouched, RunEnd, RunAnswer, HasSummary;
    ApproveExactlyWhen(q, out);
    ApproveRunEnds(x, w);
    var p := x.evaluated;
    var id :| RunEnd(x, w, []).log
           == w.log + [Emitted(x.record), Upserted(id)] + [HeadsRead(p), Approved(p), Merged(p, p)];
  }

  /** A merge request that touches the policy itself is recorded as blocked and changes nothing on the forge. */
  lemma {:induction false} PolicyEditWritesNothing(
    q: Request, out: DecideOutcome, x: Inputs, w: World, script: seq<Tick>, i: nat)
    requires DecideSpec(q, out) && q.subjectClass == "assent-policy" && out == Decided(x.result)
    requires i < |RunLog(x, w, script)|
    ensures RunLog(x, w, script)[i] == Emitted(x.record)
  {
    hide DecideSpec, RunLog;
    GuardsAnswer(q, out);
    assert x.result.findings[0].code == SELF_EDIT_CODE;
    RunLogIs(x, w, script);
  }
}
