/**
 What each request leaves on the forge and reports, spelled out in the fields of threads, notes, heads
 and receipts: the approve path against every script, the other paths undisturbed.
 */
module ForgeOutcomes {
  import opened Sequences
  import opened Strings
  import opened Forge
  import opened ForgeTraces
  import opened ForgeConfluence
  import Reconciler

  // ----- Receipts -----

  /** A receipt of exactly these operations, in target order, without repairs. */
  ghost predicate ReceiptFor(r: Receipt, ops: seq<Operation>) {
    && Permutation(r.operations, ops) && r.repairs == []
    && forall i, j :: 0 <= i < j < |r.operations| ==> Leq(r.operations[i].targetId, r.operations[j].targetId)
  }

  lemma {:induction false} ReceiptOfIs(ops: seq<Operation>)
    ensures ReceiptFor(ReceiptOf(ops), ops)
  {
    hide Leq;
    LeqTotalOrder();
    assert TotalPreorder(ByTarget());
    SortBySorted(ByTarget(), ops);
    var r := ReceiptOf(ops);
    forall i, j | 0 <= i < j < |r.operations|
      ensures Leq(r.operations[i].targetId, r.operations[j].targetId)
    {
      assert ByTarget()(r.operations[i], r.operations[j]);
    }
  }

  // ----- Approve and merge -----

  /** The forge as the heads read, the approval and the merge find it. */
  ghost function AtApproval(w: World, script: seq<Tick>): World {
    var a := Arrive(w, script);
    Arrive(a.(log := a.log + [HeadsRead(a.heads)]), Rest(script))
  }

  ghost function AtMerge(w: World, script: seq<Tick>): World {
    var b := AtApproval(w, script);
    Arrive(b.(nextId := b.nextId + 1, log := b.log + [Approved(b.heads)]), Rest(Rest(script)))
  }

  /** What an armed request answers: the calls that are lost, then the heads at the read and at the merge. */
  ghost predicate MergeAnswer(pins: Pins, w: World, script: seq<Tick>, out: Outcome) {
    if FaultOf(script) != Served then out == Failed(Transport)
    else if Arrive(w, script).heads != pins then out == Failed(ShaMoved)
    else if FaultOf(Rest(script)) != Served || FaultOf(Rest(Rest(script))) != Served then out == Failed(Transport)
    else if AtMerge(w, script).heads != pins then out == Failed(ShaMoved)
    else
      && out.Published?
      && ReceiptFor(out.receipt, [Operation(ApprovalOp, "note/" + Numeral(AtApproval(w, script).nextId)),
                                  Operation(MergeOp, "note/" + Numeral(AtMerge(w, script).nextId))])
  }

  lemma {:induction false} MergePath(d: Desired, pre: Preconditions, ops: seq<Operation>, w: World, script: seq<Tick>)
    requires d.merge == Some(pre.pins)
    ensures var p := Run(d, pre, Publisher(ops, CheckingHeads), w, script).publisher;
            p.preamble == ops && MergeAnswer(pre.pins, w, script, p.pc.outcome)
  {
    hide Run, Rely, ReceiptOf, ReceiptFor, Numeral, Arrive, NextThread, NextClear;
    var a := Arrive(w, script);
    Reconciler.RunStep(d, pre, Publisher(ops, CheckingHeads), w, script);
    if FaultOf(script) != Served || a.heads != pre.pins {
      FinishedRun(d, pre, script);
    } else {
      var s2 := Rest(script);
      var w2 := StepWorld(d, Publisher(ops, CheckingHeads), a, Served);
      Reconciler.RunStep(d, pre, Publisher(ops, Approving), w2, s2);
      if FaultOf(s2) != Served {
        FinishedRun(d, pre, script);
      } else {
        var b := AtApproval(w, script);
        var w3 := StepWorld(d, Publisher(ops, Approving), b, Served);
        Reconciler.RunStep(d, pre, Publisher(ops, Merging(MintId(b.nextId))), w3, Rest(s2));
        FinishedRun(d, pre, script);
        ReceiptOfIs([Operation(ApprovalOp, MintId(b.nextId)), Operation(MergeOp, MintId(AtMerge(w, script).nextId))]);
      }
    }
  }

  lemma {:induction false} FinishedRun(d: Desired, pre: Preconditions, script: seq<Tick>)
    ensures forall p: Publisher, w: World, s: seq<Tick> :: p.pc.Done? ==> Run(d, pre, p, w, s) == End(p, w, s)
  {
    hide Run;
    forall p: Publisher, w: World, s: seq<Tick> | p.pc.Done?
      ensures Run(d, pre, p, w, s) == End(p, w, s)
    {
      Reconciler.RunDone(d, pre, p, w, s);
    }
  }

  /**
   The approve path, whatever others do and whichever calls are lost: unarmed and incompletely or wrongly
   pinned requests are refused before any call; otherwise the heads found by the calls decide.
   */
  lemma {:induction false} ApproveOutcome(d: Desired, pre: Preconditions, w: World, script: seq<Tick>)
    requires d.clearSlot.None? && d.thread.None? && d.approve && d.merge.Some? && d.summary.None?
    ensures var e := Run(d, pre, Start(d, pre), w, script);
            if !pre.armEligible then e == End(Publisher([], Done(Failed(ArmingRefused))), w, script)
            else if "" in {pre.pins.source, pre.pins.target, pre.pins.digest} || d.merge.value != pre.pins then
              e == End(Publisher([], Done(Failed(IncompletePreconditions))), w, script)
            else MergeAnswer(pre.pins, w, script, e.publisher.Result())
  {
    hide Run, MergeAnswer;
    FinishedRun(d, pre, script);
    if d.merge.value == pre.pins { MergePath(d, pre, [], w, script); }
  }

  /** The summary note after an upsert: the bot's first one edited in place, or a new one at the end. */
  ghost predicate Summarises(w: World, w': World, c: Comment, id: string) {
    if exists i :: 0 <= i < |w.notes| && FirstSummary(w, i) then
      exists i :: && 0 <= i < |w.notes| && FirstSummary(w, i) && id == w.notes[i].id
                  && w' == w.(notes := w.notes[i := Note(id, c.marker, w.bot, c.body)])
    else
      && id == "note/" + Numeral(w.nextId)
      && w' == w.(notes := w.notes + [Note(id, c.marker, w.bot, c.body)], nextId := w.nextId + 1)
  }

  ghost predicate FirstSummary(w: World, i: nat) {
    && i < |w.notes| && w.notes[i].author == w.bot && w.notes[i].marker.artifact.kind == "summary-comment"
    && forall j :: 0 <= j < i ==>
         !(w.notes[j].author == w.bot && w.notes[j].marker.artifact.kind == "summary-comment")
  }

  lemma {:induction false} UpsertExactly(w: World, c: Comment)
    ensures Summarises(w, Upsert(w, c), c, SummaryId(w))
  {
    hide Numeral;
    var i := SummaryIndex(w.bot, w.notes);
    if i < |w.notes| {
      assert FirstSummary(w, i);
    } else {
      assert forall k :: 0 <= k < |w.notes| ==> !FirstSummary(w, k);
    }
  }

  /** An armed request on an unmoved forge is approved and merged, and says so. */
  lemma {:induction false} ArmedMerges(d: Desired, pre: Preconditions, w: World)
    requires Armed(d, pre) && w.heads == pre.pins && SummaryAccepted(d)
    ensures var e := Run(d, pre, Start(d, pre), w, []);
            var n := Summarised(d, w).nextId;
            && e.publisher.Result().Published?
            && ReceiptFor(e.publisher.Result().receipt,
                          SummaryOps(d, w) + [Operation(ApprovalOp, "note/" + Numeral(n)),
                                              Operation(MergeOp, "note/" + Numeral(n + 1))])
            && e.world == Summarised(d, w).(
                 nextId := n + 2,
                 log := w.log + (if d.summary.Some? then [Upserted(SummaryId(w))] else [])
                        + [HeadsRead(pre.pins), Approved(pre.pins), Merged(pre.pins, pre.pins)])
  {
    hide Run, Upsert, SummaryId, ReceiptOf, ReceiptFor, Numeral, NextThread, NextClear;
    FinishedRun(d, pre, []);
    var w1, ops := w, [];
    if d.summary.Some? {
      QuietStep(d, pre, Publisher([], ListingNotes), w);
      QuietStep(d, pre, Publisher([], Upserting), w);
      w1 := Effect(d, Upserting, w);
      ops := SummaryOps(d, w);
      assert [] + SummaryOps(d, w) == ops;
      UpsertHeads(w, d.summary.value);
    }
    MergeSteps(d, pre, ops, w1);
    var n := w1.nextId;
    var two := [Operation(ApprovalOp, MintId(n)), Operation(MergeOp, MintId(n + 1))];
    ReceiptOfIs(two);
    ReceiptOfIs(ops + ReceiptOf(two).operations);
    Regrouped(ops, ReceiptOf(two), two);
    assert ops == [] ==> ops + two == two;
  }

  /** Why an approve request on a quiet forge is refused, if it is. */
  ghost predicate RefusedBecause(d: Desired, pre: Preconditions, w: World, e: Error)
    requires d.merge.Some?
  {
    if !pre.armEligible then e == ArmingRefused
    else if "" in {pre.pins.source, pre.pins.target, pre.pins.digest} || d.merge.value != pre.pins then
      e == IncompletePreconditions
    else w.heads != pre.pins && e == ShaMoved
  }

  /** A refused approve request still updates the summary, and neither approves nor merges. */
  lemma {:induction false} RefusedMerges(d: Desired, pre: Preconditions, w: World, why: Error)
    requires d.clearSlot.None? && d.thread.None? && d.approve && d.merge.Some? && SummaryAccepted(d)
    requires RefusedBecause(d, pre, w, why)
    ensures var e := Run(d, pre, Start(d, pre), w, []);
            && e.publisher.Result() == Failed(why)
            && e.world == Summarised(d, w).(
                 log := w.log + (if d.summary.Some? then [Upserted(SummaryId(w))] else [])
                        + (if why == ShaMoved then [HeadsRead(w.heads)] else []))
  {
    hide Run, Upsert, SummaryId, ReceiptOf, Numeral, NextThread, NextClear;
    FinishedRun(d, pre, []);
    var w1, ops := w, [];
    if d.summary.Some? {
      QuietStep(d, pre, Publisher([], ListingNotes), w);
      QuietStep(d, pre, Publisher([], Upserting), w);
      w1 := Effect(d, Upserting, w);
      ops := SummaryOps(d, w);
      assert [] + SummaryOps(d, w) == ops;
      UpsertHeads(w, d.summary.value);
    }
    if why == ShaMoved { QuietStep(d, pre, Publisher(ops, CheckingHeads), w1); }
    assert w.log + [] == w.log && w1.log + [] == w1.log;
  }

  lemma UpsertHeads(w: World, c: Comment)
    ensures Upsert(w, c).heads == w.heads && Upsert(w, c).log == w.log && Upsert(w, c).bot == w.bot
  {}

  lemma {:induction false} MergeSteps(d: Desired, pre: Preconditions, ops: seq<Operation>, w: World)
    requires d.merge == Some(pre.pins) && w.heads == pre.pins
    ensures var n := w.nextId;
            Run(d, pre, Publisher(ops, CheckingHeads), w, [])
            == End(Publisher(ops, Done(Published(
                     ReceiptOf([Operation(ApprovalOp, MintId(n)), Operation(MergeOp, MintId(n + 1))])))),
                   w.(nextId := n + 2,
                      log := w.log + [HeadsRead(pre.pins), Approved(pre.pins), Merged(pre.pins, pre.pins)]), [])
  {
    hide Run, ReceiptOf, MintId, NextThread, NextClear;
    FinishedRun(d, pre, []);
    QuietStep(d, pre, Publisher(ops, CheckingHeads), w);
    var w2 := Effect(d, CheckingHeads, w);
    QuietStep(d, pre, Publisher(ops, Approving), w2);
    var w3 := Effect(d, Approving, w2);
    QuietStep(d, pre, Publisher(ops, Merging(MintId(w.nextId))), w3);
    assert w.log + [HeadsRead(pre.pins)] + [Approved(pre.pins)] + [Merged(pre.pins, pre.pins)]
        == w.log + [HeadsRead(pre.pins), Approved(pre.pins), Merged(pre.pins, pre.pins)];
  }

  lemma {:induction false} Regrouped(ops: seq<Operation>, inner: Receipt, two: seq<Operation>)
    requires ReceiptFor(inner, two) && ReceiptFor(ReceiptOf(ops + inner.operations), ops + inner.operations)
    ensures ReceiptFor(ReceiptOf(ops + inner.operations), ops + two)
  {
    hide ReceiptOf, Leq;
  }

  // ----- One thread per occurrence -----

  /** Thread `i` is the bot's, in the slot and of the occurrence of `m`. */
  ghost predicate Holds(m: Marker, w: World, i: int) {
    && 0 <= i < |w.threads| && w.threads[i].author == w.bot
    && w.threads[i].marker.slot == m.slot && w.threads[i].marker.occurrence == m.occurrence
  }

  /** Thread `i` has the lower number; of two equal ones it comes first. */
  ghost predicate Outranks(w: World, i: int, j: int)
    requires 0 <= i < |w.threads| && 0 <= j < |w.threads|
  {
    var a, b := ForgeIdNum(w.threads[i].id), ForgeIdNum(w.threads[j].id);
    a < b || (a == b && i < j)
  }

  /** The thread a reconcile keeps: of all those in place, the one that outranks the others. */
  ghost predicate Leads(m: Marker, w: World, i: int) {
    Holds(m, w, i) && forall k :: Holds(m, w, k) && k != i ==> Outranks(w, i, k)
  }

  /** A thread of the slot that is closed: of another occurrence, or in place but outranked. */
  ghost predicate Retired(m: Marker, w: World, i: int) {
    && 0 <= i < |w.threads| && w.threads[i].author == w.bot && w.threads[i].marker.slot == m.slot
    && (w.threads[i].marker.occurrence == m.occurrence ==> exists k :: Holds(m, w, k) && Outranks(w, k, i))
  }

  function HeldBy(m: Marker, bot: string): Thread -> bool {
    (t: Thread) => t.author == bot && t.marker.slot == m.slot && t.marker.occurrence == m.occurrence
  }

  /** The occupants and their positions, and which of them is canonical. */
  lemma {:induction false} OccupantPositions(m: Marker, w: World) returns (at: seq<nat>)
    ensures |at| == |Occ(m, w)|
    ensures forall k :: 0 <= k < |at| ==> Holds(m, w, at[k]) && w.threads[at[k]] == Occ(m, w)[k]
    ensures forall k, l :: 0 <= k < l < |at| ==> at[k] < at[l]
    ensures forall i :: Holds(m, w, i) ==> i in at
  {
    FilterTwice(OccupantFilter(m), BotFilter(w.bot), HeldBy(m, w.bot), w.threads);
    at := FilterPositions(HeldBy(m, w.bot), w.threads);
  }

  lemma {:induction false} CanonicalLeads(m: Marker, w: World) returns (i: int)
    requires Occ(m, w) != []
    ensures Leads(m, w, i) && w.threads[i] == Canonical(Occ(m, w))
  {
    hide ForgeIdNum;
    var at := OccupantPositions(m, w);
    var c := ArgMinFirst(NumOf(), Occ(m, w));
    i := at[c];
    forall k | Holds(m, w, k) && k != i
      ensures Outranks(w, i, k)
    {
      var l :| 0 <= l < |at| && at[l] == k;
      assert NumOf()(Occ(m, w)[l]) >= NumOf()(Occ(m, w)[c]);
    }
  }

  lemma {:induction false} StaleAre(m: Marker, w: World, i: int)
    requires Valid(w) && 0 <= i < |w.threads|
    ensures var t := w.threads[i];
            t.id in Stale(m, w) <==>
            t.author == w.bot && t.marker.slot == m.slot && t.marker.occurrence != m.occurrence && !t.resolved
  {
    hide MintId;
    var stale := Filter(StaleFilter(m), BotThreads(w));
    FilterMembers(BotFilter(w.bot), w.threads);
    FilterMembers(StaleFilter(m), BotThreads(w));
    assert forall k :: 0 <= k < |stale| ==> StaleIds(m, BotThreads(w))[k] == stale[k].id;
    if w.threads[i].id in Stale(m, w) {
      var k :| 0 <= k < |stale| && stale[k].id == w.threads[i].id;
      assert stale[k] in w.threads;
    }
    if w.threads[i] in stale {
      var k :| 0 <= k < |stale| && stale[k] == w.threads[i];
      assert StaleIds(m, BotThreads(w))[k] == w.threads[i].id;
    }
  }

  lemma {:induction false} DuplicatesAre(m: Marker, w: World, i: int, lead: int)
    requires Valid(w) && 0 <= i < |w.threads| && Leads(m, w, lead)
    ensures w.threads[i].id in Duplicates(m, w) <==> Holds(m, w, i) && i != lead
  {
    hide MintId, ForgeIdNum, Canonical, Occupants, BotThreads, DuplicateIds, IdSet;
    var at := OccupantPositions(m, w);
    var occ := Occ(m, w);
    assert lead in at;
    var l := CanonicalLeads(m, w);
    DuplicateIdsAre(occ, w.threads[i].id);
    if w.threads[i].id in Duplicates(m, w) {
      var k :| 0 <= k < |occ| && occ[k].id == w.threads[i].id;
      assert w.threads[at[k]] == occ[k];
    }
    if Holds(m, w, i) && i != lead {
      assert i in at;
      var k :| 0 <= k < |at| && at[k] == i;
      assert occ[k].id == w.threads[i].id;
    }
  }

  /** The duplicates are the occupants other than the canonical one, when there are several. */
  lemma {:induction false} DuplicateIdsAre(occ: seq<Thread>, id: string)
    ensures id in IdSet(DuplicateIds(occ)) <==>
            |occ| >= 2 && id != Canonical(occ).id && exists k :: 0 <= k < |occ| && occ[k].id == id
  {
    hide Canonical;
    if |occ| >= 2 {
      var others := Filter(OtherIdFilter(Canonical(occ).id), occ);
      FilterMembers(OtherIdFilter(Canonical(occ).id), occ);
      assert forall k :: 0 <= k < |others| ==> DuplicateIds(occ)[k] == others[k].id;
      if id in IdSet(DuplicateIds(occ)) {
        var k :| 0 <= k < |others| && others[k].id == id;
        assert others[k] in occ;
      }
      if k :| 0 <= k < |occ| && occ[k].id == id && id != Canonical(occ).id {
        assert occ[k] in others;
        var n :| 0 <= n < |others| && others[n] == occ[k];
        assert DuplicateIds(occ)[n] == id;
      }
    }
  }

  /** What a reconcile of `m` makes of the threads: the retired ones closed, a new one when none was in place. */
  ghost predicate ThreadsSettled(m: Marker, w: World, w': World) {
    && |w'.threads| == |w.threads| + (if exists i :: Holds(m, w, i) then 0 else 1)
    && (forall i :: 0 <= i < |w.threads| ==>
          w'.threads[i] == w.threads[i].(resolved := w.threads[i].resolved || Retired(m, w, i)))
    && ((forall i :: !Holds(m, w, i)) ==>
          w'.threads[|w.threads|] == Thread("note/" + Numeral(w.nextId), m, w.bot, false))
  }

  lemma {:induction false} SettledThreads(m: Marker, w: World)
    requires Valid(w)
    ensures ThreadsSettled(m, w, Settled(m, w))
    ensures Settled(m, w).notes == w.notes && Settled(m, w).heads == w.heads && Settled(m, w).bot == w.bot
  {
    hide Stale, Duplicates, Numeral, ForgeIdNum, Occupants, BotThreads;
    var at := OccupantPositions(m, w);
    if Occ(m, w) != [] { assert Holds(m, w, at[0]); }
    assert (exists i :: Holds(m, w, i)) <==> Occ(m, w) != [];
    forall i | 0 <= i < |w.threads|
      ensures Settled(m, w).threads[i] == w.threads[i].(resolved := w.threads[i].resolved || Retired(m, w, i))
    {
      StaleAre(m, w, i);
      if Occ(m, w) == [] {
        NoneDuplicate(m, w);
      } else {
        var lead := CanonicalLeads(m, w);
        DuplicatesAre(m, w, i, lead);
        if Holds(m, w, i) && i != lead { assert Outranks(w, lead, i); }
      }
    }
  }

  lemma NoneDuplicate(m: Marker, w: World)
    requires Occ(m, w) == []
    ensures Duplicates(m, w) == {}
  {}

  /** What the reconcile reports: the kept thread, and every other one in place as repaired against it. */
  ghost predicate ThreadAnswer(m: Marker, w: World, out: Outcome) {
    if forall i :: !Holds(m, w, i) then
      out == Published(Receipt([Operation(ThreadOp, "note/" + Numeral(w.nextId))], []))
    else
      exists lead :: Leads(m, w, lead) && LeadAnswer(m, w, lead, out)
  }

  ghost predicate LeadAnswer(m: Marker, w: World, lead: int, out: Outcome)
    requires Leads(m, w, lead)
  {
    if w.threads[lead].resolved && exists i :: Holds(m, w, i) && i != lead then out == Failed(RescanFailed)
    else
      && out.Published? && out.receipt.operations == [Operation(ThreadOp, w.threads[lead].id)]
      && RepairsOthers(m, w, lead, out.receipt.repairs)
  }

  /** One repair for each other thread in place, in the order of their numbers. */
  ghost predicate RepairsOthers(m: Marker, w: World, lead: int, repairs: seq<Repair>)
    requires 0 <= lead < |w.threads|
  {
    && (forall k, l :: 0 <= k < l < |repairs| ==>
          && repairs[k].repaired != repairs[l].repaired
          && ForgeIdNum(repairs[k].repaired) <= ForgeIdNum(repairs[l].repaired))
    && (forall r :: r in repairs <==>
          && r.canonical == w.threads[lead].id
          && exists i :: Holds(m, w, i) && i != lead && w.threads[i].id == r.repaired)
  }

  lemma {:induction false} RepairsAre(m: Marker, w: World, lead: int)
    requires Valid(w) && Leads(m, w, lead) && |Occ(m, w)| >= 2 && w.threads[lead] == Canonical(Occ(m, w))
    ensures RepairsOthers(m, w, lead, RepairReceipt(w.threads[lead].id, DuplicateIds(Occ(m, w))).repairs)
  {
    hide MintId, ForgeIdNum, Canonical, DuplicateIds, Occ;
    var c, ids := w.threads[lead].id, DuplicateIds(Occ(m, w));
    var listed := Map(RepairAgainst(c), ids);
    var repairs := RepairReceipt(c, ids).repairs;
    assert TotalPreorder(ByRepairedNum());
    SortBySorted(ByRepairedNum(), listed);
    PermutationMembers(repairs, listed);
    DuplicateIdsDistinct(m, w);
    PermutationDistinct(listed, repairs);
    forall k, l | 0 <= k < l < |repairs|
      ensures && repairs[k].repaired != repairs[l].repaired
              && ForgeIdNum(repairs[k].repaired) <= ForgeIdNum(repairs[l].repaired)
    {
      assert repairs[k] in listed && repairs[l] in listed;
      assert ByRepairedNum()(repairs[k], repairs[l]);
    }
    forall r: Repair
      ensures r in repairs <==>
              r.canonical == c && exists i :: Holds(m, w, i) && i != lead && w.threads[i].id == r.repaired
    {
      DuplicateNames(m, w, lead, r.repaired);
      if r.canonical == c && r.repaired in ids {
        var k :| 0 <= k < |ids| && ids[k] == r.repaired;
        assert listed[k] == r;
      }
    }
  }

  lemma {:induction false} DuplicateIdsDistinct(m: Marker, w: World)
    requires Valid(w)
    ensures Distinct(DuplicateIds(Occ(m, w)))
  {
    hide MintId, Canonical, Occ;
    OccDistinct(m, w);
    if |Occ(m, w)| >= 2 {
      FilterDistinctIds(OtherIdFilter(Canonical(Occ(m, w)).id), Occ(m, w));
    }
  }

  lemma {:induction false} DuplicateNames(m: Marker, w: World, lead: int, id: string)
    requires Valid(w) && Leads(m, w, lead)
    ensures id in DuplicateIds(Occ(m, w)) <==> exists i :: Holds(m, w, i) && i != lead && w.threads[i].id == id
  {
    hide MintId, ForgeIdNum, Canonical, Occupants, BotThreads;
    var ids := DuplicateIds(Occ(m, w));
    if id in ids {
      var k :| 0 <= k < |ids| && ids[k] == id;
      assert id in Duplicates(m, w);
      var occ := Occ(m, w);
      FilterMembers(OtherIdFilter(Canonical(occ).id), occ);
      var others := Filter(OtherIdFilter(Canonical(occ).id), occ);
      assert others[k].id == id && others[k] in occ;
      var l :| 0 <= l < |occ| && occ[l] == others[k];
      var at := OccupantPositions(m, w);
      DuplicatesAre(m, w, at[l], lead);
    }
    if i :| Holds(m, w, i) && i != lead && w.threads[i].id == id {
      DuplicatesAre(m, w, i, lead);
      var k :| 0 <= k < |ids| && ids[k] == id;
    }
  }

  lemma {:induction false} SettledAnswer(m: Marker, w: World)
    requires Valid(w)
    ensures ThreadAnswer(m, w, Verdict(m, w))
  {
    hide Numeral, ForgeIdNum, Occupants, BotThreads, Canonical, DuplicateIds, RepairsOthers;
    var at := OccupantPositions(m, w);
    var occ := Occ(m, w);
    if occ == [] {
      OneOperation(MintId(w.nextId));
    } else {
      var lead := CanonicalLeads(m, w);
      assert Holds(m, w, lead);
      OneOperation(w.threads[lead].id);
      if |occ| >= 2 {
        RepairsAre(m, w, lead);
        var k := if at[0] == lead then 1 else 0;
        assert Holds(m, w, at[k]) && at[k] != lead;
      } else {
        assert at[0] == lead;
        NoRepairs(m, w, lead);
      }
      assert LeadAnswer(m, w, lead, Verdict(m, w));
    }
  }

  lemma OneOperation(id: string)
    ensures ReceiptOf([Operation(ThreadOp, id)]) == Receipt([Operation(ThreadOp, id)], [])
  {}

  lemma NoRepairs(m: Marker, w: World, lead: int)
    requires Leads(m, w, lead) && forall i :: Holds(m, w, i) ==> i == lead
    ensures RepairsOthers(m, w, lead, [])
  {}

  /**
   An undisturbed REVIEW reconcile, spelled out: the summary note, the threads of the slot, everything else
   as it was, and the receipt.  The receipt of a run with a summary carries its operations and no repairs.
   */
  lemma {:induction false} ReviewLeaves(d: Desired, pre: Preconditions, w: World)
    requires d.thread.Some? && d.clearSlot.None? && Valid(w)
    ensures var m, e := d.thread.value.marker, Run(d, pre, Start(d, pre), w, []);
            if d.summary.None? then
              && ThreadsSettled(m, w, e.world)
              && e.world.notes == w.notes && e.world.heads == w.heads && e.world.bot == w.bot
              && ThreadAnswer(m, w, e.publisher.Result())
            else if d.summary.value.marker.artifact.kind != "summary-comment" then
              e.world == w && e.publisher.Result() == Failed(InvalidSummaryMarker)
            else
              exists v, id, inner ::
                && Summarises(w, v, d.summary.value, id)
                && ThreadsSettled(m, v, e.world)
                && e.world.notes == v.notes && e.world.heads == w.heads && e.world.bot == w.bot
                && ThreadAnswer(m, v, inner)
                && WithSummary(id, inner, e.publisher.Result())
  {
    hide Run, Settled, Verdict, Upsert, SummaryId, Summarises, ThreadsSettled, ThreadAnswer, Start;
    var m := d.thread.value.marker;
    var v := Summarised(d, w);
    QuietReview(d, pre, w);
    SummarisedValid(d, w);
    SettledThreads(m, v);
    SettledAnswer(m, v);
    var e := Run(d, pre, Start(d, pre), w, []);
    SameView(m, Settled(m, v), e.world, v);
    if d.summary.Some? && SummaryAccepted(d) {
      UpsertExactly(w, d.summary.value);
      UpsertHeads(w, d.summary.value);
      var id := SummaryId(w);
      if Verdict(m, v).Published? { ReceiptOfIs([Operation(ThreadOp, id)] + Verdict(m, v).receipt.operations); }
      assert WithSummary(id, Verdict(m, v), e.publisher.Result());
    }
  }

  /** A receipt with the summary's operation merged into those of the path. */
  ghost predicate WithSummary(id: string, inner: Outcome, out: Outcome) {
    match inner
    case Failed(e) => out == Failed(e)
    case Published(r) => out.Published? && ReceiptFor(out.receipt, [Operation(ThreadOp, id)] + r.operations)
  }

  lemma SameView(m: Marker, a: World, b: World, w: World)
    ensures Forget(a) == Forget(b) ==>
            && (ThreadsSettled(m, w, a) <==> ThreadsSettled(m, w, b))
            && a.notes == b.notes && a.heads == b.heads && a.bot == b.bot
  {}

  // ----- The numbers threads are ranked by -----

  /** What follows the last slash decides. */
  lemma {:induction false} SuffixDecides(prefix: string, tail: string)
    requires '/' !in tail
    ensures ForgeIdNum(prefix + "/" + tail) == ForgeIdNum(tail)
  {
    hide Atoi, Split;
    SplitLast(prefix, tail, '/');
  }

  ghost predicate AllDigits(s: string) {
    s != "" && forall i :: 0 <= i < |s| ==> '0' <= s[i] <= '9'
  }

  /** The text is a decimal number, signed or not. */
  ghost predicate Spells(text: string, n: int) {
    || (AllDigits(text) && n == NumeralValue(text))
    || (text != "" && text[0] == '+' && AllDigits(text[1..]) && n == NumeralValue(text[1..]))
    || (text != "" && text[0] == '-' && AllDigits(text[1..]) && n + NumeralValue(text[1..]) == 0)
  }

  /** A suffix that spells a 64-bit number ranks by it; every other id ranks last. */
  lemma {:induction false} SuffixRanks(tail: string, n: int)
    requires '/' !in tail
    ensures Spells(tail, n) && -0x8000_0000_0000_0000 <= n < 0x8000_0000_0000_0000 ==> ForgeIdNum(tail) == n
    ensures (forall k :: Spells(tail, k) ==> !(-0x8000_0000_0000_0000 <= k < 0x8000_0000_0000_0000)) ==>
            ForgeIdNum(tail) == 0x7FFF_FFFF_FFFF_FFFF
  {
    hide Split, NumeralValue;
    SplitLast("", tail, '/');
    var signed := tail != [] && (tail[0] == '-' || tail[0] == '+');
    var digits := if signed then tail[1..] else tail;
    assert AllDigits(digits) <==> IsNumeral(digits);
    assert signed ==> !AllDigits(tail);
    if Atoi(tail).Some? { assert Spells(tail, Atoi(tail).value); }
  }

  // ----- Clearing a slot -----

  /** Thread `i` is the bot's and in the slot. */
  ghost predicate InSlot(s: Slot, w: World, i: int) {
    0 <= i < |w.threads| && w.threads[i].author == w.bot && w.threads[i].marker.slot == s
  }

  ghost predicate OpenIn(s: Slot, w: World, i: int) {
    InSlot(s, w, i) && !w.threads[i].resolved
  }

  /**
   What clearing a slot does and answers: the only open thread is closed, several are an error, none open
   confirms the slot's first thread, and an empty slot is no such request.
   */
  ghost predicate Clears(s: Slot, w: World, w': World, out: Outcome) {
    if exists i, j :: OpenIn(s, w, i) && OpenIn(s, w, j) && i != j then
      w'.threads == w.threads && out == Failed(DuplicateOpenThreads)
    else if exists i :: OpenIn(s, w, i) then
      exists i :: && OpenIn(s, w, i) && w'.threads == w.threads[i := w.threads[i].(resolved := true)]
                  && out == Published(Receipt([Operation(ThreadOp, w.threads[i].id)], []))
    else if exists i :: InSlot(s, w, i) then
      exists i :: && InSlot(s, w, i) && (forall j :: InSlot(s, w, j) ==> i <= j) && w'.threads == w.threads
                  && out == Published(Receipt([Operation(ThreadOp, w.threads[i].id)], []))
    else
      w'.threads == w.threads && out == Failed(UnsupportedDecision)
  }

  function SlotFilter(s: Slot): Thread -> bool { (t: Thread) => t.marker.slot == s }

  function BotSlotFilter(s: Slot, bot: string): Thread -> bool {
    (t: Thread) => t.author == bot && t.marker.slot == s
  }

  function BotOpenFilter(s: Slot, bot: string): Thread -> bool {
    (t: Thread) => t.author == bot && t.marker.slot == s && !t.resolved
  }

  lemma {:induction false} FirstInSlotIs(s: Slot, ts: seq<Thread>)
    requires SlotHas(s, ts)
    ensures Filter(SlotFilter(s), ts) != [] && FirstInSlot(s, ts) == Filter(SlotFilter(s), ts)[0]
  {
    if ts[0].marker.slot != s {
      assert forall t :: t in ts ==> t == ts[0] || t in ts[1..];
      FirstInSlotIs(s, ts[1..]);
    }
  }

  lemma {:induction false} OpenPositions(s: Slot, w: World) returns (at: seq<nat>)
    ensures |at| == |Filter(OpenInSlotFilter(s), BotThreads(w))|
    ensures forall k :: 0 <= k < |at| ==>
              OpenIn(s, w, at[k]) && w.threads[at[k]] == Filter(OpenInSlotFilter(s), BotThreads(w))[k]
    ensures forall k, l :: 0 <= k < l < |at| ==> at[k] < at[l]
    ensures forall i :: OpenIn(s, w, i) ==> i in at
    ensures (forall i :: !OpenIn(s, w, i)) ==> at == []
  {
    FilterTwice(OpenInSlotFilter(s), BotFilter(w.bot), BotOpenFilter(s, w.bot), w.threads);
    at := FilterPositions(BotOpenFilter(s, w.bot), w.threads);
    assert at != [] ==> OpenIn(s, w, at[0]);
  }

  lemma {:induction false} FirstPosition(s: Slot, w: World) returns (i: int)
    ensures SlotHas(s, BotThreads(w)) <==> exists j :: InSlot(s, w, j)
    ensures SlotHas(s, BotThreads(w)) ==>
            && InSlot(s, w, i) && (forall j :: InSlot(s, w, j) ==> i <= j)
            && w.threads[i] == FirstInSlot(s, BotThreads(w))
  {
    FilterMembers(BotFilter(w.bot), w.threads);
    FilterTwice(SlotFilter(s), BotFilter(w.bot), BotSlotFilter(s, w.bot), w.threads);
    var at := FilterPositions(BotSlotFilter(s, w.bot), w.threads);
    i := 0;
    if SlotHas(s, BotThreads(w)) {
      FirstInSlotIs(s, BotThreads(w));
      i := at[0];
      assert InSlot(s, w, i);
    }
    if j :| InSlot(s, w, j) {
      assert w.threads[j] in BotThreads(w);
    }
  }

  lemma {:induction false} ClearOnly(d: Desired, pre: Preconditions, ops: seq<Operation>, w: World, i: int)
    requires d.clearSlot.Some? && Valid(w)
    requires OpenIn(d.clearSlot.value, w, i) && forall j :: OpenIn(d.clearSlot.value, w, j) ==> j == i
    ensures var e := Run(d, pre, Publisher(ops, ClearResolving(w.threads[i].id)), w, []);
            && e.publisher == Publisher(ops, Done(Published(Receipt([Operation(ThreadOp, w.threads[i].id)], []))))
            && e.world.threads == w.threads[i := w.threads[i].(resolved := true)]
            && e.world.notes == w.notes && e.world.heads == w.heads
  {
    hide Run, ReceiptOf, MintId, BotThreads, NextThread, NextMerge;
    var s, id := d.clearSlot.value, w.threads[i].id;
    FinishedRun(d, pre, []);
    QuietStep(d, pre, Publisher(ops, ClearResolving(id)), w);
    var w2 := ResolveOne(w, id);
    QuietStep(d, pre, Publisher(ops, ClearRescanning(id)), w2);
    var left := OpenPositions(s, w2);
    assert w2.threads == w.threads[i := w.threads[i].(resolved := true)];
    assert forall j :: OpenIn(s, w2, j) ==> OpenIn(s, w, j) && j != i;
    OneOperation(id);
  }

  lemma {:induction false} ClearNone(d: Desired, pre: Preconditions, ops: seq<Operation>, w: World, id: string)
    requires d.clearSlot.Some? && forall j :: !OpenIn(d.clearSlot.value, w, j)
    ensures var e := Run(d, pre, Publisher(ops, ClearRescanning(id)), w, []);
            && e.publisher == Publisher(ops, Done(Published(Receipt([Operation(ThreadOp, id)], []))))
            && e.world.threads == w.threads && e.world.notes == w.notes && e.world.heads == w.heads
  {
    hide Run, ReceiptOf, BotThreads, NextThread, NextMerge;
    FinishedRun(d, pre, []);
    QuietStep(d, pre, Publisher(ops, ClearRescanning(id)), w);
    var left := OpenPositions(d.clearSlot.value, w);
    OneOperation(id);
  }

  lemma {:induction false} ClearPath(d: Desired, pre: Preconditions, ops: seq<Operation>, w: World)
    requires d.clearSlot.Some? && Valid(w)
    ensures var e := Run(d, pre, Publisher(ops, ClearListing), w, []);
            && e.publisher.preamble == ops && Clears(d.clearSlot.value, w, e.world, e.publisher.pc.outcome)
            && e.world.notes == w.notes && e.world.heads == w.heads
  {
    hide Run, ReceiptOf, MintId, BotThreads, FirstInSlot, SlotHas, Filter, NextThread, NextMerge;
    var s := d.clearSlot.value;
    FinishedRun(d, pre, []);
    QuietStep(d, pre, Publisher(ops, ClearListing), w);
    var at := OpenPositions(s, w);
    var first := FirstPosition(s, w);
    var w1 := Effect(d, ClearListing, w);
    assert forall i :: OpenIn(s, w1, i) == OpenIn(s, w, i);
    if |at| >= 2 {
      assert OpenIn(s, w, at[0]) && OpenIn(s, w, at[1]);
    } else if |at| == 1 {
      ClearOnly(d, pre, ops, w1, at[0]);
    } else if SlotHas(s, BotThreads(w)) {
      ClearNone(d, pre, ops, w1, w.threads[first].id);
    }
  }
  /** An undisturbed CLEAR, spelled out, the summary note included. */
  lemma {:induction false} ClearLeaves(d: Desired, pre: Preconditions, w: World)
    requires d.clearSlot.Some? && Valid(w)
    ensures var s, e := d.clearSlot.value, Run(d, pre, Start(d, pre), w, []);
            if d.summary.None? then
              && Clears(s, w, e.world, e.publisher.Result()) && e.world.notes == w.notes && e.world.heads == w.heads
            else if d.summary.value.marker.artifact.kind != "summary-comment" then
              e.world == w && e.publisher.Result() == Failed(InvalidSummaryMarker)
            else
              exists v, id, inner ::
                && Summarises(w, v, d.summary.value, id)
                && Clears(s, v, e.world, inner) && e.world.notes == v.notes && e.world.heads == w.heads
                && WithSummary(id, inner, e.publisher.Result())
  {
    hide Run, Upsert, SummaryId, Summarises, Clears, ReceiptOf;
    FinishedRun(d, pre, []);
    if d.summary.None? {
      ClearPath(d, pre, [], w);
    } else {
      QuietStep(d, pre, Publisher([], ListingNotes), w);
      if SummaryAccepted(d) {
        QuietStep(d, pre, Publisher([], Upserting), w);
        var v, w1, id := Summarised(d, w), Effect(d, Upserting, w), SummaryId(w);
        SummarisedValid(d, w);
        assert Valid(w1);
        assert [] + SummaryOps(d, w) == SummaryOps(d, w);
        ClearPath(d, pre, SummaryOps(d, w), w1);
        UpsertExactly(w, d.summary.value);
        UpsertHeads(w, d.summary.value);
        var e := Run(d, pre, Start(d, pre), w, []);
        var inner := e.publisher.pc.outcome;
        SameClears(d.clearSlot.value, v, w1, e.world, inner);
        if inner.Published? { ReceiptOfIs([Operation(ThreadOp, id)] + inner.receipt.operations); }
        assert WithSummary(id, inner, e.publisher.Result());
      }
    }
  }

  lemma {:induction false} SameClears(s: Slot, v: World, w: World, w': World, out: Outcome)
    requires Forget(v) == Forget(w) && Clears(s, w, w', out)
    ensures Clears(s, v, w', out)
  {
    assert forall i :: InSlot(s, v, i) == InSlot(s, w, i);
    assert forall i :: OpenIn(s, v, i) == OpenIn(s, w, i);
  }

  /** The forge as the second and the third call of a clear find it. */
  ghost function AtSecond(w: World, script: seq<Tick>): World {
    var a := Arrive(w, script);
    Arrive(a.(log := a.log + [Listed(BotThreads(a))]), Rest(script))
  }

  ghost function AtThird(w: World, script: seq<Tick>, id: string): World {
    Arrive(ResolveOne(AtSecond(w, script), id), Rest(Rest(script)))
  }

  /** What the confirming listing answers. */
  ghost predicate Confirms(s: Slot, w: World, fault: Fault, id: string, out: Outcome) {
    if fault != Served then out == Failed(Transport)
    else if exists i :: OpenIn(s, w, i) then out == Failed(RescanFailed)
    else out == Published(Receipt([Operation(ThreadOp, id)], []))
  }

  /** What a clear answers, whatever others do and whichever calls are lost. */
  ghost predicate ClearAnswer(s: Slot, w: World, script: seq<Tick>, out: Outcome) {
    var a := Arrive(w, script);
    if FaultOf(script) != Served then out == Failed(Transport)
    else if exists i, j :: OpenIn(s, a, i) && OpenIn(s, a, j) && i != j then out == Failed(DuplicateOpenThreads)
    else if exists i :: OpenIn(s, a, i) then
      exists i :: && OpenIn(s, a, i)
                  && if FaultOf(Rest(script)) != Served then out == Failed(Transport)
                     else Confirms(s, AtThird(w, script, a.threads[i].id), FaultOf(Rest(Rest(script))),
                                   a.threads[i].id, out)
    else if exists i :: InSlot(s, a, i) then
      exists i :: && InSlot(s, a, i) && (forall j :: InSlot(s, a, j) ==> i <= j)
                  && Confirms(s, AtSecond(w, script), FaultOf(Rest(script)), a.threads[i].id, out)
    else out == Failed(UnsupportedDecision)
  }

  lemma {:induction false} ConfirmStep(
    d: Desired, pre: Preconditions, ops: seq<Operation>, w: World, script: seq<Tick>, id: string)
    requires d.clearSlot.Some?
    ensures var p := Run(d, pre, Publisher(ops, ClearRescanning(id)), w, script).publisher;
            p.preamble == ops && Confirms(d.clearSlot.value, Arrive(w, script), FaultOf(script), id, p.pc.outcome)
  {
    hide Run, ReceiptOf, BotThreads, Arrive, Rely, NextThread, NextMerge;
    var a, s := Arrive(w, script), d.clearSlot.value;
    FinishedRun(d, pre, script);
    Reconciler.RunStep(d, pre, Publisher(ops, ClearRescanning(id)), w, script);
    var left := OpenPositions(s, a);
    OneOperation(id);
    assert (exists i :: OpenIn(s, a, i)) <==> left != [];
  }

  lemma {:induction false} ClearSteps(d: Desired, pre: Preconditions, ops: seq<Operation>, w: World, script: seq<Tick>)
    requires d.clearSlot.Some?
    ensures var p := Run(d, pre, Publisher(ops, ClearListing), w, script).publisher;
            p.preamble == ops && ClearAnswer(d.clearSlot.value, w, script, p.pc.outcome)
  {
    hide Run, ReceiptOf, BotThreads, Arrive, Rely, NextThread, NextMerge, Filter, SlotHas, FirstInSlot, Confirms;
    var a, s := Arrive(w, script), d.clearSlot.value;
    FinishedRun(d, pre, script);
    Reconciler.RunStep(d, pre, Publisher(ops, ClearListing), w, script);
    if FaultOf(script) == Served {
      var at := OpenPositions(s, a);
      var first := FirstPosition(s, a);
      var w2, s2 := StepWorld(d, Publisher(ops, ClearListing), a, Served), Rest(script);
      if |at| >= 2 {
        assert OpenIn(s, a, at[0]) && OpenIn(s, a, at[1]);
      } else if |at| == 1 {
        var id := a.threads[at[0]].id;
        assert OpenIn(s, a, at[0]) && forall i :: OpenIn(s, a, i) ==> i == at[0];
        Reconciler.RunStep(d, pre, Publisher(ops, ClearResolving(id)), w2, s2);
        ConfirmStep(d, pre, ops, ResolveOne(AtSecond(w, script), id), Rest(s2), id);
      } else if SlotHas(s, BotThreads(a)) {
        ConfirmStep(d, pre, ops, w2, s2, a.threads[first].id);
      }
    }
  }

  /** Clearing a slot, against every script. */
  lemma {:induction false} ClearOutcome(d: Desired, pre: Preconditions, w: World, script: seq<Tick>)
    requires d.clearSlot.Some? && d.summary.None?
    ensures ClearAnswer(d.clearSlot.value, w, script, Run(d, pre, Start(d, pre), w, script).publisher.Result())
  {
    hide Run, ClearAnswer;
    ClearSteps(d, pre, [], w, script);
  }

  /** A request that asks for nothing the forge can show is refused before any call, its summary included. */
  lemma {:induction false} UnsupportedRefused(d: Desired, pre: Preconditions, w: World, script: seq<Tick>)
    requires d.clearSlot.None? && d.thread.None? && !(d.approve && d.merge.Some?)
    ensures Run(d, pre, Start(d, pre), w, script) == End(Publisher([], Done(Failed(UnsupportedDecision))), w, script)
  {
    hide Run;
    FinishedRun(d, pre, script);
  }

  // ----- The rescan -----

  ghost predicate Occupant(m: Marker, ts: seq<Thread>, i: int) {
    0 <= i < |ts| && ts[i].marker.slot == m.slot && ts[i].marker.occurrence == m.occurrence
  }

  /**
   A rescan is clean exactly when no other occurrence of the slot is open and, for a thread found resolved,
   that thread is still alone and resolved; otherwise exactly one thread of the occurrence is open.
   */
  lemma {:induction false} RescanExactlyWhen(ts: seq<Thread>, m: Marker, mode: Mode)
    ensures RescanAccepts(ts, m, mode) <==>
            && (forall i :: 0 <= i < |ts| && ts[i].marker.slot == m.slot && !ts[i].resolved ==>
                  ts[i].marker.occurrence == m.occurrence)
            && if mode == PreserveResolved then
                 exists i :: Occupant(m, ts, i) && ts[i].resolved && forall j :: Occupant(m, ts, j) ==> j == i
               else
                 exists i :: && Occupant(m, ts, i) && !ts[i].resolved
                             && forall j :: Occupant(m, ts, j) && !ts[j].resolved ==> j == i
  {
    hide Filter, Occupants, RescanAccepts;
    RescanIs(ts, m, mode);
    var keep := if mode == PreserveResolved then OccupantFilter(m) else OpenOccupantFilter(m);
    var stale := FilterPositions(StaleFilter(m), ts);
    assert stale != [] ==> IsStale(m, ts[stale[0]]);
    assert forall i :: 0 <= i < |ts| ==> (StaleFilter(m)(ts[i]) <==> IsStale(m, ts[i]));
    assert forall i :: 0 <= i < |ts| ==>
        (keep(ts[i]) <==> Occupant(m, ts, i) && (mode != PreserveResolved ==> !ts[i].resolved));
    if |Filter(keep, ts)| == 1 {
      var i := PositionOfOnly(keep, ts);
      assert keep(ts[i]);
    }
    if i :| 0 <= i < |ts| && keep(ts[i]) && forall j :: 0 <= j < |ts| && keep(ts[j]) ==> j == i {
      OnlyPosition(keep, ts, i);
    }
  }

  lemma {:induction false} RescanIs(ts: seq<Thread>, m: Marker, mode: Mode)
    ensures var keep := if mode == PreserveResolved then OccupantFilter(m) else OpenOccupantFilter(m);
            RescanAccepts(ts, m, mode) <==>
            && Filter(StaleFilter(m), ts) == [] && |Filter(keep, ts)| == 1
            && (mode == PreserveResolved ==> Filter(keep, ts)[0].resolved)
  {
    FilterTwice(OpenFilter(), OccupantFilter(m), OpenOccupantFilter(m), ts);
  }

  function OpenOccupantFilter(m: Marker): Thread -> bool {
    (t: Thread) => t.marker.slot == m.slot && t.marker.occurrence == m.occurrence && !t.resolved
  }

  // ----- What a created thread says -----

  /** Every thread from position `k` on was created with the requested text. */
  ghost predicate Worded(d: Desired, w: World, k: nat)
    requires d.thread.Some?
  {
    forall i :: k <= i < |w.threads| ==> PostedAs(w.log, w.threads[i].id, d.thread.value.body)
  }

  ghost predicate PostedAs(log: seq<Event>, id: string, body: string) {
    exists e :: e in log && e.Created? && e.thread.id == id && e.body == body
  }

  lemma {:induction false} EffectWorded(d: Desired, pc: Pc, w: World, k: nat)
    requires Fits(d, pc) && !pc.Done? && d.thread.Some? && k <= |w.threads| && Worded(d, w, k)
    ensures Worded(d, Effect(d, pc, w), k) && k <= |Effect(d, pc, w).threads|
  {
    hide MintId, SummaryId, SummaryIndex, BotThreads;
    var w', body := Effect(d, pc, w), d.thread.value.body;
    assert w.log <= w'.log;
    assert forall e :: e in w.log ==> e in w'.log;
    forall i | k <= i < |w'.threads|
      ensures PostedAs(w'.log, w'.threads[i].id, body)
    {
      if i < |w.threads| {
        assert w'.threads[i].id == w.threads[i].id && PostedAs(w.log, w.threads[i].id, body);
      } else {
        assert w'.log[|w.log|] in w'.log;
      }
    }
  }

  /** A thread that was not there before carries the requested text. */
  lemma {:induction false} CreatedWorded(d: Desired, pre: Preconditions, p: Publisher, w: World, k: nat)
    requires Fits(d, p.pc) && d.thread.Some? && k <= |w.threads| && Worded(d, w, k)
    ensures Worded(d, Run(d, pre, p, w, []).world, k)
    decreases Stage(p.pc), Todo(p.pc)
  {
    hide Worded, Run, Next, Effect;
    if p.pc.Done? {
      FinishedRun(d, pre, []);
    } else {
      QuietStep(d, pre, p, w);
      EffectWorded(d, p.pc, w, k);
      CreatedWorded(d, pre, Next(d, pre, p, w), Effect(d, p.pc, w), k);
    }
  }
}
