/** Reconcile, step by step over the port, proved equal to a run of the publisher machine. */
module Reconciler {
  import opened Sequences
  import opened Forge
  import opened ForgePort

  /** The port is where a run that ends in `e` would be with `pc` still to do. */
  ghost predicate At(f: Port, d: Desired, pre: Preconditions, preamble: seq<Operation>, pc: Pc, e: End)
    reads f
  {
    Fits(d, pc) && e == Run(d, pre, Publisher(preamble, pc), f.State(), f.script)
  }

  /** The run is over: its outcome is `out` and the forge is as it left it. */
  ghost predicate EndsAs(f: Port, e: End, preamble: seq<Operation>, out: Outcome)
    reads f
  {
    e == End(Publisher(preamble, Done(out)), f.State(), f.script)
  }

  lemma {:induction false} RunStep(d: Desired, pre: Preconditions, p: Publisher, w: World, script: seq<Tick>)
    requires Fits(d, p.pc) && !p.pc.Done?
    ensures var found := Arrive(w, script);
            Run(d, pre, p, w, script)
            == Run(d, pre, StepPublisher(d, pre, p, found, FaultOf(script)),
                   StepWorld(d, p, found, FaultOf(script)), Rest(script))
  {
    hide Arrive, StepPublisher, StepWorld, Fits;
  }

  lemma RunDone(d: Desired, pre: Preconditions, p: Publisher, w: World, script: seq<Tick>)
    requires p.pc.Done?
    ensures Run(d, pre, p, w, script) == End(p, w, script)
  {}

  lemma {:induction false} StaleIdsUnfold(m: Marker, ts: seq<Thread>, i: nat)
    requires i < |ts|
    ensures StaleIds(m, ts[i..]) == (if IsStale(m, ts[i]) then [ts[i].id] else []) + StaleIds(m, ts[i + 1..])
  {
    assert ts[i..][1..] == ts[i + 1..];
  }

  /** The occupants of the desired slot and occurrence, collected in listing order. */
  method CollectOccupants(m: Marker, existing: seq<Thread>) returns (occupants: seq<Thread>)
    ensures occupants == Occupants(m, existing)
  {
    occupants := [];
    for i := 0 to |existing|
      invariant occupants == Occupants(m, existing[..i])
    {
      FilterSnoc(OccupantFilter(m), existing, i);
      if Occupies(m, existing[i]) { occupants := occupants + [existing[i]]; }
    }
    assert existing[..|existing|] == existing;
  }

  /** The filter for open threads overwrites the front of the very buffer it reads. */
  method VerifyThreadRescan(ts: seq<Thread>, m: Marker, mode: Mode) returns (ok: bool)
    ensures ok == RescanAccepts(ts, m, mode)
  {
    hide Occupies, IsStale;
    var stale := false;
    for i := 0 to |ts|
      invariant stale <==> Filter(StaleFilter(m), ts[..i]) != []
    {
      FilterSnoc(StaleFilter(m), ts, i);
      if IsStale(m, ts[i]) { stale := true; }
    }
    assert ts[..|ts|] == ts;
    if stale { return false; }

    var found := CollectOccupants(m, ts);
    var buffer := new Thread[|found|](i requires 0 <= i < |found| => found[i]);
    var open := CompactOpen(buffer, found);
    match mode {
      case PreserveResolved => ok := buffer.Length == 1 && buffer[0].resolved;
      case OpenMode => ok := open == 1;
      case RepairMode => ok := open == 1;
    }
  }

  /** Moves the open threads to the front in place; a lone resolved thread is not disturbed. */
  method CompactOpen(buffer: array<Thread>, ghost found: seq<Thread>) returns (open: nat)
    requires buffer[..] == found
    modifies buffer
    ensures open == |Filter(OpenFilter(), found)| <= buffer.Length
    ensures buffer[..open] == Filter(OpenFilter(), found)
    ensures buffer.Length == 1 ==> buffer[0] == found[0]
  {
    open := 0;
    for i := 0 to buffer.Length
      invariant open <= i
      invariant buffer[..open] == Filter(OpenFilter(), found[..i])
      invariant buffer[i..] == found[i..]
      invariant buffer.Length == 1 ==> buffer[0] == found[0]
    {
      FilterSnoc(OpenFilter(), found, i);
      var t := buffer[i];
      assert t == found[i] && buffer[i + 1..] == found[i + 1..];
      if !t.resolved {
        buffer[open] := t;
        open := open + 1;
      }
    }
    assert found[..buffer.Length] == found;
  }

  /** Keeps the numerically lowest id, resolves every other occupant, reports the repairs in id order. */
  method RepairDuplicates(
    f: Port, d: Desired, ghost pre: Preconditions, ghost preamble: seq<Operation>, occupants: seq<Thread>, ghost e: End)
    returns (r: Answer<Receipt>)
    requires d.thread.Some? && |occupants| >= 2
    requires At(f, d, pre, preamble, StartRepair(Canonical(occupants).id, DuplicateIds(occupants), []), e)
    modifies f
    ensures r.Reply? ==> At(f, d, pre, preamble, Rescanning(RepairMode, r.value), e)
    ensures r.Reply? ==> r.value == RepairReceipt(Canonical(occupants).id, DuplicateIds(occupants))
    ensures r.Lost? ==> EndsAs(f, e, preamble, Failed(Transport))
  {
    hide ForgeIdNum, Rely, ArgMin, RepairReceipt, Run, Fits;
    var canonical := FindCanonical(occupants);
    var repaired: seq<string> := [];
    ghost var others := OtherIdFilter(canonical.id);
    assert occupants[0..] == occupants;
    for i := 0 to |occupants|
      invariant DuplicateIds(occupants) == repaired + Map(IdOf(), Filter(others, occupants[i..]))
      invariant At(f, d, pre, preamble,
                   StartRepair(canonical.id, Map(IdOf(), Filter(others, occupants[i..])), repaired), e)
    {
      var t := occupants[i];
      assert occupants[i..][1..] == occupants[i + 1..];
      if t.id == canonical.id { continue; }
      ghost var rest := Map(IdOf(), Filter(others, occupants[i + 1..]));
      assert Map(IdOf(), Filter(others, occupants[i..])) == [t.id] + rest;
      var ok := RepairOne(f, d, pre, preamble, canonical.id, t.id, rest, repaired, e);
      if !ok { return Lost; }
      repaired := repaired + [t.id];
    }
    assert occupants[|occupants|..] == [];
    assert repaired + Map(IdOf(), Filter(others, [])) == repaired;
    r := Reply(RepairReceipt(canonical.id, repaired));
  }

  method FindCanonical(occupants: seq<Thread>) returns (canonical: Thread)
    requires |occupants| > 0
    ensures canonical == Canonical(occupants)
  {
    hide ForgeIdNum;
    canonical := occupants[0];
    for i := 1 to |occupants|
      invariant canonical == ArgMin(NumOf(), occupants[..i])
    {
      assert occupants[..i + 1][..i] == occupants[..i];
      if ForgeIdNum(occupants[i].id) < ForgeIdNum(canonical.id) { canonical := occupants[i]; }
    }
    assert occupants[..|occupants|] == occupants;
  }

  method RepairOne(
    f: Port, d: Desired, ghost pre: Preconditions, ghost preamble: seq<Operation>,
    ghost canonical: string, id: string, ghost rest: seq<string>, ghost repaired: seq<string>, ghost e: End)
    returns (ok: bool)
    requires d.thread.Some?
    requires At(f, d, pre, preamble, StartRepair(canonical, [id] + rest, repaired), e)
    modifies f
    ensures ok ==> At(f, d, pre, preamble, StartRepair(canonical, rest, repaired + [id]), e)
    ensures !ok ==> EndsAs(f, e, preamble, Failed(Transport))
  {
    hide Rely, RepairReceipt, Run;
    RunStep(d, pre, Publisher(preamble, Repairing(canonical, [id] + rest, repaired)), f.State(), f.script);
    var a := f.ResolveThread(id);
    if a.Lost? {
      RunDone(d, pre, Publisher(preamble, Done(Failed(Transport))), f.State(), f.script);
    }
    ok := a.Reply?;
    assert ([id] + rest)[1..] == rest;
  }

  /** One resolvable thread for the slot: supersede, then create, keep or repair, then rescan. */
  method ReconcileThread(f: Port, d: Desired, ghost pre: Preconditions, ghost preamble: seq<Operation>, ghost e: End)
    returns (out: Outcome)
    requires d.thread.Some?
    requires At(f, d, pre, preamble, Listing, e)
    modifies f
    ensures EndsAs(f, e, preamble, out)
  {
    hide Rely, BotThreads, Run, ReceiptOf, RepairReceipt, Canonical, DuplicateIds, MintId, StaleIds, Occupants;
    var m := d.thread.value.marker;
    RunStep(d, pre, Publisher(preamble, Listing), f.State(), f.script);
    var listed := f.ListBotThreads();
    if listed.Lost? {
      RunDone(d, pre, Publisher(preamble, Done(Failed(Transport))), f.State(), f.script);
      return Failed(Transport);
    }
    var existing := listed.value;
    assert existing[0..] == existing;
    var resolved := Supersede(f, d, pre, preamble, existing, e);
    if !resolved { return Failed(Transport); }
    var occupants := CollectOccupants(m, existing);
    var receipt: Receipt, mode: Mode;
    if |occupants| >= 2 {
      var repaired := RepairDuplicates(f, d, pre, preamble, occupants, e);
      if repaired.Lost? { return Failed(Transport); }
      receipt, mode := repaired.value, RepairMode;
    } else if |occupants| == 1 {
      receipt := ReceiptOf([Operation(ThreadOp, occupants[0].id)]);
      mode := if occupants[0].resolved then PreserveResolved else OpenMode;
    } else {
      RunStep(d, pre, Publisher(preamble, Creating), f.State(), f.script);
      var created := f.CreateThread(m, d.thread.value.body);
      if created.Lost? {
        RunDone(d, pre, Publisher(preamble, Done(Failed(Transport))), f.State(), f.script);
        return Failed(Transport);
      }
      receipt, mode := ReceiptOf([Operation(ThreadOp, created.value.id)]), OpenMode;
    }
    out := RescanThread(f, d, pre, preamble, mode, receipt, e);
  }

  /** Resolves every open thread of the slot that belongs to another occurrence. */
  method Supersede(
    f: Port, d: Desired, ghost pre: Preconditions, ghost preamble: seq<Operation>, existing: seq<Thread>, ghost e: End)
    returns (ok: bool)
    requires d.thread.Some?
    requires var m := d.thread.value.marker;
             At(f, d, pre, preamble, StartSupersede(m, existing, StaleIds(m, existing)), e)
    modifies f
    ensures ok ==> At(f, d, pre, preamble, AfterSupersede(d.thread.value.marker, existing), e)
    ensures !ok ==> EndsAs(f, e, preamble, Failed(Transport))
  {
    hide Rely, BotThreads, AfterSupersede, Run;
    var m := d.thread.value.marker;
    assert existing[0..] == existing;
    for i := 0 to |existing|
      invariant At(f, d, pre, preamble, StartSupersede(m, existing, StaleIds(m, existing[i..])), e)
    {
      StaleIdsUnfold(m, existing, i);
      var t := existing[i];
      if t.marker.slot != m.slot || t.marker.occurrence == m.occurrence || t.resolved { continue; }
      ghost var todo := StaleIds(m, existing[i..]);
      RunStep(d, pre, Publisher(preamble, Superseding(existing, todo)), f.State(), f.script);
      var a := f.ResolveThread(t.id);
      if a.Lost? {
        RunDone(d, pre, Publisher(preamble, Done(Failed(Transport))), f.State(), f.script);
        return false;
      }
      assert todo[1..] == StaleIds(m, existing[i + 1..]);
    }
    ok := true;
  }

  method RescanThread(
    f: Port, d: Desired, ghost pre: Preconditions, ghost preamble: seq<Operation>,
    mode: Mode, receipt: Receipt, ghost e: End)
    returns (out: Outcome)
    requires d.thread.Some?
    requires At(f, d, pre, preamble, Rescanning(mode, receipt), e)
    modifies f
    ensures EndsAs(f, e, preamble, out)
  {
    hide RescanAccepts, BotThreads, Rely;
    RunStep(d, pre, Publisher(preamble, Rescanning(mode, receipt)), f.State(), f.script);
    var listed := f.ListBotThreads();
    if listed.Lost? { return Failed(Transport); }
    var ok := VerifyThreadRescan(listed.value, d.thread.value.marker, mode);
    out := if ok then Published(receipt) else Failed(RescanFailed);
  }

  /** Approve and compare-and-swap merge, after the arming, pin and heads gates. */
  method ReconcileApproveMerge(f: Port, d: Desired, pre: Preconditions, ghost preamble: seq<Operation>, ghost e: End)
    returns (out: Outcome)
    requires d.clearSlot.None? && d.thread.None? && d.approve && d.merge.Some?
    requires At(f, d, pre, preamble, PathStart(d, pre), e)
    modifies f
    ensures EndsAs(f, e, preamble, out)
  {
    hide Rely, ReceiptOf, MintId, NextThread, NextClear;
    if !pre.armEligible { return Failed(ArmingRefused); }
    if !pre.CompleteForMerge() { return Failed(IncompletePreconditions); }
    var m := d.merge.value;
    if m.source != pre.pins.source || m.target != pre.pins.target || m.digest != pre.pins.digest {
      return Failed(IncompletePreconditions);
    }
    RunStep(d, pre, Publisher(preamble, CheckingHeads), f.State(), f.script);
    var current := f.CurrentHeads();
    if current.Lost? { return Failed(Transport); }
    var h := current.value;
    if h.source != m.source || h.target != m.target || h.digest != m.digest { return Failed(ShaMoved); }
    RunStep(d, pre, Publisher(preamble, Approving), f.State(), f.script);
    var approval := f.Approve();
    if approval.Lost? { return Failed(Transport); }
    RunStep(d, pre, Publisher(preamble, Merging(approval.value)), f.State(), f.script);
    var merge := f.MergeCAS(m);
    match merge {
      case MergeLost => out := Failed(Transport);
      case HeadsMoved => out := Failed(ShaMoved);
      case MergedAs(id) =>
        out := Published(ReceiptOf([Operation(ApprovalOp, approval.value), Operation(MergeOp, id)]));
    }
  }

  lemma {:induction false} OpenInSlotSnoc(s: Slot, ts: seq<Thread>, i: nat)
    requires i < |ts|
    ensures Filter(OpenInSlotFilter(s), ts[..i + 1])
         == Filter(OpenInSlotFilter(s), ts[..i]) + if ts[i].marker.slot == s && !ts[i].resolved then [ts[i]] else []
  {
    FilterSnoc(OpenInSlotFilter(s), ts, i);
  }

  method CollectOpenInSlot(s: Slot, ts: seq<Thread>) returns (open: seq<Thread>)
    ensures open == Filter(OpenInSlotFilter(s), ts)
  {
    open := [];
    for i := 0 to |ts|
      invariant open == Filter(OpenInSlotFilter(s), ts[..i])
    {
      OpenInSlotSnoc(s, ts, i);
      if ts[i].marker.slot == s && !ts[i].resolved { open := open + [ts[i]]; }
    }
    assert ts[..|ts|] == ts;
  }

  /** Resolves the one open thread of a slot whose finding no longer fires. */
  method ReconcileClearSlot(f: Port, d: Desired, ghost pre: Preconditions, ghost preamble: seq<Operation>, ghost e: End)
    returns (out: Outcome)
    requires d.clearSlot.Some?
    requires At(f, d, pre, preamble, ClearListing, e)
    modifies f
    ensures EndsAs(f, e, preamble, out)
  {
    hide Rely, Filter, BotThreads, SlotHas, FirstInSlot;
    var slot := d.clearSlot.value;
    RunStep(d, pre, Publisher(preamble, ClearListing), f.State(), f.script);
    var listed := f.ListBotThreads();
    if listed.Lost? { return Failed(Transport); }
    var open := CollectOpenInSlot(slot, listed.value);
    if |open| > 1 { return Failed(DuplicateOpenThreads); }
    if |open| == 1 {
      out := ResolveCleared(f, d, pre, preamble, open[0].id, e);
    } else if SlotHas(slot, listed.value) {
      out := RescanCleared(f, d, pre, preamble, FirstInSlot(slot, listed.value).id, e);
    } else {
      out := Failed(UnsupportedDecision);
    }
  }

  method ResolveCleared(
    f: Port, d: Desired, ghost pre: Preconditions, ghost preamble: seq<Operation>, target: string, ghost e: End)
    returns (out: Outcome)
    requires d.clearSlot.Some?
    requires At(f, d, pre, preamble, ClearResolving(target), e)
    modifies f
    ensures EndsAs(f, e, preamble, out)
  {
    hide Rely;
    RunStep(d, pre, Publisher(preamble, ClearResolving(target)), f.State(), f.script);
    var a := f.ResolveThread(target);
    if a.Lost? { return Failed(Transport); }
    out := RescanCleared(f, d, pre, preamble, target, e);
  }

  method RescanCleared(
    f: Port, d: Desired, ghost pre: Preconditions, ghost preamble: seq<Operation>, target: string, ghost e: End)
    returns (out: Outcome)
    requires d.clearSlot.Some?
    requires At(f, d, pre, preamble, ClearRescanning(target), e)
    modifies f
    ensures EndsAs(f, e, preamble, out)
  {
    hide Rely, Filter, BotThreads;
    RunStep(d, pre, Publisher(preamble, ClearRescanning(target)), f.State(), f.script);
    var again := f.ListBotThreads();
    if again.Lost? { return Failed(Transport); }
    var left := CollectOpenInSlot(d.clearSlot.value, again.value);
    out := if left == [] then Published(ReceiptOf([Operation(ThreadOp, target)])) else Failed(RescanFailed);
  }

  /** The single write entry point: it does what one run of the publisher machine does. */
  method Reconcile(f: Port, d: Desired, pre: Preconditions) returns (out: Outcome)
    modifies f
    ensures var e := Run(d, pre, Start(d, pre), old(f.State()), old(f.script));
            out == e.publisher.Result() && f.State() == e.world && f.script == e.script
  {
    hide Rely;
    ghost var e := Run(d, pre, Start(d, pre), f.State(), f.script);
    if !Supported(d) { return Failed(UnsupportedDecision); }
    var preamble: seq<Operation> := [];
    if d.summary.Some? {
      RunStep(d, pre, Publisher([], ListingNotes), f.State(), f.script);
      var notes := f.ListBotNotes();
      if notes.Lost? { return Failed(Transport); }
      if d.summary.value.marker.artifact.kind != "summary-comment" { return Failed(InvalidSummaryMarker); }
      RunStep(d, pre, Publisher([], Upserting), f.State(), f.script);
      var note := f.UpsertComment(d.summary.value);
      if note.Lost? { return Failed(Transport); }
      preamble := [Operation(ThreadOp, note.value)];
      assert [] + preamble == preamble;
    }
    var last := ReconcilePath(f, d, pre, preamble, e);
    match last {
      case Failed(error) => out := Failed(error);
      case Published(r) => out := Published(if preamble == [] then r else ReceiptOf(preamble + r.operations));
    }
  }

  method ReconcilePath(f: Port, d: Desired, pre: Preconditions, ghost preamble: seq<Operation>, ghost e: End)
    returns (out: Outcome)
    requires Supported(d)
    requires At(f, d, pre, preamble, PathStart(d, pre), e)
    modifies f
    ensures EndsAs(f, e, preamble, out)
  {
    if d.clearSlot.Some? {
      out := ReconcileClearSlot(f, d, pre, preamble, e);
    } else if d.thread.Some? {
      out := ReconcileThread(f, d, pre, preamble, e);
    } else {
      out := ReconcileApproveMerge(f, d, pre, preamble, e);
    }
  }
}
