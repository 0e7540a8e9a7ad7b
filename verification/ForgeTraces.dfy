/**
 What a publisher's own log can look like, whatever others do to the forge around its calls
 and whichever calls are lost.
 */
module ForgeTraces {
  import opened Sequences
  import opened Forge

  function Emits(d: Desired, pc: Pc, w: World): seq<Event>
    requires Fits(d, pc) && !pc.Done?
  {
    match pc
    case ListingNotes => []
    case Upserting => [Upserted(SummaryId(w))]
    case Listing => [Listed(BotThreads(w))]
    case Superseding(_, todo) => [Resolved(todo[0])]
    case Creating => [Created(Thread(MintId(w.nextId), d.thread.value.marker, w.bot, false), d.thread.value.body)]
    case Repairing(_, todo, _) => [Resolved(todo[0])]
    case Rescanning(_, _) => [Listed(BotThreads(w))]
    case ClearListing => [Listed(BotThreads(w))]
    case ClearResolving(id) => [Resolved(id)]
    case ClearRescanning(_) => [Listed(BotThreads(w))]
    case CheckingHeads => [HeadsRead(w.heads)]
    case Approving => [Approved(w.heads)]
    case Merging(_) => if w.heads == d.merge.value then [Merged(d.merge.value, w.heads)] else []
  }

  lemma EffectEmits(d: Desired, pc: Pc, w: World)
    requires Fits(d, pc) && !pc.Done?
    ensures Effect(d, pc, w).log == w.log + Emits(d, pc, w)
  {}

  ghost function StepEmits(d: Desired, pc: Pc, w: World, fault: Fault): seq<Event>
    requires Fits(d, pc) && !pc.Done?
  {
    if fault == LostRequest then [] else Emits(d, pc, w)
  }

  // ----- Merge safety -----

  predicate IsMergeEvent(e: Event) {
    e.HeadsRead? || e.Approved? || e.Merged?
  }

  ghost predicate NoMergeEvents(s: seq<Event>) {
    forall i :: 0 <= i < |s| ==> !IsMergeEvent(s[i])
  }

  /** The request may merge at all: it asks to, it is armed, and it is pinned to complete pins. */
  ghost predicate Armed(d: Desired, pre: Preconditions) {
    && d.clearSlot.None? && d.thread.None? && d.approve
    && d.merge == Some(pre.pins)
    && pre.armEligible && pre.CompleteForMerge()
  }

  /** After `k` events of other kinds: nothing, a heads read, then an approval, then a merge of the pins. */
  ghost predicate MergeShape(pins: Pins, s: seq<Event>, k: nat) {
    && k <= |s| <= k + 3
    && NoMergeEvents(s[..k])
    && (|s| > k ==> s[k].HeadsRead?)
    && (|s| > k + 1 ==> s[k] == HeadsRead(pins) && s[k + 1].Approved?)
    && (|s| > k + 2 ==> s[k + 2] == Merged(pins, pins))
  }

  /** The log a publisher standing at `pc` has written. */
  ghost predicate MergeInv(d: Desired, pre: Preconditions, pc: Pc, s: seq<Event>, k: nat) {
    match pc
    case CheckingHeads => Armed(d, pre) && k == |s| && NoMergeEvents(s)
    case Approving => Armed(d, pre) && |s| == k + 1 && MergeShape(pre.pins, s, k) && s[k] == HeadsRead(pre.pins)
    case Merging(_) => Armed(d, pre) && |s| == k + 2 && MergeShape(pre.pins, s, k)
    case Done(out) =>
      && MergeShape(pre.pins, s, k)
      && (|s| > k ==> Armed(d, pre))
      && (Armed(d, pre) && out.Published? ==> |s| == k + 3)
    case _ =>
      && k == |s| && NoMergeEvents(s)
      && (Armed(d, pre) ==> pc.ListingNotes? || pc.Upserting?)
  }

  lemma {:induction false} MergeInvStep(
    d: Desired, pre: Preconditions, p: Publisher, w: World, fault: Fault, s: seq<Event>, k: nat)
    returns (k': nat)
    requires Fits(d, p.pc) && !p.pc.Done?
    requires MergeInv(d, pre, p.pc, s, k)
    ensures MergeInv(d, pre, StepPublisher(d, pre, p, w, fault).pc, s + StepEmits(d, p.pc, w, fault), k')
  {
    hide BotThreads, NextThread, NextClear, SummaryId, MintId, ReceiptOf;
    var t := s + StepEmits(d, p.pc, w, fault);
    if p.pc.CheckingHeads? || p.pc.Approving? || p.pc.Merging? {
      k' := k;
      assert t[..k] == s[..k];
    } else {
      k' := |t|;
      assert t[..k'] == t;
    }
  }

  lemma {:induction false} MergeInvRun(
    d: Desired, pre: Preconditions, p: Publisher, w: World, script: seq<Tick>, base: seq<Event>, s: seq<Event>, k: nat)
    returns (t: seq<Event>, k': nat)
    requires Fits(d, p.pc)
    requires w.log == base + s && MergeInv(d, pre, p.pc, s, k)
    ensures var e := Run(d, pre, p, w, script);
            e.world.log == base + t && MergeInv(d, pre, e.publisher.pc, t, k')
    decreases Stage(p.pc), Todo(p.pc)
  {
    hide Effect, MergeInv, StepPublisher, Emits;
    if p.pc.Done? {
      t, k' := s, k;
    } else {
      var found := Arrive(w, script);
      var fault := FaultOf(script);
      EffectEmits(d, p.pc, found);
      var s' := s + StepEmits(d, p.pc, found, fault);
      assert base + s' == base + s + StepEmits(d, p.pc, found, fault);
      var k1 := MergeInvStep(d, pre, p, found, fault, s, k);
      t, k' := MergeInvRun(d, pre, StepPublisher(d, pre, p, found, fault), StepWorld(d, p, found, fault),
                           Rest(script), base, s', k1);
    }
  }

  /** The events one whole Reconcile adds to the log. */
  ghost function Written(d: Desired, pre: Preconditions, w: World, script: seq<Tick>): seq<Event> {
    var log := Run(d, pre, Start(d, pre), w, script).world.log;
    if |log| < |w.log| then [] else log[|w.log|..]
  }

  /** Every merge and approval in `s` is the pinned one, in its place, and there is at most one of each. */
  ghost predicate MergesOnlyPinned(pins: Pins, s: seq<Event>) {
    && (forall i :: 0 <= i < |s| && s[i].Merged? ==>
          s[i] == Merged(pins, pins) && i == |s| - 1 && i > 0 && s[i - 1].Approved?)
    && (forall i :: 0 <= i < |s| && s[i].Approved? ==>
          i > 0 && s[i - 1] == HeadsRead(pins) && i >= |s| - 2)
    && (forall i, j :: 0 <= i < j < |s| ==>
          !(s[i].Approved? && s[j].Approved?) && !(s[i].Merged? && s[j].Merged?))
  }

  lemma {:induction false} MergeShapeMeans(pins: Pins, s: seq<Event>, k: nat)
    requires MergeShape(pins, s, k)
    ensures MergesOnlyPinned(pins, s)
    ensures |s| == k ==> NoMergeEvents(s)
  {
    forall i | 0 <= i < k
      ensures !IsMergeEvent(s[i])
    {
      assert s[..k][i] == s[i];
    }
  }

  /**
   Merge safety over whole runs: a merge happens only for an armed, completely pinned request,
   with all three heads equal to the pins at that instant; it directly follows the one approval,
   which directly follows a heads read equal to the pins; and a published approval did merge.
   */
  lemma {:induction false} MergeSafety(d: Desired, pre: Preconditions, w: World, script: seq<Tick>)
    ensures var s := Written(d, pre, w, script);
            && MergesOnlyPinned(pre.pins, s)
            && (!Armed(d, pre) ==> NoMergeEvents(s))
            && (Armed(d, pre) && Run(d, pre, Start(d, pre), w, script).publisher.pc.outcome.Published? ==>
                  |s| > 0 && s[|s| - 1].Merged?)
  {
    hide Run, MergesOnlyPinned, NoMergeEvents;
    assert NoMergeEvents([]) by { NothingMerges(); }
    var t, k := MergeInvRun(d, pre, Start(d, pre), w, script, w.log, [], 0);
    assert Written(d, pre, w, script) == t;
    MergeShapeMeans(pre.pins, t, k);
  }

  lemma NothingMerges()
    ensures NoMergeEvents([])
  {}

  // ----- The rescan certificate -----

  ghost predicate HasSlotId(slot: Slot, ts: seq<Thread>, id: string) {
    exists i :: 0 <= i < |ts| && ts[i].id == id && ts[i].marker.slot == slot
  }

  ghost predicate SlotIds(slot: Slot, ts: seq<Thread>, ids: seq<string>) {
    forall i :: 0 <= i < |ids| ==> HasSlotId(slot, ts, ids[i])
  }

  /** Every resolve names a thread the earlier listing showed in the slot. */
  ghost predicate ResolvesOnlySlot(slot: Slot, s: seq<Event>) {
    forall i :: 0 <= i < |s| && s[i].Resolved? ==> ListedEarlier(slot, s, i)
  }

  ghost predicate ListedEarlier(slot: Slot, s: seq<Event>, i: nat)
    requires i < |s| && s[i].Resolved?
  {
    exists j :: 0 <= j < i && s[j].Listed? && HasSlotId(slot, s[j].threads, s[i].id)
  }

  function IsCreated(): Event -> bool { (e: Event) => e.Created? }

  /** The slot is clean: no other occurrence is open, and this one has one open thread or one resolved thread. */
  ghost predicate Certified(m: Marker, ts: seq<Thread>) {
    && (forall i :: 0 <= i < |ts| && ts[i].marker.slot == m.slot && !ts[i].resolved ==>
          ts[i].marker.occurrence == m.occurrence)
    && (|| |Filter(OpenFilter(), Occupants(m, ts))| == 1
        || (|Occupants(m, ts)| == 1 && Occupants(m, ts)[0].resolved))
  }

  ghost predicate ThreadInv(m: Marker, pc: Pc, s: seq<Event>) {
    && ResolvesOnlySlot(m.slot, s)
    && |Filter(IsCreated(), s)| <= 1
    && (forall i :: 0 <= i < |s| && s[i].Created? ==> s[i].thread.marker == m)
    && match pc
       case Superseding(existing, todo) =>
         && |Filter(IsCreated(), s)| == 0
         && SlotIds(m.slot, existing, todo)
         && exists j :: 0 <= j < |s| && s[j] == Listed(existing)
       case Repairing(_, todo, _) =>
         exists j :: 0 <= j < |s| && s[j].Listed? && SlotIds(m.slot, s[j].threads, todo)
       case Rescanning(_, _) => true
       case Done(out) =>
         out.Published? ==> |s| > 0 && s[|s| - 1].Listed? && Certified(m, s[|s| - 1].threads)
       case _ => |Filter(IsCreated(), s)| == 0
  }

  lemma {:induction false} StaleIdsInSlot(m: Marker, ts: seq<Thread>)
    ensures SlotIds(m.slot, ts, StaleIds(m, ts))
  {
    var stale := Filter(StaleFilter(m), ts);
    FilterMembers(StaleFilter(m), ts);
    forall i | 0 <= i < |stale|
      ensures HasSlotId(m.slot, ts, stale[i].id)
    {
      assert stale[i] in stale;
    }
  }

  lemma {:induction false} DuplicateIdsInSlot(m: Marker, ts: seq<Thread>)
    ensures SlotIds(m.slot, ts, DuplicateIds(Occupants(m, ts)))
  {
    hide Canonical;
    var occupants := Occupants(m, ts);
    FilterMembers(OccupantFilter(m), ts);
    if |occupants| >= 2 {
      var others := Filter(OtherIdFilter(Canonical(occupants).id), occupants);
      FilterMembers(OtherIdFilter(Canonical(occupants).id), occupants);
      forall i | 0 <= i < |others|
        ensures HasSlotId(m.slot, ts, others[i].id)
      {
        assert others[i] in others;
      }
    }
  }

  lemma {:induction false} RescanCertifies(m: Marker, ts: seq<Thread>, mode: Mode)
    requires RescanAccepts(ts, m, mode)
    ensures Certified(m, ts)
  {
    FilterMembers(StaleFilter(m), ts);
    forall i | 0 <= i < |ts| && ts[i].marker.slot == m.slot && !ts[i].resolved
      ensures ts[i].marker.occurrence == m.occurrence
    {
      assert ts[i] !in Filter(StaleFilter(m), ts);
    }
  }

  /** Appending one event keeps what the log says about its earlier events. */
  lemma {:induction false} AppendResolves(slot: Slot, s: seq<Event>, e: Event)
    requires ResolvesOnlySlot(slot, s)
    requires e.Resolved? ==> exists j :: 0 <= j < |s| && s[j].Listed? && HasSlotId(slot, s[j].threads, e.id)
    ensures ResolvesOnlySlot(slot, s + [e])
  {
    hide HasSlotId;
    var t := s + [e];
    forall i | 0 <= i < |t| && t[i].Resolved?
      ensures ListedEarlier(slot, t, i)
    {
      if i < |s| {
        assert s[i].Resolved? && ListedEarlier(slot, s, i);
        var j :| 0 <= j < i && s[j].Listed? && HasSlotId(slot, s[j].threads, s[i].id);
        assert t[j] == s[j];
      } else {
        var j :| 0 <= j < |s| && s[j].Listed? && HasSlotId(slot, s[j].threads, e.id);
        assert t[j] == s[j];
      }
    }
  }

  lemma {:induction false} SupersedeInv(m: Marker, existing: seq<Thread>, todo: seq<string>, s: seq<Event>)
    requires ResolvesOnlySlot(m.slot, s) && |Filter(IsCreated(), s)| == 0
    requires forall i :: 0 <= i < |s| && s[i].Created? ==> s[i].thread.marker == m
    requires SlotIds(m.slot, existing, todo)
    requires exists j :: 0 <= j < |s| && s[j] == Listed(existing)
    ensures ThreadInv(m, StartSupersede(m, existing, todo), s)
  {
    hide ResolvesOnlySlot, Filter, Occupants, DuplicateIds, Canonical, ReceiptOf, RepairReceipt, SlotIds;
    DuplicateIdsInSlot(m, existing);
  }

  ghost predicate OnThreadPath(d: Desired) {
    d.thread.Some? && d.clearSlot.None?
  }

  ghost predicate OnThreadPc(pc: Pc) {
    && !pc.ClearListing? && !pc.ClearResolving? && !pc.ClearRescanning?
    && !pc.CheckingHeads? && !pc.Approving? && !pc.Merging?
  }

  /** The three kinds of call that change what the log must say. */
  lemma {:induction false} ThreadInvServed(d: Desired, pre: Preconditions, p: Publisher, w: World, s: seq<Event>)
    requires OnThreadPath(d) && OnThreadPc(p.pc) && Fits(d, p.pc) && !p.pc.Done?
    requires ThreadInv(d.thread.value.marker, p.pc, s)
    ensures ThreadInv(d.thread.value.marker, Next(d, pre, p, w).pc, s + Emits(d, p.pc, w))
  {
    hide Filter, RescanAccepts, Certified, BotThreads, StaleIds, SlotIds, HasSlotId, DuplicateIds, Occupants,
         ResolvesOnlySlot;
    hide MintId, ReceiptOf, RepairReceipt, SummaryId;
    var m := d.thread.value.marker;
    var t := s + Emits(d, p.pc, w);
    if p.pc.ListingNotes? {
      assert t == s;
    } else {
      var e := Emits(d, p.pc, w)[0];
      assert t == s + [e];
      FilterConcat(IsCreated(), s, [e]);
      FilterOne(IsCreated(), e);
      match p.pc {
        case Listing =>
          StaleIdsInSlot(m, e.threads);
          AppendResolves(m.slot, s, e);
          assert t[|s|] == Listed(e.threads);
          SupersedeInv(m, e.threads, StaleIds(m, e.threads), t);
        case Superseding(existing, todo) =>
          var j :| 0 <= j < |s| && s[j] == Listed(existing);
          SlotIdsSplit(m.slot, existing, todo);
          AppendResolves(m.slot, s, e);
          assert t[j] == Listed(existing);
          SupersedeInv(m, existing, todo[1..], t);
        case Repairing(_, todo, _) =>
          var j :| 0 <= j < |s| && s[j].Listed? && SlotIds(m.slot, s[j].threads, todo);
          SlotIdsSplit(m.slot, s[j].threads, todo);
          AppendResolves(m.slot, s, e);
          assert t[j] == s[j];
        case Rescanning(mode, _) =>
          AppendResolves(m.slot, s, e);
          if RescanAccepts(e.threads, m, mode) { RescanCertifies(m, e.threads, mode); }
          assert t[|t| - 1] == e;
        case _ =>
          AppendResolves(m.slot, s, e);
      }
    }
  }

  lemma {:induction false} FilterOne<T>(keep: T -> bool, x: T)
    ensures Filter(keep, [x]) == if keep(x) then [x] else []
  {
    assert [x][1..] == [];
  }

  lemma {:induction false} SlotIdsSplit(slot: Slot, ts: seq<Thread>, todo: seq<string>)
    requires SlotIds(slot, ts, todo) && todo != []
    ensures HasSlotId(slot, ts, todo[0]) && SlotIds(slot, ts, todo[1..])
  {
    hide HasSlotId;
  }

  lemma {:induction false} ThreadInvLost(d: Desired, p: Publisher, w: World, s: seq<Event>, fault: Fault)
    requires OnThreadPath(d) && OnThreadPc(p.pc) && Fits(d, p.pc) && !p.pc.Done? && fault != Served
    requires ThreadInv(d.thread.value.marker, p.pc, s)
    ensures ThreadInv(d.thread.value.marker, Done(Failed(Transport)), s + StepEmits(d, p.pc, w, fault))
  {
    hide ResolvesOnlySlot, Filter, SlotIds, Certified, HasSlotId, SummaryId, MintId, BotThreads;
    var m := d.thread.value.marker;
    if fault == LostRequest || p.pc.ListingNotes? {
      assert s + [] == s;
    } else {
      var e := Emits(d, p.pc, w)[0];
      FilterConcat(IsCreated(), s, [e]);
      FilterOne(IsCreated(), e);
      assert s + StepEmits(d, p.pc, w, fault) == s + [e];
      if p.pc.Superseding? || p.pc.Repairing? { TodoListed(m, p.pc, s); }
      AppendResolves(m.slot, s, e);
    }
  }

  /** The thread a step is about to resolve was listed in the slot. */
  lemma {:induction false} TodoListed(m: Marker, pc: Pc, s: seq<Event>)
    requires (pc.Superseding? || pc.Repairing?) && pc.todo != [] && ThreadInv(m, pc, s)
    ensures exists j :: 0 <= j < |s| && s[j].Listed? && HasSlotId(m.slot, s[j].threads, pc.todo[0])
  {
    hide ResolvesOnlySlot, Filter, SlotIds, Certified, HasSlotId;
    match pc
    case Superseding(existing, todo) =>
      var j :| 0 <= j < |s| && s[j] == Listed(existing);
      SlotIdsSplit(m.slot, existing, todo);
    case Repairing(_, todo, _) =>
      var j :| 0 <= j < |s| && s[j].Listed? && SlotIds(m.slot, s[j].threads, todo);
      SlotIdsSplit(m.slot, s[j].threads, todo);
  }

  lemma {:induction false} StaysOnThreadPath(d: Desired, pre: Preconditions, p: Publisher, w: World, fault: Fault)
    requires OnThreadPath(d) && OnThreadPc(p.pc) && Fits(d, p.pc) && !p.pc.Done?
    ensures OnThreadPc(StepPublisher(d, pre, p, w, fault).pc)
  {
    hide NextThread, SummaryId;
  }

  lemma {:induction false} ThreadInvRun(
    d: Desired, pre: Preconditions, p: Publisher, w: World, script: seq<Tick>, base: seq<Event>, s: seq<Event>)
    returns (t: seq<Event>)
    requires OnThreadPath(d) && OnThreadPc(p.pc) && Fits(d, p.pc)
    requires w.log == base + s && ThreadInv(d.thread.value.marker, p.pc, s)
    ensures var e := Run(d, pre, p, w, script);
            e.world.log == base + t && ThreadInv(d.thread.value.marker, e.publisher.pc, t)
    decreases Stage(p.pc), Todo(p.pc)
  {
    hide Effect, ThreadInv, Next, Emits, OnThreadPc;
    if p.pc.Done? {
      t := s;
    } else {
      var found := Arrive(w, script);
      var fault := FaultOf(script);
      EffectEmits(d, p.pc, found);
      var s' := s + StepEmits(d, p.pc, found, fault);
      assert base + s' == base + s + StepEmits(d, p.pc, found, fault);
      if fault == Served {
        ThreadInvServed(d, pre, p, found, s);
      } else {
        ThreadInvLost(d, p, found, s, fault);
      }
      StaysOnThreadPath(d, pre, p, found, fault);
      t := ThreadInvRun(d, pre, StepPublisher(d, pre, p, found, fault), StepWorld(d, p, found, fault),
                        Rest(script), base, s');
    }
  }

  /**
   Success is never reported without the forge's confirmation: the last thing a successful
   REVIEW reconcile did was list the threads, and that listing is clean for the marker.  On every
   run, successful or not, it resolves only threads of its own slot and creates at most one thread.
   */
  lemma {:induction false} RescanCertificate(d: Desired, pre: Preconditions, w: World, script: seq<Tick>)
    requires d.thread.Some? && d.clearSlot.None?
    ensures var s := Written(d, pre, w, script);
            var m := d.thread.value.marker;
            && ResolvesOnlySlot(m.slot, s)
            && |Filter(IsCreated(), s)| <= 1
            && (forall i :: 0 <= i < |s| && s[i].Created? ==> s[i].thread.marker == m)
            && (Run(d, pre, Start(d, pre), w, script).publisher.pc.outcome.Published? ==>
                  |s| > 0 && s[|s| - 1].Listed? && Certified(m, s[|s| - 1].threads))
  {
    hide Run, Certified, ResolvesOnlySlot;
    var m := d.thread.value.marker;
    assert ResolvesOnlySlot(m.slot, []) by { EmptyResolves(m.slot); }
    var t := ThreadInvRun(d, pre, Start(d, pre), w, script, w.log, []);
    assert Written(d, pre, w, script) == t;
  }

  lemma EmptyResolves(slot: Slot)
    ensures ResolvesOnlySlot(slot, [])
  {}
}
