/**
 The publication protocol as a state machine.  A publisher is a program counter; every
 step it takes is exactly one call on the forge port, and the forge may be changed by
 others between any two calls.
 */
module Forge {
  import opened Sequences
  import opened Strings

  datatype Slot = Slot(project: string, mr: string, rule: string, effect: string, entryRef: string)
  datatype Artifact = Artifact(kind: string, schemaVersion: string)
  datatype Marker = Marker(slot: Slot, occurrence: string, decision: string, artifact: Artifact)
  datatype Thread = Thread(id: string, marker: Marker, author: string, resolved: bool)
  datatype Note = Note(id: string, marker: Marker, author: string, body: string)

  /** Source SHA, target SHA and merge-result digest: the three compare-and-swap values. */
  datatype Pins = Pins(source: string, target: string, digest: string)

  datatype Comment = Comment(marker: Marker, body: string)

  /** What a decision asks the forge to show. */
  datatype Desired = Desired(
    thread: Option<Comment>, clearSlot: Option<Slot>, approve: bool, merge: Option<Pins>, summary: Option<Comment>)

  datatype Preconditions = Preconditions(armEligible: bool, pins: Pins) {
    predicate CompleteForMerge() {
      pins.source != "" && pins.target != "" && pins.digest != ""
    }
  }

  datatype OperationKind = ThreadOp | ApprovalOp | MergeOp
  datatype Operation = Operation(kind: OperationKind, targetId: string)
  datatype Repair = Repair(repaired: string, canonical: string)
  datatype Receipt = Receipt(operations: seq<Operation>, repairs: seq<Repair>)

  datatype Error =
    | ArmingRefused | ShaMoved | IncompletePreconditions | UnsupportedDecision
    | InvalidSummaryMarker | RescanFailed | DuplicateOpenThreads | Transport

  datatype Outcome = Published(receipt: Receipt) | Failed(error: Error)

  /** What the forge recorded, in the order it served the calls. */
  datatype Event =
    | Listed(threads: seq<Thread>)
    | Resolved(id: string)
    | Created(thread: Thread, body: string)
    | Upserted(id: string)
    | HeadsRead(heads: Pins)
    | Approved(heads: Pins)
    | Merged(pins: Pins, heads: Pins)
    | Emitted(record: string)

  /** One merge request on the forge.  `log` belongs to the publisher under observation. */
  datatype World = World(
    bot: string, threads: seq<Thread>, notes: seq<Note>, heads: Pins, nextId: nat, log: seq<Event>)

  function MintId(n: nat): string {
    "note/" + Numeral(n)
  }

  /** Thread ids are distinct, and ids still to be minted are unused. */
  ghost predicate Valid(w: World) {
    && (forall i, j :: 0 <= i < j < |w.threads| ==> w.threads[i].id != w.threads[j].id)
    && (forall i, n: nat :: 0 <= i < |w.threads| && n >= w.nextId ==> w.threads[i].id != MintId(n))
  }

  // ----- Forge ids -----

  const MAX_INT: int := 0x7FFF_FFFF_FFFF_FFFF

  predicate IsNumeral(s: string) {
    s != [] && forall i :: 0 <= i < |s| ==> IsDigit(s[i])
  }

  /** `strconv.Atoi` on a 64-bit platform. */
  function Atoi(s: string): Option<int> {
    var signed := s != [] && (s[0] == '-' || s[0] == '+');
    var digits := if signed then s[1..] else s;
    if !IsNumeral(digits) then None else
    var n: int := if signed && s[0] == '-' then -(NumeralValue(digits) as int) else NumeralValue(digits);
    if -MAX_INT - 1 <= n <= MAX_INT then Some(n) else None
  }

  /** The number after the last '/' of a forge id; the largest int when there is none. */
  function ForgeIdNum(id: string): int {
    var parts := Split(id, '/');
    match Atoi(parts[|parts| - 1])
    case Some(n) => n
    case None => MAX_INT
  }

  // ----- Selecting threads -----

  predicate Occupies(m: Marker, t: Thread) {
    t.marker.slot == m.slot && t.marker.occurrence == m.occurrence
  }

  predicate IsStale(m: Marker, t: Thread) {
    t.marker.slot == m.slot && t.marker.occurrence != m.occurrence && !t.resolved
  }

  function BotFilter(bot: string): Thread -> bool { (t: Thread) => t.author == bot }
  function OccupantFilter(m: Marker): Thread -> bool { (t: Thread) => Occupies(m, t) }
  function StaleFilter(m: Marker): Thread -> bool { (t: Thread) => IsStale(m, t) }
  function OpenFilter(): Thread -> bool { (t: Thread) => !t.resolved }
  function OpenInSlotFilter(s: Slot): Thread -> bool { (t: Thread) => t.marker.slot == s && !t.resolved }
  function OtherIdFilter(id: string): Thread -> bool { (t: Thread) => t.id != id }
  function NumOf(): Thread -> int { (t: Thread) => ForgeIdNum(t.id) }
  function IdOf(): Thread -> string { (t: Thread) => t.id }

  function BotThreads(w: World): seq<Thread> {
    Filter(BotFilter(w.bot), w.threads)
  }

  function BotNoteFilter(bot: string): Note -> bool { (n: Note) => n.author == bot }

  function BotNotes(w: World): seq<Note> {
    Filter(BotNoteFilter(w.bot), w.notes)
  }

  function Occupants(m: Marker, ts: seq<Thread>): seq<Thread> {
    Filter(OccupantFilter(m), ts)
  }

  function StaleIds(m: Marker, ts: seq<Thread>): seq<string> {
    Map(IdOf(), Filter(StaleFilter(m), ts))
  }

  /** The first occupant with the numerically smallest id. */
  function Canonical(occupants: seq<Thread>): Thread
    requires |occupants| > 0
  {
    ArgMin(NumOf(), occupants)
  }

  function DuplicateIds(occupants: seq<Thread>): seq<string> {
    if |occupants| < 2 then [] else
    Map(IdOf(), Filter(OtherIdFilter(Canonical(occupants).id), occupants))
  }

  function Resolve(ids: set<string>, ts: seq<Thread>): (r: seq<Thread>)
    ensures |r| == |ts|
  {
    seq(|ts|, i requires 0 <= i < |ts| => if ts[i].id in ids then ts[i].(resolved := true) else ts[i])
  }

  // ----- Receipts -----

  function ByTarget(): (Operation, Operation) -> bool {
    (a: Operation, b: Operation) => Leq(a.targetId, b.targetId)
  }

  function ByRepairedNum(): (Repair, Repair) -> bool {
    (a: Repair, b: Repair) => ForgeIdNum(a.repaired) <= ForgeIdNum(b.repaired)
  }

  function RepairAgainst(canonical: string): string -> Repair { (id: string) => Repair(id, canonical) }

  function ReceiptOf(ops: seq<Operation>): Receipt {
    Receipt(SortBy(ByTarget(), ops), [])
  }

  function RepairReceipt(canonical: string, repaired: seq<string>): Receipt {
    ReceiptOf([Operation(ThreadOp, canonical)]).(
    repairs := SortBy(ByRepairedNum(), Map(RepairAgainst(canonical), repaired)))
  }

  // ----- The rescan -----

  datatype Mode = OpenMode | PreserveResolved | RepairMode

  /** The desired slot as the rescan wants to see it. */
  predicate RescanAccepts(ts: seq<Thread>, m: Marker, mode: Mode) {
    var matching := Occupants(m, ts);
    var open := Filter(OpenFilter(), matching);
    && Filter(StaleFilter(m), ts) == []
    && match mode
       case PreserveResolved => |matching| == 1 && matching[0].resolved
       case _ => |open| == 1
  }

  // ----- The summary note -----

  predicate IsSummaryOf(bot: string, n: Note) {
    n.author == bot && n.marker.artifact.kind == "summary-comment"
  }

  /** The index of the bot's summary note, or the number of notes. */
  function SummaryIndex(bot: string, notes: seq<Note>): (i: nat)
    ensures i <= |notes|
    ensures i < |notes| ==> IsSummaryOf(bot, notes[i])
    ensures forall j :: 0 <= j < i ==> !IsSummaryOf(bot, notes[j])
  {
    if notes == [] || IsSummaryOf(bot, notes[0]) then 0 else
    var k := SummaryIndex(bot, notes[1..]);
    assert forall j :: 1 <= j < k + 1 ==> notes[j] == notes[1..][j - 1];
    k + 1
  }

  function SummaryId(w: World): string {
    var i := SummaryIndex(w.bot, w.notes);
    if i < |w.notes| then w.notes[i].id else MintId(w.nextId)
  }

  /** One summary note per merge request: edited in place when there is one. */
  function Upsert(w: World, c: Comment): World {
    var i := SummaryIndex(w.bot, w.notes);
    if i < |w.notes|
    then w.(notes := w.notes[i := w.notes[i].(marker := c.marker, body := c.body)])
    else w.(notes := w.notes + [Note(MintId(w.nextId), c.marker, w.bot, c.body)], nextId := w.nextId + 1)
  }

  // ----- The publisher -----

  /** Where a publisher stands: the port call it is about to make. */
  datatype Pc =
    | ListingNotes
    | Upserting
    | Listing
    | Superseding(existing: seq<Thread>, todo: seq<string>)
    | Creating
    | Repairing(canonical: string, todo: seq<string>, repaired: seq<string>)
    | Rescanning(mode: Mode, receipt: Receipt)
    | ClearListing
    | ClearResolving(id: string)
    | ClearRescanning(id: string)
    | CheckingHeads
    | Approving
    | Merging(approvalId: string)
    | Done(outcome: Outcome)

  /** A publisher: where it stands and the summary operation it will put in front of its receipt. */
  datatype Publisher = Publisher(preamble: seq<Operation>, pc: Pc) {
    function Result(): Outcome
      requires pc.Done?
    {
      match pc.outcome
      case Failed(e) => Failed(e)
      case Published(r) => Published(if preamble == [] then r else ReceiptOf(preamble + r.operations))
    }
  }

  /** A request that some path of Reconcile handles. */
  predicate Supported(d: Desired) {
    d.clearSlot.Some? || d.thread.Some? || (d.approve && d.merge.Some?)
  }

  /** The path after the summary: clear a slot, keep a thread, or approve and merge. */
  function PathStart(d: Desired, pre: Preconditions): Pc {
    if d.clearSlot.Some? then ClearListing
    else if d.thread.Some? then Listing
    else if d.approve && d.merge.Some? then
      if !pre.armEligible then Done(Failed(ArmingRefused))
      else if !pre.CompleteForMerge() then Done(Failed(IncompletePreconditions))
      else if d.merge.value != pre.pins then Done(Failed(IncompletePreconditions))
      else CheckingHeads
    else Done(Failed(UnsupportedDecision))
  }

  function Start(d: Desired, pre: Preconditions): (p: Publisher)
    ensures Fits(d, p.pc)
  {
    Publisher([], if Supported(d) && d.summary.Some? then ListingNotes else PathStart(d, pre))
  }

  /** After the last stale thread is resolved. */
  function AfterSupersede(m: Marker, existing: seq<Thread>): (pc: Pc)
    ensures pc.Creating? || pc.Rescanning? || (pc.Repairing? && pc.todo != [])
  {
    var occupants := Occupants(m, existing);
    if |occupants| >= 2 then StartRepair(Canonical(occupants).id, DuplicateIds(occupants), [])
    else if |occupants| == 1 then
      Rescanning(if occupants[0].resolved then PreserveResolved else OpenMode,
                 ReceiptOf([Operation(ThreadOp, occupants[0].id)]))
    else Creating
  }

  function StartRepair(canonical: string, todo: seq<string>, repaired: seq<string>): Pc {
    if todo == [] then Rescanning(RepairMode, RepairReceipt(canonical, repaired))
    else Repairing(canonical, todo, repaired)
  }

  function StartSupersede(m: Marker, existing: seq<Thread>, todo: seq<string>): Pc {
    if todo == [] then AfterSupersede(m, existing) else Superseding(existing, todo)
  }

  predicate SlotHas(s: Slot, ts: seq<Thread>) {
    exists t :: t in ts && t.marker.slot == s
  }

  function FirstInSlot(s: Slot, ts: seq<Thread>): (t: Thread)
    requires SlotHas(s, ts)
    ensures t in ts && t.marker.slot == s
  {
    if ts[0].marker.slot == s then ts[0] else
    assert forall t :: t in ts ==> t == ts[0] || t in ts[1..];
    FirstInSlot(s, ts[1..])
  }

  /** The well-formed program counters for a request: the parts they rely on are present. */
  predicate Fits(d: Desired, pc: Pc) {
    match pc
    case ListingNotes => d.summary.Some?
    case Upserting => d.summary.Some?
    case Listing => d.thread.Some?
    case Superseding(_, todo) => d.thread.Some? && todo != []
    case Creating => d.thread.Some?
    case Repairing(_, todo, _) => d.thread.Some? && todo != []
    case Rescanning(_, _) => d.thread.Some?
    case ClearListing => d.clearSlot.Some?
    case ClearResolving(_) => d.clearSlot.Some?
    case ClearRescanning(_) => d.clearSlot.Some?
    case CheckingHeads => d.merge.Some?
    case Approving => d.merge.Some?
    case Merging(_) => d.merge.Some?
    case Done(_) => true
  }

  /** What the call does to the forge. */
  function Effect(d: Desired, pc: Pc, w: World): World
    requires Fits(d, pc) && !pc.Done?
  {
    match pc
    case ListingNotes => w
    case Upserting => Upsert(w, d.summary.value).(log := w.log + [Upserted(SummaryId(w))])
    case Listing => w.(log := w.log + [Listed(BotThreads(w))])
    case Superseding(_, todo) => ResolveOne(w, todo[0])
    case Creating =>
      var t := Thread(MintId(w.nextId), d.thread.value.marker, w.bot, false);
      w.(threads := w.threads + [t], nextId := w.nextId + 1, log := w.log + [Created(t, d.thread.value.body)])
    case Repairing(_, todo, _) => ResolveOne(w, todo[0])
    case Rescanning(_, _) => w.(log := w.log + [Listed(BotThreads(w))])
    case ClearListing => w.(log := w.log + [Listed(BotThreads(w))])
    case ClearResolving(id) => ResolveOne(w, id)
    case ClearRescanning(_) => w.(log := w.log + [Listed(BotThreads(w))])
    case CheckingHeads => w.(log := w.log + [HeadsRead(w.heads)])
    case Approving => w.(nextId := w.nextId + 1, log := w.log + [Approved(w.heads)])
    case Merging(_) =>
      if w.heads == d.merge.value
      then w.(nextId := w.nextId + 1, log := w.log + [Merged(d.merge.value, w.heads)])
      else w
  }

  function ResolveOne(w: World, id: string): World {
    w.(threads := Resolve({id}, w.threads), log := w.log + [Resolved(id)])
  }

  predicate InThreadPath(pc: Pc) {
    match pc
    case Superseding(_, todo) => todo != []
    case Repairing(_, todo, _) => todo != []
    case _ => pc.Listing? || pc.Creating? || pc.Rescanning? || pc.Done?
  }

  function NextThread(m: Marker, pc: Pc, w: World): (q: Pc)
    requires pc.Listing? || pc.Superseding? || pc.Creating? || pc.Repairing? || pc.Rescanning?
    requires InThreadPath(pc)
    ensures InThreadPath(q)
    ensures Stage(q) < Stage(pc) || (Stage(q) == Stage(pc) && Todo(q) < Todo(pc))
  {
    hide ReceiptOf, RepairReceipt, Canonical, DuplicateIds, MintId, RescanAccepts, BotThreads, StaleIds, Occupants;
    match pc
    case Listing => StartSupersede(m, BotThreads(w), StaleIds(m, BotThreads(w)))
    case Superseding(existing, todo) => StartSupersede(m, existing, todo[1..])
    case Creating => Rescanning(OpenMode, ReceiptOf([Operation(ThreadOp, MintId(w.nextId))]))
    case Repairing(canonical, todo, repaired) => StartRepair(canonical, todo[1..], repaired + [todo[0]])
    case Rescanning(mode, receipt) =>
      Done(if RescanAccepts(BotThreads(w), m, mode) then Published(receipt) else Failed(RescanFailed))
  }

  function NextClear(slot: Slot, pc: Pc, w: World): (q: Pc)
    requires pc.ClearListing? || pc.ClearResolving? || pc.ClearRescanning?
    ensures q.ClearResolving? || q.ClearRescanning? || q.Done?
    ensures Stage(q) < Stage(pc)
  {
    var open := Filter(OpenInSlotFilter(slot), BotThreads(w));
    match pc
    case ClearListing =>
      if |open| == 1 then ClearResolving(open[0].id)
      else if |open| > 1 then Done(Failed(DuplicateOpenThreads))
      else if SlotHas(slot, BotThreads(w)) then ClearRescanning(FirstInSlot(slot, BotThreads(w)).id)
      else Done(Failed(UnsupportedDecision))
    case ClearResolving(id) => ClearRescanning(id)
    case ClearRescanning(id) =>
      Done(if open == [] then Published(ReceiptOf([Operation(ThreadOp, id)])) else Failed(RescanFailed))
  }

  function NextMerge(pins: Pins, pc: Pc, w: World): (q: Pc)
    requires pc.CheckingHeads? || pc.Approving? || pc.Merging?
    ensures q.Approving? || q.Merging? || q.Done?
    ensures Stage(q) < Stage(pc)
  {
    match pc
    case CheckingHeads => if w.heads == pins then Approving else Done(Failed(ShaMoved))
    case Approving => Merging(MintId(w.nextId))
    case Merging(approvalId) =>
      Done(if w.heads == pins
           then Published(ReceiptOf([Operation(ApprovalOp, approvalId), Operation(MergeOp, MintId(w.nextId))]))
           else Failed(ShaMoved))
  }

  /** Where the answer takes the publisher; `w` is the forge as the call found it. */
  function Next(d: Desired, pre: Preconditions, p: Publisher, w: World): (q: Publisher)
    requires Fits(d, p.pc) && !p.pc.Done?
    ensures Fits(d, q.pc)
    ensures Stage(q.pc) < Stage(p.pc) || (Stage(q.pc) == Stage(p.pc) && Todo(q.pc) < Todo(p.pc))
  {
    hide NextThread, NextClear, NextMerge;
    if p.pc.ListingNotes? then
      p.(pc := if d.summary.value.marker.artifact.kind != "summary-comment"
               then Done(Failed(InvalidSummaryMarker)) else Upserting)
    else if p.pc.Upserting? then
      Publisher(p.preamble + [Operation(ThreadOp, SummaryId(w))], PathStart(d, pre))
    else if p.pc.ClearListing? || p.pc.ClearResolving? || p.pc.ClearRescanning? then
      p.(pc := NextClear(d.clearSlot.value, p.pc, w))
    else if p.pc.CheckingHeads? || p.pc.Approving? || p.pc.Merging? then
      p.(pc := NextMerge(d.merge.value, p.pc, w))
    else
      p.(pc := NextThread(d.thread.value.marker, p.pc, w))
  }

  /** How the transport treats a call: served, lost on the way out, or served with the answer lost. */
  datatype Fault = Served | LostRequest | LostAnswer

  function StepWorld(d: Desired, p: Publisher, w: World, fault: Fault): World
    requires Fits(d, p.pc) && !p.pc.Done?
  {
    if fault == LostRequest then w else Effect(d, p.pc, w)
  }

  function StepPublisher(d: Desired, pre: Preconditions, p: Publisher, w: World, fault: Fault): (q: Publisher)
    requires Fits(d, p.pc) && !p.pc.Done?
    ensures Fits(d, q.pc)
    ensures Stage(q.pc) < Stage(p.pc) || (Stage(q.pc) == Stage(p.pc) && Todo(q.pc) < Todo(p.pc))
  {
    hide Next;
    if fault == Served then Next(d, pre, p, w) else p.(pc := Done(Failed(Transport)))
  }

  // ----- Whole runs -----

  /** What happens around one port call: others may move the forge to `moved`, then the call meets `fault`. */
  datatype Tick = Tick(moved: Option<World>, fault: Fault)

  /** Others may change anything but this publisher's log and the bot's identity; ids only grow. */
  predicate Rely(w: World, w': World) {
    w'.log == w.log && w'.bot == w.bot && w'.nextId >= w.nextId
  }

  function Arrive(w: World, script: seq<Tick>): World {
    if script != [] && script[0].moved.Some? && Rely(w, script[0].moved.value) then script[0].moved.value else w
  }

  function FaultOf(script: seq<Tick>): Fault {
    if script == [] then Served else script[0].fault
  }

  function Rest(script: seq<Tick>): seq<Tick> {
    if script == [] then [] else script[1..]
  }

  /** Stages a publisher passes downwards, and the calls left in the current one. */
  function Stage(pc: Pc): nat {
    match pc
    case ListingNotes => 9
    case Upserting => 8
    case Listing => 7
    case ClearListing => 7
    case CheckingHeads => 7
    case Superseding(_, _) => 6
    case Approving => 6
    case ClearResolving(_) => 6
    case Creating => 5
    case Repairing(_, _, _) => 5
    case Merging(_) => 5
    case ClearRescanning(_) => 4
    case Rescanning(_, _) => 4
    case Done(_) => 0
  }

  function Todo(pc: Pc): nat {
    match pc
    case Superseding(_, todo) => |todo|
    case Repairing(_, todo, _) => |todo|
    case _ => 0
  }

  /** Where a run ends: the finished publisher, the forge it leaves and the unused script. */
  datatype End = End(publisher: Publisher, world: World, script: seq<Tick>)

  /** A publisher run to its end while `script` plays around its calls; afterwards all is quiet. */
  ghost function Run(d: Desired, pre: Preconditions, p: Publisher, w: World, script: seq<Tick>): (e: End)
    requires Fits(d, p.pc)
    ensures e.publisher.pc.Done?
    decreases Stage(p.pc), Todo(p.pc)
  {
    hide StepPublisher, StepWorld, Arrive;
    if p.pc.Done? then End(p, w, script) else
    var found := Arrive(w, script);
    Run(d, pre, StepPublisher(d, pre, p, found, FaultOf(script)),
        StepWorld(d, p, found, FaultOf(script)), Rest(script))
  }
}
