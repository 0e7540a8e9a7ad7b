/**
 Any number of unserialized publishers of one marker, interleaved call by call with each other
 and with everyone else: at most one of them reports success, and one later reconcile repairs
 whatever they left.
 */
module ForgeConcurrency {
  import opened Sequences
  import opened Strings
  import opened Forge
  import opened ForgeConfluence

  datatype System = System(world: World, publishers: seq<Publisher>)

  /** What one publisher was asked to do. */
  datatype Job = Job(desired: Desired, pre: Preconditions)

  /** Rivals for one marker; bodies, summaries and pins are each one's own. */
  ghost predicate Rivals(m: Marker, jobs: seq<Job>) {
    forall i :: 0 <= i < |jobs| ==> Rival(m, jobs[i].desired)
  }

  ghost predicate Rival(m: Marker, d: Desired) {
    d.thread.Some? && d.clearSlot.None? && d.thread.value.marker == m
  }

  ghost predicate AllFit(jobs: seq<Job>, s: System) {
    |jobs| == |s.publishers| && forall i :: 0 <= i < |jobs| ==> Fits(jobs[i].desired, s.publishers[i].pc)
  }

  /** One publisher makes its next call, or somebody else moves the forge. */
  datatype Move = Call(i: nat, fault: Fault) | Others(moved: World)

  ghost function Apply(jobs: seq<Job>, s: System, mv: Move): (s': System)
    requires AllFit(jobs, s)
    ensures AllFit(jobs, s')
  {
    hide StepPublisher, StepWorld, Fits;
    match mv
    case Others(moved) => s.(world := moved)
    case Call(i, fault) =>
      if i >= |s.publishers| || s.publishers[i].pc.Done? then s else
      var d, pre := jobs[i].desired, jobs[i].pre;
      System(StepWorld(d, s.publishers[i], s.world, fault),
             s.publishers[i := StepPublisher(d, pre, s.publishers[i], s.world, fault)])
  }

  /** Threads stay, nobody resolves an occupant, and newcomers obey the forge's id discipline. */
  ghost predicate OthersKeep(m: Marker, w: World, w': World) {
    && Valid(w') && w'.bot == w.bot
    && AllOccupantsOpen(m, w')
    && (forall k :: 0 <= k < |w.threads| ==> StaysIn(w.threads[k], w'))
  }

  ghost predicate StaysIn(t: Thread, w: World) {
    exists k :: && 0 <= k < |w.threads| && w.threads[k].id == t.id
                && w.threads[k].marker == t.marker && w.threads[k].author == t.author
  }

  ghost predicate AllOccupantsOpen(m: Marker, w: World) {
    forall k :: 0 <= k < |w.threads| && Occupies(m, w.threads[k]) && w.threads[k].author == w.bot ==>
      !w.threads[k].resolved
  }

  /** A publisher's first listing finds no occupant; others keep the occupants open. */
  ghost predicate Admissible(m: Marker, s: System, mv: Move) {
    match mv
    case Others(moved) => OthersKeep(m, s.world, moved)
    case Call(i, _) => i < |s.publishers| && s.publishers[i].pc.Listing? ==> Occ(m, s.world) == []
  }

  // ----- The invariant -----

  ghost predicate HasOther(m: Marker, w: World, id: string) {
    exists k :: && 0 <= k < |w.threads| && w.threads[k].id == id
                && !(Occupies(m, w.threads[k]) && w.threads[k].author == w.bot)
  }

  ghost predicate HasOpenOccupant(m: Marker, w: World, id: string) {
    exists k :: 0 <= k < |w.threads| && w.threads[k].id == id && IsOpenOccupant(m, w, w.threads[k])
  }

  ghost predicate IsOpenOccupant(m: Marker, w: World, t: Thread) {
    Occupies(m, t) && t.author == w.bot && !t.resolved
  }

  /** The publisher has created its thread, and this is its id. */
  ghost function OwnId(pc: Pc): Option<string> {
    match pc
    case Rescanning(_, r) => if |r.operations| == 1 then Some(r.operations[0].targetId) else None
    case Done(Published(r)) => if |r.operations| == 1 then Some(r.operations[0].targetId) else None
    case _ => None
  }

  ghost predicate PublisherInv(d: Desired, w: World, pc: Pc)
    requires d.thread.Some?
  {
    var m := d.thread.value.marker;
    && Fits(d, pc)
    && (OwnId(pc).Some? ==> HasOpenOccupant(m, w, OwnId(pc).value))
    && match pc
       case Superseding(existing, todo) =>
         Occupants(m, existing) == [] && forall i :: 0 <= i < |todo| ==> HasOther(m, w, todo[i])
       case Rescanning(mode, _) => mode == OpenMode && OwnId(pc).Some?
       case Done(out) => out.Published? ==> OwnId(pc).Some?
       case _ => pc.ListingNotes? || pc.Upserting? || pc.Listing? || pc.Creating?
  }

  ghost predicate Inv(m: Marker, jobs: seq<Job>, s: System)
    requires Rivals(m, jobs)
  {
    && Valid(s.world) && AllOccupantsOpen(m, s.world) && |jobs| == |s.publishers|
    && (forall i :: 0 <= i < |jobs| ==> PublisherInv(jobs[i].desired, s.world, s.publishers[i].pc))
    && (forall i, j :: 0 <= i < j < |jobs| && OwnId(s.publishers[i].pc).Some? ==>
          OwnId(s.publishers[i].pc) != OwnId(s.publishers[j].pc))
    && (forall i, j :: 0 <= i < j < |jobs| ==>
          !(Succeeded(s.publishers[i]) && Succeeded(s.publishers[j])))
  }

  ghost predicate Succeeded(p: Publisher) {
    p.pc.Done? && p.pc.outcome.Published?
  }

  // ----- What keeps the facts about ids -----

  /** The world changed so that facts about present ids survive. */
  ghost predicate Extends(m: Marker, w: World, w': World) {
    && Valid(w') && AllOccupantsOpen(m, w') && w'.bot == w.bot
    && (forall k :: 0 <= k < |w.threads| ==> StaysIn(w.threads[k], w'))
  }

  lemma {:induction false} ExtendsKeeps(m: Marker, w: World, w': World, id: string)
    requires Extends(m, w, w')
    ensures HasOther(m, w, id) ==> HasOther(m, w', id)
    ensures HasOpenOccupant(m, w, id) ==> HasOpenOccupant(m, w', id)
  {
    hide MintId;
    if HasOther(m, w, id) {
      var k :| && 0 <= k < |w.threads| && w.threads[k].id == id
               && !(Occupies(m, w.threads[k]) && w.threads[k].author == w.bot);
      assert StaysIn(w.threads[k], w');
    }
    if HasOpenOccupant(m, w, id) {
      var k :| 0 <= k < |w.threads| && w.threads[k].id == id && IsOpenOccupant(m, w, w.threads[k]);
      assert StaysIn(w.threads[k], w');
    }
  }

  lemma {:induction false} ExtendsPublisher(d: Desired, w: World, w': World, pc: Pc)
    requires d.thread.Some? && Extends(d.thread.value.marker, w, w') && PublisherInv(d, w, pc)
    ensures PublisherInv(d, w', pc)
  {
    hide HasOther, HasOpenOccupant, Extends, Occupants;
    var m := d.thread.value.marker;
    if OwnId(pc).Some? { ExtendsKeeps(m, w, w', OwnId(pc).value); }
    if pc.Superseding? {
      forall i | 0 <= i < |pc.todo|
        ensures HasOther(m, w', pc.todo[i])
      {
        ExtendsKeeps(m, w, w', pc.todo[i]);
      }
    }
  }

  lemma {:induction false} ResolveOtherExtends(m: Marker, w: World, id: string)
    requires Valid(w) && AllOccupantsOpen(m, w) && HasOther(m, w, id)
    ensures Extends(m, w, ResolveOne(w, id))
  {
    hide MintId;
    var w' := ResolveOne(w, id);
    var o :| && 0 <= o < |w.threads| && w.threads[o].id == id
             && !(Occupies(m, w.threads[o]) && w.threads[o].author == w.bot);
    ResolveChanges(w, id, o);
    forall k | 0 <= k < |w.threads|
      ensures StaysIn(w.threads[k], w')
    {
      assert w'.threads[k].id == w.threads[k].id;
    }
  }

  /** With distinct ids, resolving an id touches one thread and only its resolved flag. */
  lemma {:induction false} ResolveChanges(w: World, id: string, o: nat)
    requires Valid(w) && o < |w.threads| && w.threads[o].id == id
    ensures var w' := ResolveOne(w, id);
            && Valid(w')
            && |w'.threads| == |w.threads|
            && (forall k :: 0 <= k < |w.threads| && k != o ==> w'.threads[k] == w.threads[k])
            && w'.threads[o] == w.threads[o].(resolved := true)
  {
    hide MintId;
    var w' := ResolveOne(w, id);
    assert forall k :: 0 <= k < |w.threads| ==> w'.threads[k].id == w.threads[k].id;
  }

  lemma {:induction false} CreateExtends(d: Desired, w: World)
    requires d.thread.Some? && Valid(w) && AllOccupantsOpen(d.thread.value.marker, w)
    ensures var m := d.thread.value.marker;
            var w' := Effect(d, Creating, w);
            Extends(m, w, w') && HasOpenOccupant(m, w', MintId(w.nextId))
  {
    hide Numeral;
    var m := d.thread.value.marker;
    var w' := Effect(d, Creating, w);
    forall k | 0 <= k < |w.threads|
      ensures StaysIn(w.threads[k], w')
    {
      assert w'.threads[k] == w.threads[k];
    }
    forall n: nat | n > w.nextId
      ensures MintId(n) != MintId(w.nextId)
    {
      MintInjective(n, w.nextId);
    }
    assert IsOpenOccupant(m, w', w'.threads[|w.threads|]);
  }

  lemma {:induction false} SameThreadsExtends(m: Marker, w: World, w': World)
    requires Valid(w) && AllOccupantsOpen(m, w)
    requires w'.threads == w.threads && w'.bot == w.bot && w'.nextId >= w.nextId
    ensures Extends(m, w, w')
  {
    hide MintId;
    forall k | 0 <= k < |w.threads|
      ensures StaysIn(w.threads[k], w')
    {}
  }

  lemma {:induction false} StaleAreOthers(m: Marker, w: World)
    ensures var todo := StaleIds(m, BotThreads(w));
            forall i :: 0 <= i < |todo| ==> HasOther(m, w, todo[i])
  {
    var stale := Filter(StaleFilter(m), BotThreads(w));
    FilterMembers(StaleFilter(m), BotThreads(w));
    FilterMembers(BotFilter(w.bot), w.threads);
    forall i | 0 <= i < |stale|
      ensures HasOther(m, w, stale[i].id)
    {
      assert stale[i] in stale;
      var k :| 0 <= k < |w.threads| && w.threads[k] == stale[i];
    }
  }

  /** The caller's own state after its call, against the world after its call. */
  lemma {:induction false} CallerStep(d: Desired, pre: Preconditions, p: Publisher, w: World, fault: Fault)
    requires d.thread.Some? && d.clearSlot.None? && Valid(w) && AllOccupantsOpen(d.thread.value.marker, w)
    requires PublisherInv(d, w, p.pc) && !p.pc.Done?
    requires p.pc.Listing? ==> Occ(d.thread.value.marker, w) == []
    ensures Extends(d.thread.value.marker, w, StepWorld(d, p, w, fault))
    ensures PublisherInv(d, StepWorld(d, p, w, fault), StepPublisher(d, pre, p, w, fault).pc)
  {
    hide Extends, HasOther, HasOpenOccupant, StaleIds, RescanAccepts, BotThreads, SummaryIndex, MintId, Valid,
         AllOccupantsOpen;
    var m := d.thread.value.marker;
    var w' := StepWorld(d, p, w, fault);
    match p.pc {
      case Superseding(existing, todo) =>
        SameThreadsExtends(m, w, w);
        ResolveOtherExtends(m, w, todo[0]);
        if fault == Served {
          ExtendsPublisher(d, w, w', p.pc);
        }
      case Creating =>
        SameThreadsExtends(m, w, w);
        CreateExtends(d, w);
      case Listing =>
        SameThreadsExtends(m, w, w');
        StaleAreOthers(m, w);
        ExtendsAll(m, w, w', StaleIds(m, BotThreads(w)));
      case Rescanning(_, _) =>
        SameThreadsExtends(m, w, w');
        ExtendsPublisher(d, w, w', p.pc);
      case _ =>
        SameThreadsExtends(m, w, w');
    }
  }

  lemma {:induction false} ExtendsAll(m: Marker, w: World, w': World, ids: seq<string>)
    requires Extends(m, w, w') && forall i :: 0 <= i < |ids| ==> HasOther(m, w, ids[i])
    ensures forall i :: 0 <= i < |ids| ==> HasOther(m, w', ids[i])
  {
    hide Extends, HasOther;
    forall i | 0 <= i < |ids|
      ensures HasOther(m, w', ids[i])
    {
      ExtendsKeeps(m, w, w', ids[i]);
    }
  }

  /** Two open occupants make the rescan refuse. */
  lemma {:induction false} TwoOpenRefused(m: Marker, w: World, a: string, b: string)
    requires HasOpenOccupant(m, w, a) && HasOpenOccupant(m, w, b) && a != b
    ensures !RescanAccepts(BotThreads(w), m, OpenMode)
  {
    hide HasOpenOccupant;
    var x := ListedOpen(m, w, a);
    var y := ListedOpen(m, w, b);
    TwoMembers(Filter(OpenFilter(), Occ(m, w)), x, y);
  }

  lemma {:induction false} ListedOpen(m: Marker, w: World, id: string) returns (t: Thread)
    requires HasOpenOccupant(m, w, id)
    ensures t.id == id && t in Filter(OpenFilter(), Occ(m, w))
  {
    var i :| 0 <= i < |w.threads| && w.threads[i].id == id && IsOpenOccupant(m, w, w.threads[i]);
    t := w.threads[i];
    assert t in w.threads;
    FilterMembers(BotFilter(w.bot), w.threads);
    FilterMembers(OccupantFilter(m), BotThreads(w));
    FilterMembers(OpenFilter(), Occ(m, w));
  }

  lemma TwoMembers<T>(s: seq<T>, x: T, y: T)
    requires x in s && y in s && x != y
    ensures |s| >= 2
  {}

  /** Only creating a thread gives a publisher an own id, and that id is new. */
  lemma {:induction false} OwnIdStep(d: Desired, pre: Preconditions, p: Publisher, w: World, fault: Fault)
    requires d.thread.Some? && d.clearSlot.None? && PublisherInv(d, w, p.pc) && !p.pc.Done?
    requires p.pc.Listing? ==> Occ(d.thread.value.marker, w) == []
    ensures var q := StepPublisher(d, pre, p, w, fault).pc;
            || OwnId(q) == OwnId(p.pc) || OwnId(q) == None
            || (p.pc.Creating? && OwnId(q) == Some(MintId(w.nextId)))
  {
    hide HasOther, HasOpenOccupant, StaleIds, RescanAccepts, BotThreads, SummaryIndex, MintId;
  }

  lemma {:induction false} NotFresh(m: Marker, w: World, id: string)
    requires Valid(w) && HasOpenOccupant(m, w, id)
    ensures id != MintId(w.nextId)
  {
    hide MintId;
  }

  lemma {:induction false} CallKeepsInv(m: Marker, jobs: seq<Job>, s: System, i: nat, fault: Fault)
    requires Rivals(m, jobs) && Inv(m, jobs, s)
    requires i < |s.publishers| && !s.publishers[i].pc.Done?
    requires s.publishers[i].pc.Listing? ==> Occ(m, s.world) == []
    ensures AllFit(jobs, s) && Inv(m, jobs, Apply(jobs, s, Call(i, fault)))
  {
    hide Extends, PublisherInv, HasOpenOccupant, MintId, OwnId, StepPublisher, StepWorld, Fits;
    var d, pre := jobs[i].desired, jobs[i].pre;
    var p := s.publishers[i];
    assert PublisherInv(d, s.world, p.pc);
    FitsAll(m, jobs, s);
    var s' := Apply(jobs, s, Call(i, fault));
    CallerStep(d, pre, p, s.world, fault);
    ExtendsValid(m, s.world, s'.world);
    forall j | 0 <= j < |jobs|
      ensures PublisherInv(jobs[j].desired, s'.world, s'.publishers[j].pc)
    {
      if j != i { ExtendsPublisher(jobs[j].desired, s.world, s'.world, s.publishers[j].pc); }
    }
    forall j | 0 <= j < |jobs| && j != i
      ensures OwnId(s'.publishers[i].pc).Some? ==> OwnId(s'.publishers[j].pc) != OwnId(s'.publishers[i].pc)
      ensures !(Succeeded(s'.publishers[i]) && Succeeded(s'.publishers[j]))
    {
      CallerAgainst(d, pre, p, jobs[j].desired, s.publishers[j], s.world, fault);
    }
  }

  lemma {:induction false} FitsAll(m: Marker, jobs: seq<Job>, s: System)
    requires Rivals(m, jobs) && Inv(m, jobs, s)
    ensures AllFit(jobs, s)
  {
    hide HasOpenOccupant, HasOther, OwnId, Occupants;
    forall i | 0 <= i < |jobs|
      ensures Fits(jobs[i].desired, s.publishers[i].pc)
    {
      assert PublisherInv(jobs[i].desired, s.world, s.publishers[i].pc);
    }
  }

  lemma ExtendsValid(m: Marker, w: World, w': World)
    requires Extends(m, w, w')
    ensures Valid(w') && AllOccupantsOpen(m, w')
  {}

  /** The caller's step against one other publisher: ids stay apart, and they do not both succeed. */
  lemma {:induction false} CallerAgainst(
    d: Desired, pre: Preconditions, p: Publisher, e: Desired, other: Publisher, w: World, fault: Fault)
    requires d.thread.Some? && d.clearSlot.None? && Valid(w) && Rival(d.thread.value.marker, e)
    requires PublisherInv(d, w, p.pc) && !p.pc.Done? && PublisherInv(e, w, other.pc)
    requires p.pc.Listing? ==> Occ(d.thread.value.marker, w) == []
    requires OwnId(p.pc).Some? ==> OwnId(other.pc) != OwnId(p.pc)
    ensures var q := StepPublisher(d, pre, p, w, fault);
            && (OwnId(q.pc).Some? ==> OwnId(other.pc) != OwnId(q.pc))
            && !(Succeeded(q) && Succeeded(other))
  {
    hide HasOpenOccupant, HasOther, MintId, RescanAccepts, BotThreads, StaleIds, Valid, SummaryIndex;
    var m := d.thread.value.marker;
    OwnIdStep(d, pre, p, w, fault);
    if OwnId(other.pc).Some? {
      NotFresh(m, w, OwnId(other.pc).value);
      if p.pc.Rescanning? {
        TwoOpenRefused(m, w, OwnId(p.pc).value, OwnId(other.pc).value);
      }
    }
  }

  lemma {:induction false} OthersKeepInv(m: Marker, jobs: seq<Job>, s: System, moved: World)
    requires Rivals(m, jobs) && Inv(m, jobs, s) && OthersKeep(m, s.world, moved)
    ensures Inv(m, jobs, s.(world := moved))
  {
    hide PublisherInv, HasOpenOccupant, MintId, OwnId;
    assert Extends(m, s.world, moved);
    forall j | 0 <= j < |jobs|
      ensures PublisherInv(jobs[j].desired, moved, s.publishers[j].pc)
    {
      ExtendsPublisher(jobs[j].desired, s.world, moved, s.publishers[j].pc);
    }
  }

  // ----- Whole interleavings -----

  ghost function Exec(jobs: seq<Job>, s: System, moves: seq<Move>): System
    requires AllFit(jobs, s)
    decreases |moves|
  {
    hide AllFit;
    if moves == [] then s else Exec(jobs, Apply(jobs, s, moves[0]), moves[1..])
  }

  ghost predicate AllAdmissible(m: Marker, jobs: seq<Job>, s: System, moves: seq<Move>)
    requires AllFit(jobs, s)
    decreases |moves|
  {
    hide AllFit;
    moves != [] ==> Admissible(m, s, moves[0]) && AllAdmissible(m, jobs, Apply(jobs, s, moves[0]), moves[1..])
  }

  lemma {:induction false} ExecKeepsInv(m: Marker, jobs: seq<Job>, s: System, moves: seq<Move>)
    requires Rivals(m, jobs) && Inv(m, jobs, s) && AllFit(jobs, s) && AllAdmissible(m, jobs, s, moves)
    ensures Inv(m, jobs, Exec(jobs, s, moves))
    decreases |moves|
  {
    hide Inv, Rivals, AllFit, StepPublisher, StepWorld, OthersKeep, Occ;
    if moves != [] {
      match moves[0] {
        case Others(moved) => OthersKeepInv(m, jobs, s, moved);
        case Call(i, fault) =>
          if i < |s.publishers| && !s.publishers[i].pc.Done? { CallKeepsInv(m, jobs, s, i, fault); }
      }
      ExecKeepsInv(m, jobs, Apply(jobs, s, moves[0]), moves[1..]);
    }
  }

  ghost function Launch(jobs: seq<Job>, w: World): (s: System)
    ensures AllFit(jobs, s)
  {
    hide Start, Fits;
    System(w, seq(|jobs|, i requires 0 <= i < |jobs| => Start(jobs[i].desired, jobs[i].pre)))
  }

  lemma {:induction false} LaunchInv(m: Marker, jobs: seq<Job>, w: World)
    requires Rivals(m, jobs) && Valid(w) && AllOccupantsOpen(m, w)
    ensures Inv(m, jobs, Launch(jobs, w))
  {
    hide Valid, AllOccupantsOpen, HasOpenOccupant, HasOther;
    forall i | 0 <= i < |jobs|
      ensures PublisherInv(jobs[i].desired, w, Launch(jobs, w).publishers[i].pc)
      ensures OwnId(Launch(jobs, w).publishers[i].pc) == None && !Succeeded(Launch(jobs, w).publishers[i])
    {
      assert Rival(m, jobs[i].desired);
    }
  }

  /**
   However many publishers of one marker race, each with a request of its own, if each one's first
   listing found no occupant and nobody resolves an occupant meanwhile, at most one of them reports
   success.
   */
  lemma {:induction false} AtMostOneSucceeds(m: Marker, jobs: seq<Job>, w: World, moves: seq<Move>, i: nat, j: nat)
    requires Rivals(m, jobs) && Valid(w) && AllOccupantsOpen(m, w)
    requires AllAdmissible(m, jobs, Launch(jobs, w), moves)
    requires i < j < |Exec(jobs, Launch(jobs, w), moves).publishers|
    ensures var end := Exec(jobs, Launch(jobs, w), moves);
            !(Succeeded(end.publishers[i]) && Succeeded(end.publishers[j]))
  {
    hide Exec, PublisherInv, OwnId, AllAdmissible, Rivals, Launch;
    LaunchInv(m, jobs, w);
    ExecKeepsInv(m, jobs, Launch(jobs, w), moves);
  }

  // ----- Repair afterwards -----

  ghost predicate DistinctNums(ts: seq<Thread>) {
    forall i, j :: 0 <= i < j < |ts| ==> ForgeIdNum(ts[i].id) != ForgeIdNum(ts[j].id)
  }

  /** The marker has exactly one open thread, and it is the lowest-numbered of the earlier occupants, if any. */
  ghost predicate OneOpenLowest(m: Marker, before: World, after: World) {
    var open := Filter(OpenFilter(), Occ(m, after));
    var occ := Occ(m, before);
    && |open| == 1
    && (occ != [] ==>
          && (exists k :: 0 <= k < |occ| && occ[k].id == open[0].id)
          && (forall k :: 0 <= k < |occ| && occ[k].id != open[0].id ==>
                ForgeIdNum(open[0].id) < ForgeIdNum(occ[k].id)))
  }

  lemma {:induction false} OccOpen(m: Marker, w: World)
    requires AllOccupantsOpen(m, w)
    ensures forall k :: 0 <= k < |Occ(m, w)| ==> !Occ(m, w)[k].resolved
  {
    FilterMembers(BotFilter(w.bot), w.threads);
    FilterMembers(OccupantFilter(m), BotThreads(w));
    forall k | 0 <= k < |Occ(m, w)|
      ensures !Occ(m, w)[k].resolved
    {
      assert Occ(m, w)[k] in w.threads;
    }
  }

  /** What settling leaves open, when the occupants were all open and their numbers differ. */
  lemma {:induction false} SettledLowest(m: Marker, w: World)
    requires Valid(w) && AllOccupantsOpen(m, w) && DistinctNums(Occ(m, w))
    ensures OneOpenLowest(m, w, Settled(m, w))
    ensures Verdict(m, w).Published?
  {
    hide ForgeIdNum, Canonical, ReceiptOf, RepairReceipt, BotThreads, Occupants, ToResolve, MintId;
    var occ, a := Occ(m, w), ToResolve(m, w);
    OccOpen(m, w);
    OccResolve(m, a, w);
    if occ == [] {
      ResolveNoneOcc(m, w);
      CreatedOcc(m, WithResolved(a, w));
    } else {
      CanonicalMember(occ);
      var c := Canonical(occ);
      SettledOpen(m, w);
      CanonicalStrict(occ);
    }
  }

  lemma {:induction false} ResolveNoneOcc(m: Marker, w: World)
    requires Occ(m, w) == []
    ensures Occ(m, WithResolved(ToResolve(m, w), w)) == []
  {
    hide ToResolve;
    OccResolve(m, ToResolve(m, w), w);
  }

  lemma {:induction false} CreatedOcc(m: Marker, w: World)
    requires Occ(m, w) == []
    ensures Filter(OpenFilter(), Occ(m, WithThread(m, w))) == [NewThread(m, w)]
  {
    hide MintId;
    var t := NewThread(m, w);
    assert [t][1..] == [];
    FilterConcat(BotFilter(w.bot), w.threads, [t]);
    assert BotThreads(WithThread(m, w)) == BotThreads(w) + [t];
    FilterConcat(OccupantFilter(m), BotThreads(w), [t]);
    assert Occ(m, WithThread(m, w)) == [t];
  }

  lemma {:induction false} SettledOpen(m: Marker, w: World)
    requires Valid(w) && Occ(m, w) != [] && !Canonical(Occ(m, w)).resolved
    requires |Occ(m, w)| == 1 ==> !Occ(m, w)[0].resolved
    ensures Filter(OpenFilter(), Occ(m, Settled(m, w))) == [Canonical(Occ(m, w))]
  {
    hide ForgeIdNum, BotThreads, Occupants, ToResolve, MintId, Canonical;
    var occ, a := Occ(m, w), ToResolve(m, w);
    var c := Canonical(occ);
    CanonicalMember(occ);
    OccResolve(m, a, w);
    var after := Resolve(a, occ);
    CanonicalKept(m, w, c) by { if |occ| == 1 { assert occ[0] == c; } }
    var k :| 0 <= k < |occ| && occ[k] == c;
    assert after[k] == c;
    if |occ| == 1 {
      KeptOpen(m, w);
    } else {
      RepairedOpen(m, w);
    }
    FilterMembers(OpenFilter(), after);
    assert c in Filter(OpenFilter(), after);
  }

  lemma {:induction false} CanonicalStrict(occ: seq<Thread>)
    requires occ != [] && DistinctNums(occ)
    ensures forall k :: 0 <= k < |occ| && occ[k].id != Canonical(occ).id ==>
              ForgeIdNum(Canonical(occ).id) < ForgeIdNum(occ[k].id)
  {
    hide ForgeIdNum;
    ArgMinLeast(NumOf(), occ);
    var c :| 0 <= c < |occ| && occ[c] == Canonical(occ);
    forall k | 0 <= k < |occ| && occ[k].id != Canonical(occ).id
      ensures ForgeIdNum(Canonical(occ).id) < ForgeIdNum(occ[k].id)
    {
      assert NumOf()(occ[k]) == ForgeIdNum(occ[k].id) && NumOf()(occ[c]) == ForgeIdNum(occ[c].id);
      assert k != c;
    }
  }

  /**
   After any such race, one undisturbed reconcile of the marker succeeds and leaves exactly one open thread for
   the marker: the one with the numerically lowest id.
   */
  lemma {:induction false} RaceThenReconcile(
    m: Marker, jobs: seq<Job>, w: World, moves: seq<Move>, d: Desired, pre: Preconditions)
    requires Rivals(m, jobs) && Rival(m, d) && Valid(w) && AllOccupantsOpen(m, w)
    requires d.summary.Some? ==> d.summary.value.marker.artifact.kind == "summary-comment"
    requires AllAdmissible(m, jobs, Launch(jobs, w), moves)
    requires DistinctNums(Occ(m, Exec(jobs, Launch(jobs, w), moves).world))
    ensures var raced := Exec(jobs, Launch(jobs, w), moves).world;
            var e := Run(d, pre, Start(d, pre), raced, []);
            e.publisher.pc.outcome.Published? && OneOpenLowest(m, raced, e.world)
  {
    hide Exec, PublisherInv, OwnId, AllAdmissible, Rivals, Launch, Run, ForgeIdNum, Valid, AllOccupantsOpen, Settled,
         Verdict, Occ;
    LaunchInv(m, jobs, w);
    ExecKeepsInv(m, jobs, Launch(jobs, w), moves);
    var raced := Exec(jobs, Launch(jobs, w), moves).world;
    QuietReview(d, pre, raced);
    var s := Summarised(d, raced);
    var end := Run(d, pre, Start(d, pre), raced, []).world;
    SummaryKeepsThreads(m, d, raced);
    SettledLowest(m, s);
    OccForgets(m, end, Settled(m, s));
  }

  lemma {:induction false} SummaryKeepsThreads(m: Marker, d: Desired, w: World)
    requires Valid(w) && AllOccupantsOpen(m, w)
    ensures var s := Summarised(d, w);
            Valid(s) && AllOccupantsOpen(m, s) && Occ(m, s) == Occ(m, w)
  {
    hide MintId, SummaryIndex;
    SummarisedValid(d, w);
    UpsertKeeps(d, w);
  }

  lemma {:induction false} OccForgets(m: Marker, w: World, v: World)
    requires Forget(w) == Forget(v)
    ensures Occ(m, w) == Occ(m, v)
  {
    SameThreads(w, v);
  }

  // ----- Repairs do not depend on listing order -----

  lemma {:induction false} NumsPermute(a: seq<Thread>, b: seq<Thread>)
    requires Permutation(a, b) && DistinctNums(a) && |a| > 0
    ensures |b| == |a| && Canonical(a) == Canonical(b)
  {
    hide ForgeIdNum;
    PermutationMembers(a, b);
    ArgMinLeast(NumOf(), a);
    ArgMinLeast(NumOf(), b);
    assert Canonical(a) in b && Canonical(b) in a;
    var i :| 0 <= i < |a| && a[i] == Canonical(a);
    var j :| 0 <= j < |a| && a[j] == Canonical(b);
    var k :| 0 <= k < |b| && b[k] == Canonical(a);
    assert NumOf()(a[i]) <= NumOf()(a[j]) && NumOf()(b[k]) >= NumOf()(Canonical(b));
  }

  /** The canonical thread, the repairs and the whole receipt are the same for every listing order. */
  lemma {:induction false} RepairOrderIndependent(a: seq<Thread>, b: seq<Thread>)
    requires Permutation(a, b) && DistinctNums(a) && |a| >= 2
    ensures |b| >= 2
    ensures RepairReceipt(Canonical(a).id, DuplicateIds(a)) == RepairReceipt(Canonical(b).id, DuplicateIds(b))
  {
    hide ForgeIdNum, Canonical, ReceiptOf;
    NumsPermute(a, b);
    var id := Canonical(a).id;
    var keep := OtherIdFilter(id);
    FilterPermutation(keep, a);
    FilterPermutation(keep, b);
    assert Permutation(Filter(keep, a), Filter(keep, b));
    MapPermutes(IdOf(), Filter(keep, a), Filter(keep, b));
    var ra, rb := Map(RepairAgainst(id), DuplicateIds(a)), Map(RepairAgainst(id), DuplicateIds(b));
    MapPermutes(RepairAgainst(id), DuplicateIds(a), DuplicateIds(b));
    RepairsSeparate(id, a);
    NumOrder();
    SortBySorted(ByRepairedNum(), ra);
    SortBySorted(ByRepairedNum(), rb);
    var sa := SortBy(ByRepairedNum(), ra);
    PermutationMembers(sa, ra);
    SortedUnique(ByRepairedNum(), sa, SortBy(ByRepairedNum(), rb));
  }

  lemma {:induction false} NumOrder()
    ensures TotalPreorder(ByRepairedNum())
  {
    hide ForgeIdNum;
  }

  lemma {:induction false} RepairsSeparate(id: string, a: seq<Thread>)
    requires DistinctNums(a)
    ensures Separates(ByRepairedNum(), Map(RepairAgainst(id), DuplicateIds(a)))
  {
    hide ForgeIdNum, Canonical;
    if |a| >= 2 {
      var keep := OtherIdFilter(Canonical(a).id);
      var others := Filter(keep, a);
      FilterMembers(keep, a);
      var rs := Map(RepairAgainst(id), DuplicateIds(a));
      forall x, y | x in rs && y in rs && ByRepairedNum()(x, y) && ByRepairedNum()(y, x)
        ensures x == y
      {
        var i :| 0 <= i < |rs| && rs[i] == x;
        var j :| 0 <= j < |rs| && rs[j] == y;
        assert others[i] in a && others[j] in a;
        var k :| 0 <= k < |a| && a[k] == others[i];
        var l :| 0 <= l < |a| && a[l] == others[j];
        assert x.repaired == a[k].id && y.repaired == a[l].id;
      }
    }
  }

  // ----- Minted ids -----

  /** Ids the forge mints parse back to the number they were minted from, so they are numerically distinct. */
  lemma {:induction false} MintedNum(n: nat)
    requires n <= MAX_INT
    ensures ForgeIdNum(MintId(n)) == n
  {
    var digits := Numeral(n);
    assert '/' !in digits;
    assert ["note", digits][1..] == [digits];
    assert Join(["note", digits], '/') == "note" + ['/'] + Join([digits], '/');
    assert MintId(n) == Join(["note", digits], '/');
    SplitJoin(["note", digits], '/');
    NumeralRoundTrip(n);
  }

  lemma {:induction false} FilterPair(keep: Thread -> bool, x: Thread, y: Thread)
    requires keep(x) && keep(y)
    ensures Filter(keep, [x, y]) == [x, y]
  {
    assert [x, y][1..] == [y] && [y][1..] == [] && Filter(keep, [y]) == [y];
  }

  lemma {:induction false} LeastOfPair(x: Thread, y: Thread)
    requires ForgeIdNum(x.id) < ForgeIdNum(y.id)
    ensures Canonical([x, y]) == x
  {
    hide ForgeIdNum;
    assert [x, y][..1] == [x];
    assert ArgMin(NumOf(), [x]) == x;
  }

  /**
   What `SucceedsExactlyWhen` shuts out does happen: when a reviewer resolved the lower-numbered of two
   copies, every reconcile of that marker fails, the first and each one after it.
   */
  lemma {:induction false} ResolvedLowestSticks(d: Desired, pre: Preconditions, w: World, low: Thread, high: Thread)
    requires d.thread.Some? && d.clearSlot.None? && d.summary.None? && w.threads == [low, high] && w.nextId == 3
    requires low == Thread(MintId(1), d.thread.value.marker, w.bot, true)
    requires high == Thread(MintId(2), d.thread.value.marker, w.bot, false)
    ensures var first := Run(d, pre, Start(d, pre), w, []);
            var again := Run(d, pre, Start(d, pre), first.world, []);
            first.publisher.Result().Failed? && again.publisher.Result().Failed?
  {
    hide Run, MintId, ForgeIdNum;
    MintedNum(1);
    MintedNum(2);
    assert Valid(w) by {
      forall n: nat | n >= 3
        ensures MintId(n) != MintId(1) && MintId(n) != MintId(2)
      {
        if MintId(n) == MintId(1) { MintInjective(n, 1); }
        if MintId(n) == MintId(2) { MintInjective(n, 2); }
      }
    }
    var m := d.thread.value.marker;
    FilterPair(BotFilter(w.bot), low, high);
    FilterPair(OccupantFilter(m), low, high);
    LeastOfPair(low, high);
    SucceedsExactlyWhen(d, pre, w);
    RerunChangesNothing(d, pre, w);
  }
}
