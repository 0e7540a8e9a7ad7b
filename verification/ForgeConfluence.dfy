/**
 Crash confluence of the REVIEW path: wherever a reconcile is cut off, running it again ends
 in the state, and with the receipt, of a run that was never cut off.
 */
module ForgeConfluence {
  import opened Sequences
  import opened Strings
  import opened Forge

  // ----- Resolving sets of threads -----

  ghost function IdSet(ids: seq<string>): set<string> {
    set i | 0 <= i < |ids| :: ids[i]
  }

  ghost predicate DistinctIds(ts: seq<Thread>) {
    forall i, j :: 0 <= i < j < |ts| ==> ts[i].id != ts[j].id
  }

  ghost predicate IgnoresResolved(keep: Thread -> bool) {
    forall t: Thread :: keep(t) == keep(t.(resolved := true))
  }

  lemma ResolveTwice(a: set<string>, b: set<string>, ts: seq<Thread>)
    ensures Resolve(a, Resolve(b, ts)) == Resolve(a + b, ts)
  {}

  lemma ResolveConcat(a: set<string>, ts: seq<Thread>, us: seq<Thread>)
    ensures Resolve(a, ts + us) == Resolve(a, ts) + Resolve(a, us)
  {}

  lemma ResolveNone(ts: seq<Thread>)
    ensures Resolve({}, ts) == ts
  {}

  lemma {:induction false} FilterResolve(keep: Thread -> bool, a: set<string>, ts: seq<Thread>)
    requires IgnoresResolved(keep)
    ensures Filter(keep, Resolve(a, ts)) == Resolve(a, Filter(keep, ts))
  {
    if ts == [] {
      assert Resolve(a, ts) == [];
    } else {
      var head := Resolve(a, ts)[0];
      assert Resolve(a, ts)[1..] == Resolve(a, ts[1..]);
      FilterResolve(keep, a, ts[1..]);
      assert keep(head) == keep(ts[0]);
      ResolveConcat(a, [ts[0]], Filter(keep, ts[1..]));
      assert Resolve(a, [ts[0]]) == [head];
    }
  }

  lemma {:induction false} FilterDistinctIds(keep: Thread -> bool, ts: seq<Thread>)
    requires DistinctIds(ts)
    ensures DistinctIds(Filter(keep, ts))
  {
    if ts != [] {
      FilterDistinctIds(keep, ts[1..]);
      FilterMembers(keep, ts[1..]);
      var rest := Filter(keep, ts[1..]);
      forall j | 0 <= j < |rest|
        ensures rest[j].id != ts[0].id
      {
        assert rest[j] in ts[1..];
      }
    }
  }

  lemma {:induction false} CanonicalResolve(a: set<string>, ts: seq<Thread>)
    requires |ts| > 0
    ensures Canonical(Resolve(a, ts)).id == Canonical(ts).id
    ensures Canonical(Resolve(a, ts))
         == if Canonical(ts).id in a then Canonical(ts).(resolved := true) else Canonical(ts)
  {
    hide ForgeIdNum;
    var n := |ts| - 1;
    if n > 0 {
      CanonicalResolve(a, ts[..n]);
      assert Resolve(a, ts)[..n] == Resolve(a, ts[..n]);
    }
  }

  lemma {:induction false} DuplicatesResolve(a: set<string>, ts: seq<Thread>)
    ensures DuplicateIds(Resolve(a, ts)) == DuplicateIds(ts)
  {
    hide Canonical;
    if |ts| >= 2 {
      CanonicalResolve(a, ts);
      FilterResolve(OtherIdFilter(Canonical(ts).id), a, ts);
    }
  }

  /** The stale threads left after resolving `a`. */
  lemma {:induction false} StaleResolve(m: Marker, a: set<string>, ts: seq<Thread>)
    ensures IdSet(StaleIds(m, Resolve(a, ts))) == IdSet(StaleIds(m, ts)) - a
  {
    var before, after := Filter(StaleFilter(m), ts), Filter(StaleFilter(m), Resolve(a, ts));
    FilterMembers(StaleFilter(m), ts);
    FilterMembers(StaleFilter(m), Resolve(a, ts));
    forall i | 0 <= i < |after|
      ensures after[i].id in IdSet(StaleIds(m, ts)) - a
    {
      assert after[i] in Resolve(a, ts);
      var j :| 0 <= j < |ts| && Resolve(a, ts)[j] == after[i];
      assert ts[j] in before;
      var k :| 0 <= k < |before| && before[k] == ts[j];
      assert StaleIds(m, ts)[k] == after[i].id;
    }
    forall i | 0 <= i < |before| && before[i].id !in a
      ensures before[i].id in IdSet(StaleIds(m, Resolve(a, ts)))
    {
      assert before[i] in ts;
      var j :| 0 <= j < |ts| && ts[j] == before[i];
      assert Resolve(a, ts)[j] == before[i] && before[i] in after;
      var k :| 0 <= k < |after| && after[k] == before[i];
      assert StaleIds(m, Resolve(a, ts))[k] == before[i].id;
    }
  }

  // ----- The state a finished reconcile leaves -----

  ghost function Occ(m: Marker, w: World): seq<Thread> {
    Occupants(m, BotThreads(w))
  }

  ghost function Stale(m: Marker, w: World): set<string> {
    IdSet(StaleIds(m, BotThreads(w)))
  }

  ghost function Duplicates(m: Marker, w: World): set<string> {
    IdSet(DuplicateIds(Occ(m, w)))
  }

  ghost function ToResolve(m: Marker, w: World): set<string> {
    Stale(m, w) + Duplicates(m, w)
  }

  ghost function NewThread(m: Marker, w: World): Thread {
    Thread(MintId(w.nextId), m, w.bot, false)
  }

  ghost function WithThread(m: Marker, w: World): World {
    w.(threads := w.threads + [NewThread(m, w)], nextId := w.nextId + 1)
  }

  ghost function WithResolved(a: set<string>, w: World): World {
    w.(threads := Resolve(a, w.threads))
  }

  /** Stale occurrences and duplicates resolved; one thread created when there was none. */
  ghost function Settled(m: Marker, w: World): World {
    if Occ(m, w) == [] then WithThread(m, WithResolved(ToResolve(m, w), w)) else WithResolved(ToResolve(m, w), w)
  }

  ghost function Verdict(m: Marker, w: World): Outcome {
    var occ := Occ(m, w);
    if |occ| == 0 then Published(ReceiptOf([Operation(ThreadOp, MintId(w.nextId))]))
    else if |occ| == 1 then Published(ReceiptOf([Operation(ThreadOp, occ[0].id)]))
    else if Canonical(occ).resolved then Failed(RescanFailed)
    else Published(RepairReceipt(Canonical(occ).id, DuplicateIds(occ)))
  }

  ghost function Forget(w: World): World {
    w.(log := [])
  }

  lemma {:induction false} OccResolve(m: Marker, a: set<string>, w: World)
    ensures BotThreads(WithResolved(a, w)) == Resolve(a, BotThreads(w))
    ensures Occ(m, WithResolved(a, w)) == Resolve(a, Occ(m, w))
  {
    FilterResolve(BotFilter(w.bot), a, w.threads);
    FilterResolve(OccupantFilter(m), a, BotThreads(w));
  }

  /** Occupants are never stale, and the canonical occupant is never a duplicate. */
  lemma {:induction false} CanonicalKept(m: Marker, w: World, t: Thread)
    requires DistinctIds(w.threads)
    requires t in Occ(m, w)
    requires |Occ(m, w)| >= 2 ==> t.id == Canonical(Occ(m, w)).id
    ensures t.id !in ToResolve(m, w)
  {
    hide Canonical;
    var existing, occ := BotThreads(w), Occ(m, w);
    FilterDistinctIds(BotFilter(w.bot), w.threads);
    FilterMembers(OccupantFilter(m), existing);
    FilterMembers(StaleFilter(m), existing);
    var stale := Filter(StaleFilter(m), existing);
    forall i | 0 <= i < |stale|
      ensures stale[i].id != t.id
    {
      assert stale[i] in stale && t in existing;
    }
    if |occ| >= 2 {
      var others := Filter(OtherIdFilter(Canonical(occ).id), occ);
      FilterMembers(OtherIdFilter(Canonical(occ).id), occ);
      forall i | 0 <= i < |others|
        ensures others[i].id != t.id
      {
        assert others[i] in others;
      }
    }
  }

  /** Doing part of the resolving first changes neither the end state nor the verdict. */
  lemma {:induction false} ResolvedAbsorbed(m: Marker, w: World, a: set<string>)
    requires DistinctIds(w.threads) && a <= ToResolve(m, w)
    ensures Settled(m, WithResolved(a, w)) == Settled(m, w)
    ensures Verdict(m, WithResolved(a, w)) == Verdict(m, w)
  {
    hide BotThreads, Occupants, ReceiptOf, RepairReceipt, DuplicateIds, StaleIds, Canonical, MintId;
    var w', occ := WithResolved(a, w), Occ(m, w);
    OccResolve(m, a, w);
    StaleResolve(m, a, BotThreads(w));
    DuplicatesResolve(a, occ);
    assert ToResolve(m, w') + a == ToResolve(m, w);
    ResolveTwice(ToResolve(m, w'), a, w.threads);
    if |occ| >= 2 {
      CanonicalResolve(a, occ);
      CanonicalMember(occ);
      CanonicalKept(m, w, Canonical(occ));
    }
  }

  lemma {:induction false} CanonicalMember(occ: seq<Thread>)
    requires |occ| > 0
    ensures Canonical(occ) in occ
  {
    ArgMinLeast(NumOf(), occ);
  }

  /** The same once the missing thread has been created. */
  lemma {:induction false} CreatedAbsorbed(m: Marker, w: World, a: set<string>)
    requires Valid(w) && Occ(m, w) == [] && a <= ToResolve(m, w)
    ensures Settled(m, WithThread(m, WithResolved(a, w))) == Settled(m, w)
    ensures Verdict(m, WithThread(m, WithResolved(a, w))) == Verdict(m, w)
  {
    hide ReceiptOf, RepairReceipt, MintId;
    var w1 := WithResolved(a, w);
    var w2, t := WithThread(m, w1), NewThread(m, w1);
    OccResolve(m, a, w);
    assert Occ(m, w1) == [];
    FilterConcat(BotFilter(w.bot), w1.threads, [t]);
    assert BotThreads(w2) == BotThreads(w1) + [t] by { assert [t][1..] == []; }
    FilterConcat(OccupantFilter(m), BotThreads(w1), [t]);
    assert Occ(m, w2) == [t] by { assert [t][1..] == []; }
    FilterConcat(StaleFilter(m), BotThreads(w1), [t]);
    assert StaleIds(m, BotThreads(w2)) == StaleIds(m, BotThreads(w1)) by { assert [t][1..] == []; }
    StaleResolve(m, a, BotThreads(w));
    assert Duplicates(m, w2) == {} && Duplicates(m, w) == {};
    assert ToResolve(m, w2) + a == ToResolve(m, w);
    FreshNotStale(m, w);
    ResolveTwice(ToResolve(m, w2), a, w.threads);
    ResolveConcat(ToResolve(m, w2), w1.threads, [t]);
    assert Resolve(ToResolve(m, w2), [t]) == [t];
  }

  lemma {:induction false} FreshNotStale(m: Marker, w: World)
    requires Valid(w)
    ensures MintId(w.nextId) !in Stale(m, w)
  {
    hide MintId;
    FilterMembers(BotFilter(w.bot), w.threads);
    FilterMembers(StaleFilter(m), BotThreads(w));
    var stale := Filter(StaleFilter(m), BotThreads(w));
    forall i | 0 <= i < |stale|
      ensures stale[i].id != MintId(w.nextId)
    {
      assert stale[i] in w.threads;
    }
  }

  // ----- The rescan of the settled state -----

  lemma {:induction false} OpenCount(ts: seq<Thread>, c: nat)
    requires c < |ts|
    requires forall i :: 0 <= i < |ts| && i != c ==> ts[i].resolved
    ensures |Filter(OpenFilter(), ts)| == if ts[c].resolved then 0 else 1
  {
    if c > 0 {
      OpenCount(ts[1..], c - 1);
    } else {
      NoneOpen(ts[1..]);
    }
  }

  lemma {:induction false} NoneOpen(ts: seq<Thread>)
    requires forall i :: 0 <= i < |ts| ==> ts[i].resolved
    ensures Filter(OpenFilter(), ts) == []
  {
    if ts != [] {
      NoneOpen(ts[1..]);
    }
  }

  /** Nothing stale is open once the stale threads are resolved. */
  lemma {:induction false} NothingStale(m: Marker, a: set<string>, ts: seq<Thread>)
    requires IdSet(StaleIds(m, ts)) <= a
    ensures Filter(StaleFilter(m), Resolve(a, ts)) == []
  {
    StaleResolve(m, a, ts);
    if Filter(StaleFilter(m), Resolve(a, ts)) != [] {
      IdSetInhabited(StaleIds(m, Resolve(a, ts)));
    }
  }

  lemma {:induction false} IdSetInhabited(ids: seq<string>)
    requires ids != []
    ensures IdSet(ids) != {}
  {
    assert ids[0] in IdSet(ids);
  }

  /** After repair exactly the canonical thread can be open. */
  lemma {:induction false} RepairedOpen(m: Marker, w: World)
    requires DistinctIds(w.threads) && |Occ(m, w)| >= 2
    ensures |Filter(OpenFilter(), Resolve(ToResolve(m, w), Occ(m, w)))|
         == if Canonical(Occ(m, w)).resolved then 0 else 1
  {
    hide Canonical, Occupants, StaleIds, BotThreads;
    var occ, a := Occ(m, w), ToResolve(m, w);
    CanonicalMember(occ);
    var c :| 0 <= c < |occ| && occ[c] == Canonical(occ);
    CanonicalKept(m, w, occ[c]);
    OccDistinct(m, w);
    var others := Filter(OtherIdFilter(occ[c].id), occ);
    FilterMembers(OtherIdFilter(occ[c].id), occ);
    forall i | 0 <= i < |occ| && i != c
      ensures occ[i].id in a
    {
      assert occ[i] in others;
      var k :| 0 <= k < |others| && others[k] == occ[i];
      assert DuplicateIds(occ)[k] == occ[i].id;
    }
    OpenCount(Resolve(a, occ), c);
  }

  lemma {:induction false} OccDistinct(m: Marker, w: World)
    requires DistinctIds(w.threads)
    ensures DistinctIds(Occ(m, w))
  {
    FilterDistinctIds(BotFilter(w.bot), w.threads);
    FilterDistinctIds(OccupantFilter(m), BotThreads(w));
  }

  lemma {:induction false} KeptOpen(m: Marker, w: World)
    requires DistinctIds(w.threads) && |Occ(m, w)| == 1
    ensures Resolve(ToResolve(m, w), Occ(m, w)) == Occ(m, w)
    ensures |Filter(OpenFilter(), Occ(m, w))| == if Occ(m, w)[0].resolved then 0 else 1
  {
    hide Occupants, StaleIds, BotThreads;
    CanonicalKept(m, w, Occ(m, w)[0]);
    OpenCount(Occ(m, w), 0);
  }

  lemma {:induction false} SettledRescan(m: Marker, w: World, mode: Mode)
    requires Valid(w)
    requires |Occ(m, w)| >= 2 ==> mode == RepairMode
    requires |Occ(m, w)| == 1 ==> mode == (if Occ(m, w)[0].resolved then PreserveResolved else OpenMode)
    requires |Occ(m, w)| == 0 ==> mode == OpenMode
    ensures RescanAccepts(BotThreads(Settled(m, w)), m, mode) == Verdict(m, w).Published?
  {
    hide ReceiptOf, RepairReceipt, MintId, Canonical, DuplicateIds, StaleIds;
    var a := ToResolve(m, w);
    var w1 := WithResolved(a, w);
    OccResolve(m, a, w);
    NothingStale(m, a, BotThreads(w));
    if |Occ(m, w)| >= 2 {
      RepairedOpen(m, w);
    } else if |Occ(m, w)| == 1 {
      KeptOpen(m, w);
    } else {
      CreatedRescan(m, w1);
    }
  }

  lemma {:induction false} CreatedRescan(m: Marker, w: World)
    requires Occ(m, w) == [] && Filter(StaleFilter(m), BotThreads(w)) == []
    ensures RescanAccepts(BotThreads(WithThread(m, w)), m, OpenMode)
  {
    hide MintId;
    var t := NewThread(m, w);
    assert [t][1..] == [];
    FilterConcat(BotFilter(w.bot), w.threads, [t]);
    assert BotThreads(WithThread(m, w)) == BotThreads(w) + [t];
    FilterConcat(OccupantFilter(m), BotThreads(w), [t]);
    FilterConcat(StaleFilter(m), BotThreads(w), [t]);
    assert Occupants(m, BotThreads(w) + [t]) == [t];
    assert Filter(OpenFilter(), [t]) == [t];
  }

  // ----- The quiet run -----

  ghost function ResolveAll(w: World, todo: seq<string>): World
    decreases |todo|
  {
    if todo == [] then w else ResolveAll(ResolveOne(w, todo[0]), todo[1..])
  }

  lemma {:induction false} ResolveAllIs(w: World, todo: seq<string>)
    ensures Forget(ResolveAll(w, todo)) == Forget(WithResolved(IdSet(todo), w))
    decreases |todo|
  {
    if todo == [] {
      ResolveNone(w.threads);
      assert IdSet(todo) == {};
    } else {
      ResolveAllIs(ResolveOne(w, todo[0]), todo[1..]);
      ResolveTwice(IdSet(todo[1..]), {todo[0]}, w.threads);
      IdSetCons(todo);
    }
  }

  lemma {:induction false} IdSetCons(todo: seq<string>)
    requires todo != []
    ensures IdSet(todo) == IdSet(todo[1..]) + {todo[0]}
  {
    forall x | x in IdSet(todo)
      ensures x in IdSet(todo[1..]) + {todo[0]}
    {
      var i :| 0 <= i < |todo| && todo[i] == x;
      if i > 0 { assert todo[1..][i - 1] == x; }
    }
    forall x | x in IdSet(todo[1..])
      ensures x in IdSet(todo)
    {
      var i :| 0 <= i < |todo| - 1 && todo[1..][i] == x;
      assert todo[i + 1] == x;
    }
    assert todo[0] in IdSet(todo);
  }

  lemma {:induction false} QuietStep(d: Desired, pre: Preconditions, p: Publisher, w: World)
    requires Fits(d, p.pc) && !p.pc.Done?
    ensures Run(d, pre, p, w, []) == Run(d, pre, Next(d, pre, p, w), Effect(d, p.pc, w), [])
  {
    hide Next, Effect;
  }

  lemma {:induction false} QuietSupersede(
    d: Desired, pre: Preconditions, ops: seq<Operation>, existing: seq<Thread>, todo: seq<string>, w: World)
    requires d.thread.Some?
    requires var m := d.thread.value.marker;
             Fits(d, StartSupersede(m, existing, todo)) && Fits(d, AfterSupersede(m, existing))
    ensures var m := d.thread.value.marker;
            Run(d, pre, Publisher(ops, StartSupersede(m, existing, todo)), w, [])
            == Run(d, pre, Publisher(ops, AfterSupersede(m, existing)), ResolveAll(w, todo), [])
    decreases |todo|
  {
    hide Run, AfterSupersede;
    if todo != [] {
      QuietStep(d, pre, Publisher(ops, Superseding(existing, todo)), w);
      QuietSupersede(d, pre, ops, existing, todo[1..], ResolveOne(w, todo[0]));
    }
  }

  lemma {:induction false} QuietRepair(
    d: Desired, pre: Preconditions, ops: seq<Operation>, canonical: string, todo: seq<string>,
    repaired: seq<string>, w: World)
    requires d.thread.Some?
    ensures Run(d, pre, Publisher(ops, StartRepair(canonical, todo, repaired)), w, [])
         == Run(d, pre, Publisher(ops, Rescanning(RepairMode, RepairReceipt(canonical, repaired + todo))),
                ResolveAll(w, todo), [])
    decreases |todo|
  {
    hide Run, RepairReceipt;
    if todo == [] {
      assert repaired + todo == repaired;
    } else {
      QuietStep(d, pre, Publisher(ops, Repairing(canonical, todo, repaired)), w);
      QuietRepair(d, pre, ops, canonical, todo[1..], repaired + [todo[0]], ResolveOne(w, todo[0]));
      assert repaired + [todo[0]] + todo[1..] == repaired + todo;
    }
  }

  /** The rescan reads the threads only. */
  lemma {:induction false} QuietRescan(
    d: Desired, pre: Preconditions, ops: seq<Operation>, mode: Mode, receipt: Receipt, w: World, s: World)
    requires d.thread.Some? && Forget(w) == Forget(s)
    ensures var e := Run(d, pre, Publisher(ops, Rescanning(mode, receipt)), w, []);
            && Forget(e.world) == Forget(s)
            && e.publisher == Publisher(ops, Done(
                 if RescanAccepts(BotThreads(s), d.thread.value.marker, mode) then Published(receipt)
                 else Failed(RescanFailed)))
  {
    hide RescanAccepts;
    QuietStep(d, pre, Publisher(ops, Rescanning(mode, receipt)), w);
  }

  /** A reconcile nobody disturbs settles the slot and returns the verdict. */
  lemma {:induction false} QuietThread(d: Desired, pre: Preconditions, ops: seq<Operation>, w: World)
    requires d.thread.Some? && Valid(w)
    ensures var m := d.thread.value.marker;
            var e := Run(d, pre, Publisher(ops, Listing), w, []);
            e.publisher == Publisher(ops, Done(Verdict(m, w))) && Forget(e.world) == Forget(Settled(m, w))
  {
    hide Run, RescanAccepts, Canonical, DuplicateIds, StaleIds, ReceiptOf, RepairReceipt, BotThreads, Occupants, MintId;
    var m := d.thread.value.marker;
    var existing, stale := BotThreads(w), StaleIds(m, BotThreads(w));
    QuietStep(d, pre, Publisher(ops, Listing), w);
    var w1 := w.(log := w.log + [Listed(existing)]);
    QuietSupersede(d, pre, ops, existing, stale, w1);
    ResolveAllIs(w1, stale);
    var w2 := ResolveAll(w1, stale);
    var occ := Occupants(m, existing);
    if |occ| >= 2 {
      QuietRepairCase(d, pre, ops, w, w2);
    } else if |occ| == 1 {
      assert Duplicates(m, w) == {} by { NoDuplicates(occ); }
      assert ToResolve(m, w) == Stale(m, w);
      var mode := if occ[0].resolved then PreserveResolved else OpenMode;
      QuietRescan(d, pre, ops, mode, ReceiptOf([Operation(ThreadOp, occ[0].id)]), w2, Settled(m, w));
      SettledRescan(m, w, mode);
    } else {
      assert Duplicates(m, w) == {} by { NoDuplicates(occ); }
      assert ToResolve(m, w) == Stale(m, w);
      QuietStep(d, pre, Publisher(ops, Creating), w2);
      var w3 := Effect(d, Creating, w2);
      QuietRescan(d, pre, ops, OpenMode, ReceiptOf([Operation(ThreadOp, MintId(w.nextId))]), w3, Settled(m, w));
      SettledRescan(m, w, OpenMode);
    }
  }

  lemma NoDuplicates(occ: seq<Thread>)
    requires |occ| < 2
    ensures IdSet(DuplicateIds(occ)) == {}
  {}

  lemma {:induction false} QuietRepairCase(d: Desired, pre: Preconditions, ops: seq<Operation>, w: World, w2: World)
    requires d.thread.Some? && Valid(w) && |Occ(d.thread.value.marker, w)| >= 2
    requires Forget(w2) == Forget(WithResolved(Stale(d.thread.value.marker, w), w))
    ensures var m := d.thread.value.marker;
            var e := Run(d, pre, Publisher(ops, AfterSupersede(m, BotThreads(w))), w2, []);
            e.publisher == Publisher(ops, Done(Verdict(m, w))) && Forget(e.world) == Forget(Settled(m, w))
  {
    hide Run, RescanAccepts, Canonical, DuplicateIds, StaleIds, ReceiptOf, RepairReceipt, BotThreads, Occupants, MintId;
    var m := d.thread.value.marker;
    var occ := Occ(m, w);
    var dups := DuplicateIds(occ);
    QuietRepair(d, pre, ops, Canonical(occ).id, dups, [], w2);
    assert [] + dups == dups;
    ResolveAllIs(w2, dups);
    ResolveTwice(Duplicates(m, w), Stale(m, w), w.threads);
    assert Duplicates(m, w) + Stale(m, w) == ToResolve(m, w);
    QuietRescan(d, pre, ops, RepairMode, RepairReceipt(Canonical(occ).id, dups), ResolveAll(w2, dups), Settled(m, w));
    SettledRescan(m, w, RepairMode);
  }

  // ----- Cut-off runs -----

  ghost predicate OnlyFaults(script: seq<Tick>) {
    forall i :: 0 <= i < |script| ==> script[i].moved == None
  }

  /** `w` is `w0` with some of the work done: `a` resolved, and the missing thread created or not. */
  ghost predicate Partly(m: Marker, w0: World, w: World, a: set<string>, created: bool) {
    && a <= ToResolve(m, w0)
    && (created ==> Occ(m, w0) == [])
    && Forget(w) == Forget(if created then WithThread(m, WithResolved(a, w0)) else WithResolved(a, w0))
  }

  ghost predicate CrashInv(m: Marker, w0: World, pc: Pc, w: World, a: set<string>, created: bool) {
    && Partly(m, w0, w, a, created)
    && match pc
       case Listing => a == {} && !created
       case Superseding(existing, todo) => existing == BotThreads(w0) && IdSet(todo) <= Stale(m, w0) && !created
       case Creating => Occ(m, w0) == [] && !created
       case Repairing(_, todo, _) => IdSet(todo) <= Duplicates(m, w0) && !created
       case Rescanning(_, _) => true
       case Done(_) => true
       case _ => false
  }

  lemma {:induction false} PartlyResolveOne(m: Marker, w0: World, w: World, a: set<string>, id: string)
    requires Partly(m, w0, w, a, false) && id in ToResolve(m, w0)
    ensures Partly(m, w0, ResolveOne(w, id), a + {id}, false)
  {
    hide ToResolve, Occ;
    ResolveTwice({id}, a, w0.threads);
    assert {id} + a == a + {id};
  }

  lemma {:induction false} AfterSupersedeInv(m: Marker, w0: World, todo: seq<string>, w: World, a: set<string>)
    requires Partly(m, w0, w, a, false) && IdSet(todo) <= Stale(m, w0)
    ensures CrashInv(m, w0, StartSupersede(m, BotThreads(w0), todo), w, a, false)
  {
    hide BotThreads, Occupants, Canonical, DuplicateIds, StaleIds, ReceiptOf, RepairReceipt, Partly;
  }

  lemma {:induction false} CrashStep(
    d: Desired, pre: Preconditions, p: Publisher, w0: World, w: World, fault: Fault, a: set<string>, created: bool)
    returns (a': set<string>, created': bool)
    requires d.thread.Some? && Fits(d, p.pc) && !p.pc.Done?
    requires CrashInv(d.thread.value.marker, w0, p.pc, w, a, created)
    ensures CrashInv(d.thread.value.marker, w0, StepPublisher(d, pre, p, w, fault).pc,
                     StepWorld(d, p, w, fault), a', created')
  {
    hide BotThreads, Occupants, Canonical, DuplicateIds, StaleIds, ReceiptOf, RepairReceipt, MintId, RescanAccepts,
         AfterSupersede;
    var m := d.thread.value.marker;
    a', created' := a, created;
    if fault != LostRequest {
      match p.pc {
        case Listing =>
          ResolveNone(w0.threads);
          assert BotThreads(w) == BotThreads(w0) by { SameThreads(w, w0); }
          AfterSupersedeInv(m, w0, StaleIds(m, BotThreads(w0)), Effect(d, p.pc, w), {});
        case Superseding(existing, todo) =>
          IdSetCons(todo);
          PartlyResolveOne(m, w0, w, a, todo[0]);
          a' := a + {todo[0]};
          AfterSupersedeInv(m, w0, todo[1..], ResolveOne(w, todo[0]), a');
        case Repairing(canonical, todo, _) =>
          IdSetCons(todo);
          PartlyResolveOne(m, w0, w, a, todo[0]);
          a' := a + {todo[0]};
        case Creating =>
          created' := true;
        case Rescanning(_, _) =>
      }
    }
  }

  lemma SameThreads(w: World, w0: World)
    requires w.threads == w0.threads && w.bot == w0.bot
    ensures BotThreads(w) == BotThreads(w0)
  {}

  lemma {:induction false} CrashRun(
    d: Desired, pre: Preconditions, p: Publisher, w0: World, w: World, script: seq<Tick>, a: set<string>, created: bool)
    returns (a': set<string>, created': bool)
    requires d.thread.Some? && Fits(d, p.pc) && OnlyFaults(script)
    requires CrashInv(d.thread.value.marker, w0, p.pc, w, a, created)
    ensures Partly(d.thread.value.marker, w0, Run(d, pre, p, w, script).world, a', created')
    decreases Stage(p.pc), Todo(p.pc)
  {
    hide StepPublisher, StepWorld, Partly;
    if p.pc.Done? {
      a', created' := a, created;
    } else {
      var a1, c1 := CrashStep(d, pre, p, w0, w, FaultOf(script), a, created);
      a', created' := CrashRun(d, pre, StepPublisher(d, pre, p, w, FaultOf(script)), w0,
                               StepWorld(d, p, w, FaultOf(script)), Rest(script), a1, c1);
    }
  }

  /** Whatever part of the work was done, what remains leads to the same end. */
  lemma {:induction false} PartlyAbsorbed(m: Marker, w0: World, w: World, a: set<string>, created: bool)
    requires Valid(w0) && Partly(m, w0, w, a, created)
    ensures Forget(Settled(m, w)) == Forget(Settled(m, w0))
    ensures Verdict(m, w) == Verdict(m, w0)
  {
    hide ReceiptOf, RepairReceipt, MintId, Canonical, ToResolve;
    var done := if created then WithThread(m, WithResolved(a, w0)) else WithResolved(a, w0);
    if created { CreatedAbsorbed(m, w0, a); } else { ResolvedAbsorbed(m, w0, a); }
    SettledForgets(m, w, done);
  }

  lemma {:induction false} SettledForgets(m: Marker, w: World, v: World)
    requires Forget(w) == Forget(v)
    ensures Forget(Settled(m, w)) == Forget(Settled(m, v))
    ensures Verdict(m, w) == Verdict(m, v)
  {
    hide ReceiptOf, RepairReceipt, MintId, Canonical, StaleIds, DuplicateIds, Occupants;
    SameThreads(w, v);
  }

  // ----- The whole REVIEW reconcile, summary note included -----

  ghost predicate SummaryAccepted(d: Desired) {
    d.summary.Some? ==> d.summary.value.marker.artifact.kind == "summary-comment"
  }

  ghost function Summarised(d: Desired, w: World): World {
    if d.summary.Some? then Upsert(w, d.summary.value) else w
  }

  ghost function SummaryOps(d: Desired, w: World): seq<Operation> {
    if d.summary.Some? then [Operation(ThreadOp, SummaryId(w))] else []
  }

  ghost predicate IsReview(d: Desired) {
    d.thread.Some? && d.clearSlot.None?
  }

  lemma {:induction false} SummaryIndexIs(bot: string, notes: seq<Note>, i: nat)
    requires i < |notes| && IsSummaryOf(bot, notes[i])
    requires forall j :: 0 <= j < i ==> !IsSummaryOf(bot, notes[j])
    ensures SummaryIndex(bot, notes) == i
  {
    if i > 0 {
      SummaryIndexIs(bot, notes[1..], i - 1);
    }
  }

  /** A second upsert of the same summary changes nothing and names the same note. */
  lemma {:induction false} UpsertTwice(w: World, v: World, c: Comment)
    requires c.marker.artifact.kind == "summary-comment"
    requires v.bot == w.bot && v.notes == Upsert(w, c).notes
    ensures Upsert(v, c) == v && SummaryId(v) == SummaryId(w)
  {
    hide MintId;
    var i := SummaryIndex(w.bot, w.notes);
    SummaryIndexIs(v.bot, v.notes, i);
    assert v.notes[i := v.notes[i].(marker := c.marker, body := c.body)] == v.notes;
  }

  lemma {:induction false} SummarisedValid(d: Desired, w: World)
    requires Valid(w)
    ensures Valid(Summarised(d, w))
  {
    hide MintId, SummaryIndex;
  }

  ghost predicate SameSummary(d: Desired, w: World, v: World) {
    v.bot == w.bot && v.notes == Summarised(d, w).notes
  }

  /** A quiet REVIEW reconcile, end to end. */
  lemma {:induction false} QuietReview(d: Desired, pre: Preconditions, w: World)
    requires IsReview(d) && Valid(w)
    ensures var m := d.thread.value.marker;
            var e := Run(d, pre, Start(d, pre), w, []);
            if SummaryAccepted(d)
            then && e.publisher == Publisher(SummaryOps(d, w), Done(Verdict(m, Summarised(d, w))))
                 && Forget(e.world) == Forget(Settled(m, Summarised(d, w)))
            else && e.publisher == Publisher([], Done(Failed(InvalidSummaryMarker)))
                 && e.world == w
  {
    hide Run, Settled, Verdict, SummaryId, Upsert, NextThread;
    var m := d.thread.value.marker;
    if d.summary.None? {
      QuietThread(d, pre, [], w);
    } else {
      QuietStep(d, pre, Publisher([], ListingNotes), w);
      if SummaryAccepted(d) {
        QuietStep(d, pre, Publisher([], Upserting), w);
        var w1 := Effect(d, Upserting, w);
        SummarisedValid(d, w);
        assert Valid(w1);
        assert [] + SummaryOps(d, w) == SummaryOps(d, w);
        QuietThread(d, pre, SummaryOps(d, w), w1);
        SettledForgets(m, w1, Summarised(d, w));
      } else {
        assert Run(d, pre, Publisher([], Done(Failed(InvalidSummaryMarker))), w, [])
            == End(Publisher([], Done(Failed(InvalidSummaryMarker))), w, []) by { RunEnds(d, pre, w); }
      }
    }
  }

  lemma RunEnds(d: Desired, pre: Preconditions, w: World)
    ensures Run(d, pre, Publisher([], Done(Failed(InvalidSummaryMarker))), w, [])
         == End(Publisher([], Done(Failed(InvalidSummaryMarker))), w, [])
  {}

  /** Where a cut-off reconcile can leave the forge. */
  ghost predicate LeftAt(d: Desired, w0: World, w: World)
    requires IsReview(d)
  {
    || Forget(w) == Forget(w0)
    || (SummaryAccepted(d) && SameSummary(d, w0, w)
        && exists a, created :: Partly(d.thread.value.marker, Summarised(d, w0), w, a, created))
  }

  lemma {:induction false} CrashThread(
    d: Desired, pre: Preconditions, ops: seq<Operation>, w0: World, w: World, script: seq<Tick>)
    requires IsReview(d) && SummaryAccepted(d) && OnlyFaults(script)
    requires Forget(w) == Forget(Summarised(d, w0))
    ensures LeftAt(d, w0, Run(d, pre, Publisher(ops, Listing), w, script).world)
  {
    hide Run, Upsert, ToResolve, Occ, MintId;
    var m := d.thread.value.marker;
    var s := Summarised(d, w0);
    ResolveNone(s.threads);
    assert Partly(m, s, w, {}, false);
    var a, created := CrashRun(d, pre, Publisher(ops, Listing), s, w, script, {}, false);
    UpsertKeeps(d, w0);
    assert Partly(m, s, Run(d, pre, Publisher(ops, Listing), w, script).world, a, created);
  }

  lemma UpsertKeeps(d: Desired, w: World)
    ensures Summarised(d, w).bot == w.bot && Summarised(d, w).threads == w.threads
  {}

  lemma {:induction false} CrashStepRun(d: Desired, pre: Preconditions, p: Publisher, w: World, script: seq<Tick>)
    requires Fits(d, p.pc) && !p.pc.Done? && OnlyFaults(script)
    ensures Run(d, pre, p, w, script)
         == Run(d, pre, StepPublisher(d, pre, p, w, FaultOf(script)), StepWorld(d, p, w, FaultOf(script)), Rest(script))
    ensures OnlyFaults(Rest(script))
  {
    hide StepPublisher, StepWorld;
  }

  lemma RunDoneWorld(d: Desired, pre: Preconditions, p: Publisher, w: World, script: seq<Tick>)
    requires p.pc.Done?
    ensures Run(d, pre, p, w, script) == End(p, w, script)
  {}

  lemma {:induction false} CrashReview(d: Desired, pre: Preconditions, w: World, script: seq<Tick>)
    requires IsReview(d) && OnlyFaults(script)
    ensures LeftAt(d, w, Run(d, pre, Start(d, pre), w, script).world)
  {
    hide Run, Upsert, LeftAt, NextThread, SummaryId;
    if d.summary.None? {
      CrashThread(d, pre, [], w, w, script);
    } else {
      var p0 := Publisher([], ListingNotes);
      CrashStepRun(d, pre, p0, w, script);
      var p1 := StepPublisher(d, pre, p0, w, FaultOf(script));
      var rest := Rest(script);
      if p1.pc.Done? {
        RunDoneWorld(d, pre, p1, w, rest);
        LeftUnchanged(d, w, w);
      } else {
        CrashStepRun(d, pre, p1, w, rest);
        var p2, w2 := StepPublisher(d, pre, p1, w, FaultOf(rest)), StepWorld(d, p1, w, FaultOf(rest));
        if p2.pc.Done? {
          RunDoneWorld(d, pre, p2, w2, Rest(rest));
          LeftAfterUpsert(d, w, w2);
        } else {
          CrashThread(d, pre, p2.preamble, w, w2, Rest(rest));
        }
      }
    }
  }

  lemma LeftUnchanged(d: Desired, w0: World, w: World)
    requires IsReview(d) && Forget(w) == Forget(w0)
    ensures LeftAt(d, w0, w)
  {}

  lemma {:induction false} LeftAfterUpsert(d: Desired, w0: World, w: World)
    requires IsReview(d) && SummaryAccepted(d)
    requires Forget(w) == Forget(w0) || Forget(w) == Forget(Summarised(d, w0))
    ensures LeftAt(d, w0, w)
  {
    hide Upsert, MintId, ToResolve, Occ;
    UpsertKeeps(d, w0);
    ResolveNone(w0.threads);
    if Forget(w) == Forget(Summarised(d, w0)) {
      assert Partly(d.thread.value.marker, Summarised(d, w0), w, {}, false);
    }
  }

  lemma {:induction false} PartlyValid(m: Marker, w0: World, w: World, a: set<string>, created: bool)
    requires Valid(w0) && Partly(m, w0, w, a, created)
    ensures Valid(w)
  {
    hide ToResolve, Occ, Numeral;
    forall n: nat | n > w0.nextId
      ensures MintId(n) != MintId(w0.nextId)
    {
      MintInjective(n, w0.nextId);
    }
  }

  lemma {:induction false} MintInjective(a: nat, b: nat)
    requires a != b
    ensures MintId(a) != MintId(b)
  {
    NumeralRoundTrip(a);
    NumeralRoundTrip(b);
    assert MintId(a)[5..] == Numeral(a) && MintId(b)[5..] == Numeral(b);
  }

  /** Rerunning from wherever a cut-off run stopped gives the uninterrupted end and the uninterrupted receipt. */
  lemma {:induction false} LeftConverges(d: Desired, pre: Preconditions, w0: World, w: World)
    requires IsReview(d) && Valid(w0) && LeftAt(d, w0, w)
    ensures Valid(w)
    ensures var again, whole := Run(d, pre, Start(d, pre), w, []), Run(d, pre, Start(d, pre), w0, []);
            Forget(again.world) == Forget(whole.world) && again.publisher == whole.publisher
  {
    hide Run, Start, Settled, Verdict, SummaryIndex, MintId;
    var m := d.thread.value.marker;
    QuietReview(d, pre, w0);
    if Forget(w) == Forget(w0) {
      assert Valid(w);
      QuietReview(d, pre, w);
      SettledForgets(m, Summarised(d, w), Summarised(d, w0));
    } else {
      var s := Summarised(d, w0);
      var a, created :| Partly(m, s, w, a, created);
      SummarisedValid(d, w0);
      PartlyValid(m, s, w, a, created);
      QuietReview(d, pre, w);
      if d.summary.Some? { UpsertTwice(w0, w, d.summary.value); }
      PartlyAbsorbed(m, s, w, a, created);
    }
  }

  /**
   Crash confluence: cut a REVIEW reconcile off at any call, with the call lost or only its answer
   lost; the next reconcile ends exactly where an undisturbed one would have, and reports the same.
   */
  lemma {:induction false} CrashConfluence(d: Desired, pre: Preconditions, w: World, crash: seq<Tick>)
    requires d.thread.Some? && d.clearSlot.None? && Valid(w)
    requires forall i :: 0 <= i < |crash| ==> crash[i].moved == None
    ensures var crashed := Run(d, pre, Start(d, pre), w, crash).world;
            var again, whole := Run(d, pre, Start(d, pre), crashed, []), Run(d, pre, Start(d, pre), w, []);
            Forget(again.world) == Forget(whole.world) && again.publisher.Result() == whole.publisher.Result()
  {
    hide Run, Start, LeftAt;
    CrashReview(d, pre, w, crash);
    LeftConverges(d, pre, w, Run(d, pre, Start(d, pre), w, crash).world);
  }

  /** The forge after one cut-off run after another. */
  ghost function AfterCuts(d: Desired, pre: Preconditions, w: World, cuts: seq<seq<Tick>>): World
    decreases |cuts|
  {
    if cuts == [] then w else AfterCuts(d, pre, Run(d, pre, Start(d, pre), w, cuts[0]).world, cuts[1..])
  }

  /** However often the reconcile is cut off, the next undisturbed one ends where the first would have. */
  lemma {:induction false} RepeatedCrashConfluence(d: Desired, pre: Preconditions, w: World, cuts: seq<seq<Tick>>)
    requires d.thread.Some? && d.clearSlot.None? && Valid(w)
    requires forall k :: 0 <= k < |cuts| ==> OnlyFaults(cuts[k])
    ensures var again := Run(d, pre, Start(d, pre), AfterCuts(d, pre, w, cuts), []);
            var whole := Run(d, pre, Start(d, pre), w, []);
            Forget(again.world) == Forget(whole.world) && again.publisher.Result() == whole.publisher.Result()
    decreases |cuts|
  {
    hide Run, Start, LeftAt, OnlyFaults, Valid;
    if cuts != [] {
      var crashed := Run(d, pre, Start(d, pre), w, cuts[0]).world;
      CrashReview(d, pre, w, cuts[0]);
      LeftConverges(d, pre, w, crashed);
      RepeatedCrashConfluence(d, pre, crashed, cuts[1..]);
    }
  }

  /** A further rerun changes nothing, creates nothing and returns the same receipt. */
  lemma {:induction false} RerunChangesNothing(d: Desired, pre: Preconditions, w: World)
    requires d.thread.Some? && d.clearSlot.None? && Valid(w)
    ensures var once := Run(d, pre, Start(d, pre), w, []);
            var twice := Run(d, pre, Start(d, pre), once.world, []);
            Forget(twice.world) == Forget(once.world) && twice.publisher.Result() == once.publisher.Result()
  {
    CrashConfluence(d, pre, w, []);
  }

  /**
   An undisturbed REVIEW reconcile succeeds exactly when the summary marker is well-formed and it is
   not the case that several occupants exist of which the lowest-numbered is already resolved.
   */
  lemma {:induction false} SucceedsExactlyWhen(d: Desired, pre: Preconditions, w: World)
    requires d.thread.Some? && d.clearSlot.None? && Valid(w)
    ensures var occ := Occupants(d.thread.value.marker, BotThreads(w));
            Run(d, pre, Start(d, pre), w, []).publisher.Result().Published?
            <==> SummaryAccepted(d) && !(|occ| >= 2 && Canonical(occ).resolved)
  {
    hide Run, Canonical, SummaryIndex, RepairReceipt, ReceiptOf, MintId, Settled;
    QuietReview(d, pre, w);
    UpsertKeeps(d, w);
    SameThreads(w, Summarised(d, w));
  }
}
