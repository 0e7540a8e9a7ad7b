/**
 The forge as an object whose port methods change it, and Reconcile as the code that calls
 them.  Every method is proved to do what the publisher state machine does, whatever others
 do to the forge around its calls.
 */
module ForgePort {
  import opened Sequences
  import opened Forge

  /** A port method's return: its value, or a transport error. */
  datatype Answer<+T> = Reply(value: T) | Lost

  datatype MergeAnswer = MergedAs(id: string) | HeadsMoved | MergeLost

  class Port {
    const bot: string
    var threads: seq<Thread>
    var notes: seq<Note>
    var heads: Pins
    var nextId: nat
    var log: seq<Event>
    /** What everyone else does, call by call. */
    var script: seq<Tick>

    constructor (w: World, script: seq<Tick>)
      ensures State() == w && this.script == script
    {
      this.bot := w.bot;
      this.threads, this.notes, this.heads := w.threads, w.notes, w.heads;
      this.nextId, this.log, this.script := w.nextId, w.log, script;
    }

    function State(): World
      reads this
    {
      World(bot, threads, notes, heads, nextId, log)
    }

    /** Others move first, then the call meets its fault. */
    method Arriving() returns (fault: Fault)
      modifies this
      ensures State() == Arrive(old(State()), old(script))
      ensures script == Rest(old(script)) && fault == FaultOf(old(script))
    {
      fault := FaultOf(script);
      var w := Arrive(State(), script);
      threads, notes, heads, nextId, log := w.threads, w.notes, w.heads, w.nextId, w.log;
      script := Rest(script);
    }

    method ListBotThreads() returns (r: Answer<seq<Thread>>)
      modifies this
      ensures script == Rest(old(script))
      ensures var w := Arrive(old(State()), old(script));
              var fault := FaultOf(old(script));
              && State() == (if fault == LostRequest then w else w.(log := w.log + [Listed(BotThreads(w))]))
              && r == (if fault == Served then Reply(BotThreads(w)) else Lost)
    {
      var fault := Arriving();
      var found := Filter(BotFilter(bot), threads);
      if fault != LostRequest { log := log + [Listed(found)]; }
      r := if fault == Served then Reply(found) else Lost;
    }

    method ListBotNotes() returns (r: Answer<seq<Note>>)
      modifies this
      ensures script == Rest(old(script))
      ensures var w := Arrive(old(State()), old(script));
              && State() == w
              && r == (if FaultOf(old(script)) == Served then Reply(BotNotes(w)) else Lost)
    {
      var fault := Arriving();
      r := if fault == Served then Reply(Filter(BotNoteFilter(bot), notes)) else Lost;
    }

    method CurrentHeads() returns (r: Answer<Pins>)
      modifies this
      ensures script == Rest(old(script))
      ensures var w := Arrive(old(State()), old(script));
              var fault := FaultOf(old(script));
              && State() == (if fault == LostRequest then w else w.(log := w.log + [HeadsRead(w.heads)]))
              && r == (if fault == Served then Reply(w.heads) else Lost)
    {
      var fault := Arriving();
      if fault != LostRequest { log := log + [HeadsRead(heads)]; }
      r := if fault == Served then Reply(heads) else Lost;
    }

    method CreateThread(m: Marker, body: string) returns (r: Answer<Thread>)
      modifies this
      ensures script == Rest(old(script))
      ensures var w := Arrive(old(State()), old(script));
              var fault := FaultOf(old(script));
              var t := Thread(MintId(w.nextId), m, w.bot, false);
              && State() == (if fault == LostRequest then w
                             else w.(threads := w.threads + [t], nextId := w.nextId + 1,
                                     log := w.log + [Created(t, body)]))
              && r == (if fault == Served then Reply(t) else Lost)
    {
      var fault := Arriving();
      var t := Thread(MintId(nextId), m, bot, false);
      if fault != LostRequest {
        threads, nextId, log := threads + [t], nextId + 1, log + [Created(t, body)];
      }
      r := if fault == Served then Reply(t) else Lost;
    }

    method ResolveThread(id: string) returns (r: Answer<()>)
      modifies this
      ensures script == Rest(old(script))
      ensures var w := Arrive(old(State()), old(script));
              var fault := FaultOf(old(script));
              && State() == (if fault == LostRequest then w else ResolveOne(w, id))
              && r == (if fault == Served then Reply(()) else Lost)
    {
      var fault := Arriving();
      if fault != LostRequest {
        threads, log := Resolve({id}, threads), log + [Resolved(id)];
      }
      r := if fault == Served then Reply(()) else Lost;
    }

    method Approve() returns (r: Answer<string>)
      modifies this
      ensures script == Rest(old(script))
      ensures var w := Arrive(old(State()), old(script));
              var fault := FaultOf(old(script));
              && State() == (if fault == LostRequest then w
                             else w.(nextId := w.nextId + 1, log := w.log + [Approved(w.heads)]))
              && r == (if fault == Served then Reply(MintId(w.nextId)) else Lost)
    {
      var fault := Arriving();
      var id := MintId(nextId);
      if fault != LostRequest { nextId, log := nextId + 1, log + [Approved(heads)]; }
      r := if fault == Served then Reply(id) else Lost;
    }

    /** Merges only when all three values still equal the pins; otherwise nothing happens. */
    method MergeCAS(pins: Pins) returns (r: MergeAnswer)
      modifies this
      ensures script == Rest(old(script))
      ensures var w := Arrive(old(State()), old(script));
              var fault := FaultOf(old(script));
              && State() == (if fault == LostRequest || w.heads != pins then w
                             else w.(nextId := w.nextId + 1, log := w.log + [Merged(pins, w.heads)]))
              && r == (if fault != Served then MergeLost
                       else if w.heads == pins then MergedAs(MintId(w.nextId)) else HeadsMoved)
    {
      var fault := Arriving();
      var id := MintId(nextId);
      var same := heads == pins;
      if fault != LostRequest && same { nextId, log := nextId + 1, log + [Merged(pins, heads)]; }
      r := if fault != Served then MergeLost else if same then MergedAs(id) else HeadsMoved;
    }

    method UpsertComment(c: Comment) returns (r: Answer<string>)
      modifies this
      ensures script == Rest(old(script))
      ensures var w := Arrive(old(State()), old(script));
              var fault := FaultOf(old(script));
              && State() == (if fault == LostRequest then w
                             else Upsert(w, c).(log := w.log + [Upserted(SummaryId(w))]))
              && r == (if fault == Served then Reply(SummaryId(w)) else Lost)
    {
      var fault := Arriving();
      var i := SummaryIndex(bot, notes);
      var id := if i < |notes| then notes[i].id else MintId(nextId);
      if fault != LostRequest {
        if i < |notes| {
          notes := notes[i := notes[i].(marker := c.marker, body := c.body)];
        } else {
          notes, nextId := notes + [Note(id, c.marker, bot, c.body)], nextId + 1;
        }
        log := log + [Upserted(id)];
      }
      r := if fault == Served then Reply(id) else Lost;
    }
  }
}
