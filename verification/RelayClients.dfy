/** client.go on the heap: one connection's bounded queue and its pumps, each select one guarded choice. */
module RelayClients {
  import opened RelaySpec
  import opened RelayDelivery

  // ---- what others do to a connection -------------------------------------------------------------------

  /** While one goroutine is inside Send: the pump turns, the connection fails or is torn down, and other
      sends take effect on it, be they broadcasts or close-alls. */
  datatype Other =
    | Pump(e: Event)
    | TornDown
    | Queues(msg: Outgoing, choice: Choice)
    | Overflows(msg: Outgoing)
    | HangsUp(msg: Outgoing)

  predicate PumpEnabled(c: Client, e: Event) {
    || (e.Take? && c.writer.Idle? && c.queue != [])
    || (e.Write? && c.writer.Holding? && (e.ok ==> c.open))
    || (e.StopWriting? && c.writer.Idle?)
    || (e.WriterClosesConn? && c.writer.Exiting?)
    || e.ConnFails?
  }

  function Disturbed(c: Client, o: Other): Client {
    match o
    case Pump(e) => if PumpEnabled(c, e) then Own(c, e) else c
    case TornDown => c.(done := true)
    case Queues(msg, choice) => if Ready(c, choice) then Offer(c, msg, choice) else c
    case Overflows(msg) => if Full(c) then Miss(c, msg) else c
    case HangsUp(msg) => Drop(c, msg)
  }

  function Later(c: Client, others: seq<Other>): Client {
    if others == [] then c else Disturbed(Later(c, others[..|others| - 1]), others[|others| - 1])
  }

  ghost predicate DroppedAfter(before: Client, msg: Outgoing, others: seq<Other>, after: Client) {
    after == Drop(Later(Miss(before, msg), others), msg)
  }

  /** One call of Send, whatever happens on the connection between an overflow and the hang-up. */
  ghost predicate Sent(before: Client, msg: Outgoing, after: Client) {
    || (exists choice :: Ready(before, choice) && after == Offer(before, msg, choice))
    || (Full(before) && exists others :: DroppedAfter(before, msg, others, after))
  }

  /** What others never do: take back what was offered or written, reopen. */
  ghost predicate Onward(c: Client, c': Client) {
    && c.offered <= c'.offered && c.wire <= c'.wire && (c.done ==> c'.done) && (c'.open ==> c.open)
    && (Gapless(c) ==> Gapless(c'))
  }

  lemma PumpOnward(c: Client, e: Event)
    requires PumpEnabled(c, e)
    ensures Onward(c, Own(c, e))
  {
    if Gapless(c) { OwnKeepsGapless(c, e); }
  }

  lemma OfferOnward(c: Client, msg: Outgoing, choice: Choice)
    requires Ready(c, choice)
    ensures Onward(c, Offer(c, msg, choice))
  {
    if Gapless(c) { OfferKeepsGapless(c, msg, choice); }
  }

  lemma DropOnward(c: Client, msg: Outgoing)
    ensures Onward(c, Miss(c, msg)) && Onward(c, Drop(c, msg))
  {
    if Gapless(c) { DropKeepsGapless(c, msg); }
  }

  lemma DisturbedOnward(c: Client, o: Other)
    ensures Onward(c, Disturbed(c, o))
  {
    match o
    case Pump(e) => if PumpEnabled(c, e) { PumpOnward(c, e); }
    case TornDown =>
    case Queues(msg, choice) => if Ready(c, choice) { OfferOnward(c, msg, choice); }
    case Overflows(msg) => DropOnward(c, msg);
    case HangsUp(msg) => DropOnward(c, msg);
  }

  lemma {:induction false} LaterOnward(c: Client, others: seq<Other>)
    ensures Onward(c, Later(c, others))
  {
    if others != [] {
      LaterOnward(c, others[..|others| - 1]);
      DisturbedOnward(Later(c, others[..|others| - 1]), others[|others| - 1]);
    }
  }

  /** What one Send adds: its own frame, last, and lost only with the connection. */
  ghost predicate AddsOne(before: Client, msg: Outgoing, after: Client) {
    && before.offered < after.offered && after.offered[|after.offered| - 1] == msg
    && before.wire <= after.wire && (before.done ==> after.done) && (after.open ==> before.open)
    && (after.open && !before.done ==> !after.done && after.queue == before.queue + [msg])
    && (Gapless(before) ==> Gapless(after))
  }

  lemma OfferAddsOne(c: Client, msg: Outgoing, choice: Choice)
    requires Ready(c, choice)
    ensures AddsOne(c, msg, Offer(c, msg, choice))
  {
    if Gapless(c) { OfferKeepsGapless(c, msg, choice); }
  }

  lemma DropAddsOne(c: Client, msg: Outgoing, late: Client)
    requires Onward(Miss(c, msg), late)
    ensures AddsOne(c, msg, Drop(late, msg))
  {
    if Gapless(c) {
      DropKeepsGapless(c, msg);
      DropKeepsGapless(late, msg);
    }
  }

  lemma SentOnce(before: Client, msg: Outgoing, after: Client)
    requires Sent(before, msg, after)
    ensures AddsOne(before, msg, after)
  {
    if choice :| Ready(before, choice) && after == Offer(before, msg, choice) {
      OfferAddsOne(before, msg, choice);
    } else {
      var others :| DroppedAfter(before, msg, others, after);
      LaterOnward(Miss(before, msg), others);
      DropAddsOne(before, msg, Later(Miss(before, msg), others));
    }
  }

  /** Anything can happen elsewhere. */
  method Elsewhere() returns (others: seq<Other>) {
    others := *;
  }

  // ---- the connection ---------------------------------------------------------------------------------------

  class Connection {
    var queue: seq<Outgoing>
    var open: bool
    var done: bool
    var writer: Writer
    var wire: seq<Outgoing>      // what the peer has been sent
    ghost var called: seq<Outgoing>
    ghost var overflows: seq<nat>
    ghost var offered: seq<Outgoing>

    constructor ()
      ensures View() == Fresh() && Gapless(View())
    {
      queue, open, done, writer, wire := [], true, false, Idle, [];
      called, overflows, offered := [], [], [];
    }

    static ghost function Fresh(): Client {
      Client([], true, false, Idle, Reading, [], [], [], [], [], map[], map[], false)
    }

    /** This connection as the interleaved model has it, as far as the pumps are concerned. */
    ghost function View(): Client
      reads this
    {
      Client(queue, open, done, writer, Reading, wire, called, overflows, offered, [], map[], map[], false)
    }

    /** The select of Send and of CloseWithCode: it takes a ready case, and the default only if there is none. */
    method Select(msg: Outgoing) returns (full: bool)
      modifies this
      ensures full == Full(old(View()))
      ensures full ==> View() == Miss(old(View()), msg)
      ensures !full ==> exists choice :: Ready(old(View()), choice) && View() == Offer(old(View()), msg, choice)
    {
      ghost var before := View();
      called := called + [msg];
      if {
        case |queue| < SEND_BUFFER =>
          queue, offered := queue + [msg], offered + [msg];
          assert Ready(before, Enqueue) && View() == Offer(before, msg, Enqueue);
          return false;
        case done =>
          offered := offered + [msg];
          assert Ready(before, Skip) && View() == Offer(before, msg, Skip);
          return false;
        case |queue| >= SEND_BUFFER && !done =>
          overflows := overflows + [|called| - 1];
          return true;
      }
    }

    /** What the default does next: close the connection, and the frame with it. */
    method HangUp(msg: Outgoing)
      modifies this`open, this`offered
      ensures View() == Drop(old(View()), msg)
    {
      open, offered := false, offered + [msg];
    }

    method PumpStep(e: Event)
      modifies this
      ensures View() == if PumpEnabled(old(View()), e) then Own(old(View()), e) else old(View())
    {
      if e.Take? && writer.Idle? && queue != [] {
        queue, writer := queue[1..], Holding(queue[0]);
      } else if e.Write? && writer.Holding? && (e.ok ==> open) {
        wire := if e.ok then wire + [writer.msg] else wire;
        writer := if e.ok && !writer.msg.Close? then Idle else Exiting;
      } else if e.StopWriting? && writer.Idle? {
        writer := Exiting;
      } else if e.WriterClosesConn? && writer.Exiting? {
        open, writer := false, Exited;
      } else if e.ConnFails? {
        open := false;
      }
    }

    method Disturb(o: Other)
      modifies this
      ensures View() == Disturbed(old(View()), o)
    {
      match o
      case Pump(e) => PumpStep(e);
      case TornDown => done := true;
      case Queues(msg, choice) =>
        if (choice.Enqueue? && |queue| < SEND_BUFFER) || (choice.Skip? && done) {
          called, offered := called + [msg], offered + [msg];
          queue := if choice.Enqueue? then queue + [msg] else queue;
        }
      case Overflows(msg) =>
        if |queue| >= SEND_BUFFER && !done {
          called, overflows := called + [msg], overflows + [|called|];
        }
      case HangsUp(msg) => HangUp(msg);
    }

    method Meanwhile(others: seq<Other>)
      modifies this
      ensures View() == Later(old(View()), others)
    {
      ghost var start := View();
      for i := 0 to |others|
        invariant View() == Later(start, others[..i])
      {
        Disturb(others[i]);
        assert others[..i + 1][..i] == others[..i];
      }
      assert others[..|others|] == others;
    }

    /** Queue a frame or directive. If the queue is full the connection is dropped, not the frame alone; whatever
        others do before the connection is closed. */
    method Send(msg: Outgoing)
      modifies this
      ensures Sent(old(View()), msg, View())
    {
      ghost var before := View();
      var full := Select(msg);
      if full {
        var others := Elsewhere();
        Meanwhile(others);
        HangUp(msg);
        assert DroppedAfter(before, msg, others, View());
      }
    }

    /** Write a frame: it reaches the peer or fails, and on a closed connection it fails. */
    method WriteMessage(msg: Outgoing) returns (ok: bool)
      modifies this`wire
      ensures ok ==> open && wire == old(wire) + [msg]
      ensures !ok ==> wire == old(wire)
    {
      ok := *;
      ok := ok && open;
      if ok { wire := wire + [msg]; }
    }

    /** One turn of the write pump on a queued frame: Take, then Write, and on the way out close the connection. */
    method Turn()
      requires Gapless(View()) && writer.Idle? && queue != []
      modifies this
      ensures Gapless(View()) && offered == old(offered) && queue == old(queue)[1..]
      ensures writer.Idle? || writer.Exited?
      ensures writer.Idle? ==> open == old(open) && wire == old(wire) + [old(queue)[0]]
      ensures writer.Exited? ==> !open && (wire == old(wire) || wire == old(wire) + [old(queue)[0]])
    {
      ghost var taken := Own(View(), Event.Take(0));
      OwnKeepsGapless(View(), Event.Take(0));
      var msg := queue[0];
      queue, writer := queue[1..], Holding(msg);
      assert View() == taken;
      var ok := WriteMessage(msg);
      OwnKeepsGapless(taken, Event.Write(0, ok));
      writer := if ok && !msg.Close? then Idle else Exiting;
      assert View() == Own(taken, Event.Write(0, ok));
      if writer.Exiting? { CloseConn(); }
    }

    /** The pump's deferred close. */
    method CloseConn()
      requires Gapless(View()) && writer.Exiting?
      modifies this`open, this`writer
      ensures Gapless(View()) && !open && writer.Exited?
    {
      OwnKeepsGapless(View(), Event.WriterClosesConn(0));
      open, writer := false, Exited;
    }

    /** The write pump, until it would wait for the next frame or has gone. A failed ping or a closed done channel
        ends it too. */
    method WritePump()
      requires Gapless(View()) && writer.Idle?
      modifies this
      ensures Gapless(View()) && offered == old(offered)
      ensures old(wire) <= wire <= old(wire) + old(queue)
      ensures writer.Idle? ==> open == old(open) && queue == [] && wire == old(wire) + old(queue)
      ensures !writer.Idle? ==> writer.Exited? && !open
    {
      ghost var sent: nat := 0;
      while queue != []
        invariant Gapless(View()) && writer.Idle? && offered == old(offered) && open == old(open)
        invariant sent <= |old(queue)| && queue == old(queue)[sent..] && wire == old(wire) + old(queue)[..sent]
        decreases |queue|
      {
        var quit := *;
        if quit {
          OwnKeepsGapless(View(), Event.StopWriting(0));
          writer := Exiting;
          CloseConn();
          return;
        }
        assert old(queue)[..sent + 1] == old(queue)[..sent] + [queue[0]];
        Turn();
        if writer.Exited? { return; }
        sent := sent + 1;
      }
    }

    /** The end of the read pump, after deregistering: stop the write pump, then close the connection. */
    method Teardown()
      requires Gapless(View())
      modifies this`done, this`open
      ensures done && !open && Gapless(View())
    {
      done := true;
      open := false;
    }
  }
}
