/** What one connection sees under every interleaving. */
module RelayDelivery {
  import opened RelaySpec

  function Held(w: Writer): seq<Outgoing> {
    if w.Holding? then [w.msg] else []
  }

  ghost predicate EndsAtClose(wire: seq<Outgoing>) {
    forall i :: 0 <= i < |wire| && wire[i].Close? ==> i == |wire| - 1
  }

  /** Per connection. Nothing follows a close frame; while the connection is open and its own teardown has not
      begun, what was offered is what is written, held or queued; and what is written is always a prefix of it. */
  ghost predicate Gapless(c: Client) {
    && |c.queue| <= SEND_BUFFER
    && EndsAtClose(c.wire)
    && (c.writer.Idle? || c.writer.Holding? ==> forall i :: 0 <= i < |c.wire| ==> !c.wire[i].Close?)
    && (c.open && !c.done && (c.writer.Idle? || c.writer.Holding?) ==> c.offered == c.wire + Held(c.writer) + c.queue)
    && (!c.done ==> c.wire <= c.offered)
  }

  lemma OfferKeepsGapless(c: Client, msg: Outgoing, choice: Choice)
    requires Gapless(c) && Ready(c, choice)
    ensures Gapless(Offer(c, msg, choice))
  {
    assert c.wire + Held(c.writer) + (c.queue + [msg]) == c.wire + Held(c.writer) + c.queue + [msg];
  }

  /** Between the overflow and the hang-up the queue may have moved on; nothing more is promised of it then. */
  lemma DropKeepsGapless(c: Client, msg: Outgoing)
    requires Gapless(c)
    ensures Gapless(Miss(c, msg)) && Gapless(Drop(c, msg))
  {
  }

  lemma WriteKeepsGapless(c: Client, ok: bool)
    requires Gapless(c) && c.writer.Holding? && (ok ==> c.open)
    ensures Gapless(Own(c, Write(0, ok)))
  {
    var c' := Own(c, Write(0, ok));
    if ok && !c.done {
      assert c.offered == c'.wire + c.queue;
      assert c'.wire + Held(c'.writer) + c.queue == c'.wire + c.queue;
    }
  }

  lemma OwnKeepsGapless(c: Client, e: Event)
    requires Gapless(c)
    requires e.Take? ==> c.writer.Idle? && c.queue != []
    requires e.Write? ==> c.writer.Holding? && (e.ok ==> c.open)
    requires e.CloseDone? || e.ReaderClosesConn? || e.Take? || e.Write? || e.StopWriting? || e.WriterClosesConn?
             || e.ConnFails? || e.EndBroadcast?
    ensures Gapless(Own(c, e))
  {
    if e.Take? {
      assert c.queue == [c.queue[0]] + c.queue[1..];
      assert c.wire + [] + c.queue == c.wire + [c.queue[0]] + c.queue[1..];
    } else if e.Write? {
      WriteKeepsGapless(c, e.ok);
    }
  }

  ghost predicate AllGapless(r: Room) {
    forall id :: id in r.clients ==> Gapless(r.clients[id])
  }

  lemma RelayKeepsGapless(r: Room, e: Event)
    requires AllGapless(r) && Enabled(r, e) && e.Relay?
    ensures AllGapless(Step(r, e))
  {
    OfferKeepsGapless(r.clients[e.to], r.clients[e.id].said[|r.clients[e.id].said| - 1], e.choice);
  }

  lemma BroadcasterDropsKeepGapless(r: Room, e: Event)
    requires AllGapless(r) && Enabled(r, e) && (e.Overflow? || e.HangUp?)
    ensures AllGapless(Step(r, e))
  {
  }

  lemma CloserDropsKeepGapless(r: Room, e: Event)
    requires AllGapless(r) && Enabled(r, e) && (e.CloserOverflows? || e.CloserHangsUp?)
    ensures AllGapless(Step(r, e))
  {
  }

  lemma HandKeepsGapless(r: Room, e: Event)
    requires AllGapless(r) && Enabled(r, e) && (e.HandMessage? || e.HandDirective?)
    ensures AllGapless(Step(r, e))
  {
    if e.HandMessage? {
      OfferKeepsGapless(r.clients[e.to], RoomClosed, e.choice);
    } else {
      OfferKeepsGapless(r.clients[r.closers[e.closer].half.client], Close(CLOSE_ROOM_CLOSED), e.choice);
    }
  }

  lemma ReadKeepsGapless(r: Room, e: Event)
    requires AllGapless(r) && Enabled(r, e) && (e.Connect? || e.Read?)
    ensures AllGapless(Step(r, e))
  {
  }

  lemma LeavingKeepsGapless(r: Room, e: Event)
    requires AllGapless(r) && Enabled(r, e) && (e.RemoveClient? || e.CloseAll?)
    ensures AllGapless(Step(r, e))
  {
  }

  lemma OwnStepKeepsGapless(r: Room, e: Event)
    requires AllGapless(r) && Enabled(r, e) && OwnStep(e)
    ensures AllGapless(Step(r, e))
  {
    OwnKeepsGapless(r.clients[e.id], e);
  }

  lemma StepKeepsGapless(r: Room, e: Event)
    requires AllGapless(r) && Enabled(r, e)
    ensures AllGapless(Step(r, e))
  {
    if OwnStep(e) {
      OwnStepKeepsGapless(r, e);
    } else if e.Connect? || e.Read? {
      ReadKeepsGapless(r, e);
    } else if e.RemoveClient? || e.CloseAll? {
      LeavingKeepsGapless(r, e);
    } else if e.Relay? {
      RelayKeepsGapless(r, e);
    } else if e.Overflow? || e.HangUp? {
      BroadcasterDropsKeepGapless(r, e);
    } else if e.CloserOverflows? || e.CloserHangsUp? {
      CloserDropsKeepGapless(r, e);
    } else {
      HandKeepsGapless(r, e);
    }
  }

  lemma {:induction false} ReachableGapless(rooms: seq<Room>, events: seq<Event>, k: nat)
    requires IsRun(rooms, events) && k < |rooms|
    ensures AllGapless(rooms[k])
  {
    if k > 0 {
      ReachableGapless(rooms, events, k - 1);
      StepKeepsGapless(rooms[k - 1], events[k - 1]);
    }
  }

  /** Gap-free delivery: under every interleaving, until a client's own teardown closes its done channel, the
      frames on its wire are a prefix, in order, of the frames it was offered; and never does a frame follow a
      close frame. A frame counts as offered when its Send takes effect: when it is queued, or, if the queue was
      full, when that Send gets to closing the connection. Between the two other Sends can overtake it. In the
      order of the calls themselves the prefix can fail; RelayCalls says exactly when. */
  lemma DeliveryIsGapFree(rooms: seq<Room>, events: seq<Event>, k: nat, id: nat)
    requires IsRun(rooms, events) && k < |rooms| && id in rooms[k].clients
    ensures !rooms[k].clients[id].done ==> rooms[k].clients[id].wire <= rooms[k].clients[id].offered
    ensures rooms[k].clients[id].open && !rooms[k].clients[id].done && rooms[k].clients[id].writer.Idle? ==>
              rooms[k].clients[id].offered == rooms[k].clients[id].wire + rooms[k].clients[id].queue
    ensures EndsAtClose(rooms[k].clients[id].wire)
  {
    ReachableGapless(rooms, events, k);
  }

  /** A connection has at most 256 frames queued, and is found full with exactly so many, its teardown not begun. */
  lemma FullAtCapacity(rooms: seq<Room>, events: seq<Event>, k: nat)
    requires IsRun(rooms, events) && k < |rooms|
    ensures forall id :: id in rooms[k].clients ==> |rooms[k].clients[id].queue| <= 256
    ensures k < |events| && (events[k].Overflow? || events[k].CloserOverflows?) ==>
              var c := rooms[k].clients[events[k].to]; |c.queue| == 256 && !c.done
  {
    ReachableGapless(rooms, events, k);
    assert forall id :: id in rooms[k].clients ==> Gapless(rooms[k].clients[id]);
    if k < |events| {
      assert Enabled(rooms[k], events[k]);
    }
  }
}
