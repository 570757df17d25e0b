/** Delivery in the order of the calls to Send. An overflowing call closes the connection only after its select, and
    until then others can overtake it: the frames on the wire are a prefix of the calls exactly when the pump has
    not written past the first call that found the queue full. */
module RelayCalls {
  import opened RelaySpec
  import opened RelayDelivery
  import Close = RelayClose
  import Order = RelayOrder

  /** No frame was written past the first overflowing call. */
  predicate NotPassed(c: Client) {
    c.overflows != [] ==> |c.wire| <= c.overflows[0]
  }

  /** A close-all is about to hang up on this client, with this frame. */
  predicate Holds(half: Half, m: Outgoing, id: nat) {
    || (m == RoomClosed && half == DroppingMessage(id))
    || (m == Close(CLOSE_ROOM_CLOSED) && half == DroppingDirective(id))
  }

  /** The first overflowing call has come to its select and not yet to its hang-up. */
  ghost predicate Awaited(r: Room, id: nat)
    requires id in r.clients
  {
    var c := r.clients[id];
    && c.overflows != [] && c.overflows[0] < |c.called|
    && var m := c.called[c.overflows[0]];
       if m.Relayed? then
         && m.sender in r.clients && r.clients[m.sender].said != []
         && r.clients[m.sender].reader.Dropping? && r.clients[m.sender].reader.to == id
         && m == r.clients[m.sender].said[|r.clients[m.sender].said| - 1]
       else
         exists k :: k in r.closers && Holds(r.closers[k].half, m, id)
  }

  /** Up to the first overflow the calls took effect as they came. From there on another frame has, unless the
      connection was closed before anything else could be written. */
  ghost predicate Tracked(c: Client, awaited: bool) {
    if c.overflows == [] then c.called == c.offered
    else
      var p := c.overflows[0];
      && p < |c.called| && p <= |c.offered| && c.called[..p] == c.offered[..p]
      && (|c.offered| == p ==> awaited)
      && (|c.offered| > p ==> c.offered[p] != c.called[p] || (!c.open && |c.wire| <= p))
  }

  predicate IsDropping(half: Half) {
    half.DroppingMessage? || half.DroppingDirective?
  }

  /** Whoever is about to close a connection has found its queue full. */
  ghost predicate DroppersOverflowed(r: Room) {
    && (forall s :: s in r.clients && r.clients[s].reader.Dropping? && r.clients[s].reader.to in r.clients ==>
          r.clients[r.clients[s].reader.to].overflows != [])
    && (forall k :: k in r.closers && IsDropping(r.closers[k].half) && r.closers[k].half.client in r.clients ==>
          r.clients[r.closers[k].half.client].overflows != [])
  }

  /** What the other theorems know of the room. */
  ghost predicate Known(r: Room) {
    Order.WellPlaced(r) && Close.Disjoint(r) && AllGapless(r)
  }

  ghost predicate Inv(r: Room) {
    && DroppersOverflowed(r)
    && forall id :: id in r.clients && !r.clients[id].done ==> Tracked(r.clients[id], Awaited(r, id))
  }

  /** What delivery depends on, and nothing else of a client. */
  ghost predicate SameCalls(c: Client, c': Client) {
    && c'.called == c.called && c'.overflows == c.overflows && c'.offered == c.offered
    && c'.open == c.open && c'.wire == c.wire && c'.done == c.done
  }

  /** What a step that does not aim at a client may do to it: write to an open connection, and close it. */
  ghost predicate Unoffered(c: Client, c': Client) {
    && c'.called == c.called && c'.overflows == c.overflows && c'.offered == c.offered
    && (c'.open ==> c.open) && (!c.open ==> c'.wire == c.wire) && (c.done ==> c'.done)
  }

  // ---- one client ------------------------------------------------------------------------------------------

  lemma PrefixIff(c: Client, awaited: bool)
    requires Gapless(c) && Tracked(c, awaited) && !c.done
    ensures c.wire <= c.called <==> NotPassed(c)
  {
    if c.overflows != [] {
      var p := c.overflows[0];
      if |c.wire| > p {
        assert c.wire[p] == c.offered[p];
      } else {
        assert c.wire == c.offered[..p][..|c.wire|] == c.called[..p][..|c.wire|];
      }
    }
  }

  /** The client's own steps write only while the connection is open. */
  lemma UntouchedStaysTracked(c: Client, c': Client, awaited: bool, awaited': bool)
    requires Tracked(c, awaited) && (awaited ==> awaited')
    requires Unoffered(c, c')
    ensures Tracked(c', awaited')
  {
  }

  lemma OfferStaysTracked(c: Client, msg: Outgoing, choice: Choice, awaited: bool, awaited': bool)
    requires Tracked(c, awaited) && (c.overflows != [] && awaited ==> msg != c.called[c.overflows[0]])
    ensures Tracked(Offer(c, msg, choice), awaited')
  {
  }

  lemma MissStaysTracked(c: Client, msg: Outgoing, awaited: bool, awaited': bool)
    requires Tracked(c, awaited) && (c.overflows == [] || awaited ==> awaited')
    ensures Tracked(Miss(c, msg), awaited')
  {
  }

  lemma DropStaysTracked(c: Client, msg: Outgoing, awaited: bool, awaited': bool)
    requires Tracked(c, awaited) && Gapless(c) && !c.done && c.overflows != []
    ensures Tracked(Drop(c, msg), awaited')
  {
  }

  // ---- one step ----------------------------------------------------------------------------------------------

  /** The client a step offers a frame to, or fails to: at most one. */
  ghost predicate Aims(r: Room, e: Event, id: nat)
    requires Enabled(r, e)
  {
    match e
    case Relay(_, to, _) => id == to
    case Overflow(_, to) => id == to
    case HangUp(s) => id == r.clients[s].reader.to
    case HandMessage(_, to, _) => id == to
    case HandDirective(k, _) => id == r.closers[k].half.client
    case CloserOverflows(_, to) => id == to
    case CloserHangsUp(k) => id == r.closers[k].half.client
    case _ => false
  }

  /** The frame it offers. */
  function Aimed(r: Room, e: Event): Outgoing
    requires Enabled(r, e)
  {
    match e
    case Relay(s, _, _) => r.clients[s].said[|r.clients[s].said| - 1]
    case Overflow(s, _) => r.clients[s].said[|r.clients[s].said| - 1]
    case HangUp(s) => r.clients[s].said[|r.clients[s].said| - 1]
    case HandDirective(_, _) => Close(CLOSE_ROOM_CLOSED)
    case CloserOverflows(k, _) => if r.closers[k].half.Neither? then RoomClosed else Close(CLOSE_ROOM_CLOSED)
    case CloserHangsUp(k) => if r.closers[k].half.DroppingMessage? then RoomClosed else Close(CLOSE_ROOM_CLOSED)
    case _ => RoomClosed
  }

  lemma OwnOffersNothing(c: Client, e: Event)
    requires OwnStep(e) && (e.Write? && e.ok ==> c.open)
    ensures Unoffered(c, Own(c, e))
  {
  }

  lemma MembershipOffersNothing(r: Room, e: Event, id: nat)
    requires Enabled(r, e) && id in r.clients && (e.Connect? || e.Read? || e.RemoveClient? || e.CloseAll?)
    ensures id in Step(r, e).clients && Unoffered(r.clients[id], Step(r, e).clients[id])
  {
  }

  lemma Unaimed(r: Room, e: Event, id: nat)
    requires Enabled(r, e) && id in r.clients && !Aims(r, e, id)
    ensures id in Step(r, e).clients && Unoffered(r.clients[id], Step(r, e).clients[id])
  {
    if OwnStep(e) {
      OwnOffersNothing(r.clients[e.id], e);
    } else if e.Connect? || e.Read? || e.RemoveClient? || e.CloseAll? {
      MembershipOffersNothing(r, e, id);
    }
  }

  lemma AimedOffer(r: Room, e: Event, id: nat)
    requires Enabled(r, e) && id in r.clients && Aims(r, e, id) && (e.Relay? || e.HandMessage? || e.HandDirective?)
    ensures SameCalls(Offer(r.clients[id], Aimed(r, e), e.choice), Step(r, e).clients[id])
  {
  }

  lemma AimedMiss(r: Room, e: Event, id: nat)
    requires Enabled(r, e) && id in r.clients && Aims(r, e, id) && (e.Overflow? || e.CloserOverflows?)
    ensures SameCalls(Miss(r.clients[id], Aimed(r, e)), Step(r, e).clients[id])
  {
  }

  lemma AimedDrop(r: Room, e: Event, id: nat)
    requires Enabled(r, e) && id in r.clients && Aims(r, e, id) && (e.HangUp? || e.CloserHangsUp?)
    ensures SameCalls(Drop(r.clients[id], Aimed(r, e)), Step(r, e).clients[id])
  {
  }

  lemma SenderStays(r: Room, e: Event, s: nat)
    requires Enabled(r, e) && s in r.clients && r.clients[s].reader.Dropping? && !(e.HangUp? && e.id == s)
    ensures s in Step(r, e).clients && Step(r, e).clients[s].reader == r.clients[s].reader
    ensures Step(r, e).clients[s].said == r.clients[s].said
  {
  }

  lemma CloserStays(r: Room, e: Event, k: nat)
    requires Enabled(r, e) && k in r.closers && IsDropping(r.closers[k].half) && !(e.CloserHangsUp? && e.closer == k)
    ensures k in Step(r, e).closers && Step(r, e).closers[k].half == r.closers[k].half
  {
  }

  /** A call that is on its way to its hang-up stays there until it gets to it. */
  lemma StillAwaited(r: Room, e: Event, id: nat)
    requires Enabled(r, e) && id in r.clients && Awaited(r, id) && !(Aims(r, e, id) && (e.HangUp? || e.CloserHangsUp?))
    requires var c, c' := r.clients[id], Step(r, e).clients[id]; c.called <= c'.called && c.overflows <= c'.overflows
    ensures Awaited(Step(r, e), id)
  {
    var c, r' := r.clients[id], Step(r, e);
    var m := c.called[c.overflows[0]];
    assert r'.clients[id].overflows[0] == c.overflows[0] && r'.clients[id].called[c.overflows[0]] == m;
    if m.Relayed? {
      SenderStays(r, e, m.sender);
    } else {
      var k :| k in r.closers && Holds(r.closers[k].half, m, id);
      CloserStays(r, e, k);
    }
  }

  /** Its sender is busy with it, so what is offered in the meantime is another's. */
  lemma OvertakerDiffers(r: Room, e: Event, id: nat)
    requires Known(r) && Enabled(r, e) && id in r.clients && Awaited(r, id)
    requires Aims(r, e, id) && (e.Relay? || e.HandMessage? || e.HandDirective?)
    ensures Aimed(r, e) != r.clients[id].called[r.clients[id].overflows[0]]
  {
    if e.Relay? {
      assert Order.Placed(r.clients[e.id], e.id, r.clients.Keys);
    }
  }

  /** A call that has just overflowed is on its way. */
  lemma NewlyAwaited(r: Room, e: Event, id: nat)
    requires Known(r) && Enabled(r, e) && id in r.clients && Aims(r, e, id) && (e.Overflow? || e.CloserOverflows?)
    requires r.clients[id].overflows == []
    ensures Awaited(Step(r, e), id)
  {
    var r' := Step(r, e);
    AimedMiss(r, e, id);
    assert r'.clients[id].called[r'.clients[id].overflows[0]] == Aimed(r, e);
    if e.Overflow? {
      assert Order.Placed(r.clients[e.id], e.id, r.clients.Keys);
      assert Aimed(r, e) in r.clients[e.id].said;
    } else {
      assert e.closer in r'.closers;
    }
  }

  lemma SameStaysTracked(c: Client, c': Client, awaited: bool)
    requires Tracked(c, awaited) && SameCalls(c, c')
    ensures Tracked(c', awaited)
  {
  }

  lemma AimedStaysTracked(r: Room, e: Event, id: nat)
    requires Known(r) && DroppersOverflowed(r) && Enabled(r, e) && id in r.clients
      && Aims(r, e, id) && !r.clients[id].done
    requires Tracked(r.clients[id], Awaited(r, id))
    ensures id in Step(r, e).clients && Tracked(Step(r, e).clients[id], Awaited(Step(r, e), id))
  {
    var c, msg, r' := r.clients[id], Aimed(r, e), Step(r, e);
    var before, after := Awaited(r, id), Awaited(r', id);
    if e.Relay? || e.HandMessage? || e.HandDirective? {
      if before { OvertakerDiffers(r, e, id); }
      AimedOffer(r, e, id);
      OfferStaysTracked(c, msg, e.choice, before, after);
      SameStaysTracked(Offer(c, msg, e.choice), r'.clients[id], after);
    } else if e.Overflow? || e.CloserOverflows? {
      AimedMiss(r, e, id);
      if before { StillAwaited(r, e, id); }
      if c.overflows == [] { NewlyAwaited(r, e, id); }
      MissStaysTracked(c, msg, before, after);
      SameStaysTracked(Miss(c, msg), r'.clients[id], after);
    } else {
      AimedDrop(r, e, id);
      DropStaysTracked(c, msg, before, after);
      SameStaysTracked(Drop(c, msg), r'.clients[id], after);
    }
  }

  lemma UnaimedStaysTracked(r: Room, e: Event, id: nat)
    requires Enabled(r, e) && id in r.clients && !Aims(r, e, id) && Tracked(r.clients[id], Awaited(r, id))
    ensures id in Step(r, e).clients && Tracked(Step(r, e).clients[id], Awaited(Step(r, e), id))
  {
    Unaimed(r, e, id);
    if Awaited(r, id) { StillAwaited(r, e, id); }
    UntouchedStaysTracked(r.clients[id], Step(r, e).clients[id], Awaited(r, id), Awaited(Step(r, e), id));
  }

  lemma OverflowsStay(r: Room, e: Event, id: nat)
    requires Enabled(r, e) && id in r.clients
    ensures id in Step(r, e).clients && r.clients[id].overflows <= Step(r, e).clients[id].overflows
    ensures r.clients[id].done ==> Step(r, e).clients[id].done
  {
    if !Aims(r, e, id) {
      Unaimed(r, e, id);
    } else if e.Overflow? || e.CloserOverflows? {
      AimedMiss(r, e, id);
    } else if e.HangUp? || e.CloserHangsUp? {
      AimedDrop(r, e, id);
    } else {
      AimedOffer(r, e, id);
    }
  }

  lemma DropperWasDropping(r: Room, e: Event, s: nat)
    requires Enabled(r, e) && s in Step(r, e).clients && Step(r, e).clients[s].reader.Dropping?
    requires !(e.Overflow? && s == e.id)
    ensures s in r.clients && r.clients[s].reader == Step(r, e).clients[s].reader
  {
  }

  lemma SendersKeepDroppers(r: Room, e: Event, s: nat)
    requires Known(r) && DroppersOverflowed(r) && Enabled(r, e) && s in Step(r, e).clients
    requires Step(r, e).clients[s].reader.Dropping? && Step(r, e).clients[s].reader.to in Step(r, e).clients
    ensures Step(r, e).clients[Step(r, e).clients[s].reader.to].overflows != []
  {
    var to := Step(r, e).clients[s].reader.to;
    if e.Overflow? && s == e.id {
      AimedMiss(r, e, to);
    } else {
      DropperWasDropping(r, e, s);
      assert Order.Placed(r.clients[s], s, r.clients.Keys);
      OverflowsStay(r, e, to);
    }
  }

  lemma ClosersKeepDroppers(r: Room, e: Event, k: nat)
    requires Known(r) && DroppersOverflowed(r) && Enabled(r, e) && k in Step(r, e).closers
    requires IsDropping(Step(r, e).closers[k].half) && Step(r, e).closers[k].half.client in Step(r, e).clients
    ensures Step(r, e).clients[Step(r, e).closers[k].half.client].overflows != []
  {
    var to := Step(r, e).closers[k].half.client;
    if e.CloserOverflows? && k == e.closer {
      AimedMiss(r, e, to);
    } else {
      assert k in r.closers && r.closers[k].half == Step(r, e).closers[k].half;
      OverflowsStay(r, e, to);
    }
  }

  lemma StepKeepsInv(r: Room, e: Event)
    requires Known(r) && Inv(r) && Enabled(r, e)
    ensures Inv(Step(r, e))
  {
    var r' := Step(r, e);
    forall s | s in r'.clients && r'.clients[s].reader.Dropping? && r'.clients[s].reader.to in r'.clients
      ensures r'.clients[r'.clients[s].reader.to].overflows != []
    {
      SendersKeepDroppers(r, e, s);
    }
    forall k | k in r'.closers && IsDropping(r'.closers[k].half) && r'.closers[k].half.client in r'.clients
      ensures r'.clients[r'.closers[k].half.client].overflows != []
    {
      ClosersKeepDroppers(r, e, k);
    }
    forall id | id in r'.clients && !r'.clients[id].done ensures Tracked(r'.clients[id], Awaited(r', id)) {
      if id in r.clients {
        OverflowsStay(r, e, id);
        if Aims(r, e, id) { AimedStaysTracked(r, e, id); } else { UnaimedStaysTracked(r, e, id); }
      }
    }
  }

  lemma {:induction false} ReachableInv(rooms: seq<Room>, events: seq<Event>, k: nat)
    requires IsRun(rooms, events) && k < |rooms|
    ensures Known(rooms[k]) && Inv(rooms[k])
  {
    Order.ReachableInv(rooms, events, k);
    Close.ReachableInv(rooms, events, k);
    ReachableGapless(rooms, events, k);
    if k > 0 {
      ReachableInv(rooms, events, k - 1);
      StepKeepsInv(rooms[k - 1], events[k - 1]);
    }
  }

  /** In every run, until its own teardown a client's wire is a prefix of the calls in the order of their selects if
      and only if the pump has not written past the first call that found the queue full. */
  lemma CallsArePrefixIff(rooms: seq<Room>, events: seq<Event>, k: nat, id: nat)
    requires IsRun(rooms, events) && k < |rooms| && id in rooms[k].clients && !rooms[k].clients[id].done
    ensures rooms[k].clients[id].wire <= rooms[k].clients[id].called <==> NotPassed(rooms[k].clients[id])
  {
    ReachableInv(rooms, events, k);
    PrefixIff(rooms[k].clients[id], Awaited(rooms[k], id));
  }
}
