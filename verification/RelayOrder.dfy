/** Per-sender order: what a receiver gets from a sender is a contiguous run of what the sender said. */
module RelayOrder {
  import opened RelaySpec
  import opened RelayDelivery
  import opened RelayEvents

  /** How much the sender had said when the receiver was registered: the first broadcast whose snapshot can
      include the receiver. A sender that connected later had said nothing. */
  ghost function First(to: Client, from: nat): nat {
    if from in to.joinedAt then to.joinedAt[from] else 0
  }

  /** How much the sender had said when the receiver was deregistered, or has said by now. */
  ghost function LastSaid(to: Client, live: bool, sender: Client, from: nat): nat {
    if live then |sender.said| else if from in to.leftAt then to.leftAt[from] else 0
  }

  ghost function Last(r: Room, to: nat, from: nat): nat
    requires to in r.clients && from in r.clients
  {
    LastSaid(r.clients[to], to in r.registered, r.clients[from], from)
  }

  /** The sender's current broadcast has not got to the receiver yet. */
  ghost predicate Owed(from: Client, to: nat) {
    (from.reader.Sending? || from.reader.Dropping?) && to in from.reader.left
  }

  ghost predicate SaysOwn(c: Client, id: nat) {
    forall i :: 0 <= i < |c.said| ==> c.said[i].Relayed? && c.said[i].sender == id
  }

  /** A receiver has exactly a sender's frames from First up to Last, but for one it is still owed. */
  ghost predicate InOrder(receiver: Client, to: nat, live: bool, sender: Client, from: nat) {
    var owed := if Owed(sender, to) then 1 else 0;
    var first, last := First(receiver, from), LastSaid(receiver, live, sender, from);
    && first + owed <= last <= |sender.said|
    && (owed == 1 ==> last == |sender.said|)
    && From(receiver.offered, from) == if to == from then [] else sender.said[first..last - owed]
  }

  ghost predicate Run(r: Room, to: nat, from: nat)
    requires to in r.clients && from in r.clients
  {
    InOrder(r.clients[to], to, to in r.registered, r.clients[from], from)
  }

  /** A broadcast in progress has said something, and serves clients of the room other than its own. */
  ghost predicate Serves(c: Client, id: nat, all: set<nat>) {
    c.reader.Sending? || c.reader.Dropping? ==>
      && c.said != [] && id !in c.reader.left && c.reader.left <= all
      && (c.reader.Dropping? ==> c.reader.to in c.reader.left)
  }

  ghost predicate Placed(c: Client, id: nat, all: set<nat>) {
    SaysOwn(c, id) && c.joinedAt.Keys <= all && c.leftAt.Keys <= all && Serves(c, id, all)
  }

  ghost predicate WellPlaced(r: Room) {
    && r.registered <= r.clients.Keys
    && (forall id :: id in r.clients ==> Placed(r.clients[id], id, r.clients.Keys))
    && (forall k :: k in r.closers ==> r.closers[k].left <= r.clients.Keys)
  }

  /** Nobody has a frame of a client that never connected. */
  ghost predicate NoStrangers(r: Room) {
    forall to, from :: to in r.clients && from !in r.clients ==> From(r.clients[to].offered, from) == []
  }

  ghost predicate Runs(r: Room) {
    && NoStrangers(r)
    && forall to, from :: to in r.clients && from in r.clients ==> Run(r, to, from)
  }

  ghost predicate Inv(r: Room) {
    WellPlaced(r) && Runs(r)
  }

  lemma PlacedAmongMore(c: Client, id: nat, all: set<nat>, more: set<nat>)
    requires Placed(c, id, all) && all <= more
    ensures Placed(c, id, more)
  {
  }

  lemma OwnStaysPlaced(c: Client, e: Event, id: nat, all: set<nat>)
    requires Placed(c, id, all) && OwnStep(e)
    ensures Placed(Own(c, e), id, all)
  {
  }

  lemma OwnKeepsPlaced(r: Room, e: Event, id: nat)
    requires WellPlaced(r) && Enabled(r, e) && OwnStep(e) && id in r.clients
    ensures Placed(Step(r, e).clients[id], id, r.clients.Keys)
  {
    OwnStaysPlaced(r.clients[id], e, id, r.clients.Keys);
  }

  lemma ClosingKeepsPlaced(r: Room, e: Event, id: nat)
    requires WellPlaced(r) && Enabled(r, e) && ClosingEvent(e) && id in r.clients
    ensures Placed(Step(r, e).clients[id], id, r.clients.Keys)
  {
    assert Placed(r.clients[id], id, r.clients.Keys);
  }

  lemma BroadcastKeepsPlaced(r: Room, e: Event, id: nat)
    requires WellPlaced(r) && Enabled(r, e) && (e.Read? || e.Relay?) && id in r.clients
    ensures Placed(Step(r, e).clients[id], id, r.clients.Keys)
  {
    assert Placed(r.clients[id], id, r.clients.Keys);
  }

  lemma DroppingKeepsPlaced(r: Room, e: Event, id: nat)
    requires WellPlaced(r) && Enabled(r, e) && (e.Overflow? || e.HangUp?) && id in r.clients
    ensures Placed(Step(r, e).clients[id], id, r.clients.Keys)
  {
    assert Placed(r.clients[id], id, r.clients.Keys);
  }

  lemma RemovalKeepsPlaced(r: Room, e: Event, id: nat)
    requires WellPlaced(r) && Enabled(r, e) && e.RemoveClient? && id in r.clients
    ensures Placed(Step(r, e).clients[id], id, r.clients.Keys)
  {
    assert Placed(r.clients[id], id, r.clients.Keys);
  }

  lemma CloseAllKeepsPlaced(r: Room, e: Event, id: nat)
    requires WellPlaced(r) && Enabled(r, e) && e.CloseAll? && id in r.clients
    ensures Placed(Step(r, e).clients[id], id, r.clients.Keys)
  {
    assert Placed(r.clients[id], id, r.clients.Keys);
  }

  lemma ConnectKeepsPlaced(r: Room, e: Event)
    requires WellPlaced(r) && Enabled(r, e) && e.Connect?
    ensures WellPlaced(Step(r, e))
  {
    var r' := Step(r, e);
    forall id | id in r'.clients ensures Placed(r'.clients[id], id, r'.clients.Keys) {
      if id in r.clients {
        PlacedAmongMore(r.clients[id], id, r.clients.Keys, r'.clients.Keys);
      }
    }
  }

  lemma StepKeepsMembers(r: Room, e: Event)
    requires r.registered <= r.clients.Keys && Enabled(r, e) && !e.Connect?
    ensures Step(r, e).clients.Keys == r.clients.Keys && Step(r, e).registered <= r.registered
  {
  }

  lemma StepKeepsClosers(r: Room, e: Event)
    requires WellPlaced(r) && Enabled(r, e)
    ensures forall k :: k in Step(r, e).closers ==> Step(r, e).closers[k].left <= r.clients.Keys
  {
    if ClosingEvent(e) {
      assert Step(r, e).closers[e.closer].left <= r.closers[e.closer].left;
    }
  }

  lemma StepKeepsPlaced(r: Room, e: Event)
    requires WellPlaced(r) && Enabled(r, e) && !e.Connect?
    ensures WellPlaced(Step(r, e))
  {
    StepKeepsMembers(r, e);
    StepKeepsClosers(r, e);
    forall id | id in r.clients ensures Placed(Step(r, e).clients[id], id, r.clients.Keys) {
      if OwnStep(e) {
        OwnKeepsPlaced(r, e, id);
      } else if ClosingEvent(e) {
        ClosingKeepsPlaced(r, e, id);
      } else if e.Overflow? || e.HangUp? {
        DroppingKeepsPlaced(r, e, id);
      } else if e.RemoveClient? {
        RemovalKeepsPlaced(r, e, id);
      } else if e.CloseAll? {
        CloseAllKeepsPlaced(r, e, id);
      } else {
        BroadcastKeepsPlaced(r, e, id);
      }
    }
  }

  // ---- steps that move no frame between clients ---------------------------------------------------------

  /** Everything the order of delivery depends on is as it was. */
  ghost predicate SameOrder(r: Room, r': Room) {
    && r'.registered == r.registered && r'.clients.Keys == r.clients.Keys
    && forall id :: id in r.clients ==>
         && r'.clients[id].said == r.clients[id].said
         && r'.clients[id].joinedAt == r.clients[id].joinedAt
         && r'.clients[id].leftAt == r.clients[id].leftAt
         && (forall from :: From(r'.clients[id].offered, from) == From(r.clients[id].offered, from))
         && (forall to :: Owed(r'.clients[id], to) <==> Owed(r.clients[id], to))
  }

  lemma SameOrderKeepsRuns(r: Room, r': Room)
    requires Inv(r) && SameOrder(r, r')
    ensures Runs(r')
  {
    forall to, from | to in r'.clients && from in r'.clients ensures Run(r', to, from) {
      assert Run(r, to, from);
    }
  }

  ghost predicate SameClient(c: Client, c': Client) {
    && c'.said == c.said && c'.joinedAt == c.joinedAt && c'.leftAt == c.leftAt
    && (forall from :: From(c'.offered, from) == From(c.offered, from))
    && (forall to :: Owed(c', to) <==> Owed(c, to))
  }

  lemma OwnIsSame(c: Client, e: Event)
    requires OwnStep(e)
    requires e.EndBroadcast? ==> c.reader == Sending({})
    requires e.CloseDone? ==> c.reader.Removed?
    requires e.ReaderClosesConn? ==> c.reader.Stopped?
    ensures SameClient(c, Own(c, e))
  {
  }

  lemma OfferIsSame(c: Client, msg: Outgoing, choice: Choice)
    requires !msg.Relayed?
    ensures SameClient(c, Offer(c, msg, choice)) && SameClient(c, Drop(c, msg))
  {
    forall from ensures From(c.offered + [msg], from) == From(c.offered, from) {
      FromAppend(c.offered, msg, from);
    }
  }

  lemma OneClientSame(r: Room, r': Room, id: nat)
    requires id in r.clients && id in r'.clients && SameClient(r.clients[id], r'.clients[id])
    requires r'.clients == r.clients[id := r'.clients[id]] && r'.registered == r.registered
    ensures SameOrder(r, r')
  {
  }

  lemma OwnKeepsRuns(r: Room, e: Event)
    requires Inv(r) && Enabled(r, e) && OwnStep(e)
    ensures Runs(Step(r, e))
  {
    OwnIsSame(r.clients[e.id], e);
    OneClientSame(r, Step(r, e), e.id);
    SameOrderKeepsRuns(r, Step(r, e));
  }

  lemma ClosingIsSame(r: Room, e: Event, id: nat)
    requires Enabled(r, e) && ClosingEvent(e) && id in r.clients
    ensures SameClient(r.clients[id], Step(r, e).clients[id])
  {
    OfferIsSame(r.clients[id], RoomClosed, Enqueue);
    OfferIsSame(r.clients[id], RoomClosed, Skip);
    OfferIsSame(r.clients[id], Close(CLOSE_ROOM_CLOSED), Enqueue);
    OfferIsSame(r.clients[id], Close(CLOSE_ROOM_CLOSED), Skip);
  }

  lemma ClosingKeepsRuns(r: Room, e: Event)
    requires Inv(r) && Enabled(r, e) && ClosingEvent(e)
    ensures Runs(Step(r, e))
  {
    StepKeepsMembers(r, e);
    forall id | id in r.clients ensures SameClient(r.clients[id], Step(r, e).clients[id]) {
      ClosingIsSame(r, e, id);
    }
    SameOrderKeepsRuns(r, Step(r, e));
  }

  // ---- registration -------------------------------------------------------------------------------------------

  lemma ConnectKeepsRuns(r: Room, e: Event)
    requires Inv(r) && Enabled(r, e) && e.Connect?
    ensures Runs(Step(r, e))
  {
    var r' := Step(r, e);
    forall to, from | to in r'.clients && from in r'.clients ensures Run(r', to, from) {
      if to in r.clients && from in r.clients {
        assert Run(r, to, from);
      }
    }
  }

  /** Deregistering a client, or a broadcaster leaving its loop, moves no end of a run. */
  lemma LeavingKeepsOrder(receiver: Client, to: nat, live: bool, sender: Client, from: nat,
                          receiver': Client, live': bool, sender': Client)
    requires InOrder(receiver, to, live, sender, from)
    requires receiver'.joinedAt == receiver.joinedAt && receiver'.offered == receiver.offered
    requires sender'.said == sender.said && (Owed(sender', to) <==> Owed(sender, to))
    requires if live == live' then receiver'.leftAt == receiver.leftAt
             else live && from in receiver'.leftAt && receiver'.leftAt[from] == |sender.said|
    ensures InOrder(receiver', to, live', sender', from)
  {
  }

  lemma LeavingChanges(r: Room, e: Event, id: nat)
    requires Enabled(r, e) && (e.RemoveClient? || e.CloseAll?) && id in r.clients
    ensures var r' := Step(r, e);
            var c, c' := r.clients[id], r'.clients[id];
            && c'.said == c.said && c'.joinedAt == c.joinedAt && c'.offered == c.offered
            && (forall to :: Owed(c', to) <==> Owed(c, to))
            && (id in r'.registered ==> id in r.registered)
            && if id in r.registered && id !in r'.registered
               then c'.leftAt == map s | s in r.clients :: |r.clients[s].said|
               else c'.leftAt == c.leftAt
  {
  }

  lemma LeavingKeepsRuns(r: Room, e: Event)
    requires Inv(r) && Enabled(r, e) && (e.RemoveClient? || e.CloseAll?)
    ensures Runs(Step(r, e))
  {
    var r' := Step(r, e);
    StepKeepsMembers(r, e);
    forall to, from | to in r'.clients && from in r'.clients ensures Run(r', to, from) {
      assert Run(r, to, from);
      LeavingChanges(r, e, to);
      LeavingChanges(r, e, from);
      LeavingKeepsOrder(r.clients[to], to, to in r.registered, r.clients[from], from,
                        r'.clients[to], to in r'.registered, r'.clients[from]);
    }
    forall to, from | to in r'.clients && from !in r'.clients ensures From(r'.clients[to].offered, from) == [] {
      LeavingChanges(r, e, to);
    }
  }

  // ---- broadcasting --------------------------------------------------------------------------------------------

  /** One more frame said: owed to the clients registered now, and none to the others. */
  lemma SayingKeepsOrder(receiver: Client, to: nat, live: bool, sender: Client, from: nat, sender': Client)
    requires InOrder(receiver, to, live, sender, from) && !Owed(sender, to)
    requires |sender'.said| == |sender.said| + 1 && sender'.said[..|sender.said|] == sender.said
    requires Owed(sender', to) <==> live && to != from
    requires to == from ==> From(receiver.offered, from) == []
    ensures InOrder(receiver, to, live, sender', from)
  {
    if to != from {
      var first, last := First(receiver, from), LastSaid(receiver, live, sender, from);
      assert sender'.said[first..last] == sender.said[first..last];
    }
  }

  lemma ReadKeepsRuns(r: Room, e: Event)
    requires Inv(r) && Enabled(r, e) && e.Read?
    ensures Runs(Step(r, e))
  {
    var r' := Step(r, e);
    forall to, from | to in r'.clients && from in r'.clients ensures Run(r', to, from) {
      assert Run(r, to, from);
      if from == e.id {
        SayingKeepsOrder(r.clients[to], to, to in r.registered, r.clients[from], from, r'.clients[from]);
      }
    }
  }

  /** An overflow changes nothing yet: the frame is still owed. */
  lemma OverflowIsSame(r: Room, e: Event, id: nat)
    requires Enabled(r, e) && e.Overflow? && id in r.clients
    ensures SameClient(r.clients[id], Step(r, e).clients[id])
  {
  }

  lemma OverflowKeepsRuns(r: Room, e: Event)
    requires Inv(r) && Enabled(r, e) && e.Overflow?
    ensures Runs(Step(r, e))
  {
    StepKeepsMembers(r, e);
    forall id | id in r.clients ensures SameClient(r.clients[id], Step(r, e).clients[id]) {
      OverflowIsSame(r, e, id);
    }
    SameOrderKeepsRuns(r, Step(r, e));
  }

  /** The client a broadcaster's step is about. */
  function Target(r: Room, e: Event): nat
    requires Enabled(r, e) && (e.Relay? || e.HangUp?)
  {
    if e.Relay? then e.to else r.clients[e.id].reader.to
  }

  /** What relaying one frame changes: the receiver is offered it, and the sender owes it to one client less. */
  lemma RelayChanges(r: Room, e: Event, id: nat)
    requires Enabled(r, e) && (e.Relay? || e.HangUp?) && e.id != Target(r, e) && id in r.clients
    ensures var c, c' := r.clients[id], Step(r, e).clients[id];
            && c'.said == c.said && c'.joinedAt == c.joinedAt && c'.leftAt == c.leftAt
            && c'.reader == (if id == e.id then Sending(c.reader.left - {Target(r, e)}) else c.reader)
            && c'.offered == if id == Target(r, e) then c.offered + [r.clients[e.id].said[|r.clients[e.id].said| - 1]]
                             else c.offered
    ensures Step(r, e).registered == r.registered
  {
  }

  lemma OthersAreServed(r: Room, e: Event)
    requires WellPlaced(r) && Enabled(r, e) && (e.Relay? || e.HangUp?)
    ensures e.id != Target(r, e) && Owed(r.clients[e.id], Target(r, e)) && SaysOwn(r.clients[e.id], e.id)
  {
    assert Placed(r.clients[e.id], e.id, r.clients.Keys);
  }

  /** What the receiver has from each sender. */
  lemma RelayOffers(r: Room, e: Event, from: nat)
    requires WellPlaced(r) && Enabled(r, e) && (e.Relay? || e.HangUp?)
    ensures var got, to := From(r.clients[Target(r, e)].offered, from), Target(r, e);
            From(Step(r, e).clients[to].offered, from)
            == if from == e.id then got + [r.clients[e.id].said[|r.clients[e.id].said| - 1]] else got
  {
    OthersAreServed(r, e);
    RelayChanges(r, e, Target(r, e));
    FromAppend(r.clients[Target(r, e)].offered, r.clients[e.id].said[|r.clients[e.id].said| - 1], from);
  }

  /** The frame the sender owed has been offered. */
  lemma ServingKeepsOrder(receiver: Client, to: nat, live: bool, sender: Client, from: nat,
                          receiver': Client, sender': Client)
    requires to != from && InOrder(receiver, to, live, sender, from) && Owed(sender, to) && sender.said != []
    requires receiver'.joinedAt == receiver.joinedAt && receiver'.leftAt == receiver.leftAt
    requires From(receiver'.offered, from) == From(receiver.offered, from) + [sender.said[|sender.said| - 1]]
    requires sender'.said == sender.said && !Owed(sender', to)
    ensures InOrder(receiver', to, live, sender', from)
  {
    var said, first := sender.said, First(receiver, from);
    assert LastSaid(receiver', live, sender', from) == LastSaid(receiver, live, sender, from) == |said|;
    assert said[first..|said|] == said[first..|said| - 1] + [said[|said| - 1]];
  }

  lemma RelayedRun(r: Room, e: Event)
    requires WellPlaced(r) && Enabled(r, e) && (e.Relay? || e.HangUp?) && Run(r, Target(r, e), e.id)
    ensures Run(Step(r, e), Target(r, e), e.id)
  {
    var to, r' := Target(r, e), Step(r, e);
    OthersAreServed(r, e);
    RelayOffers(r, e, e.id);
    RelayChanges(r, e, to);
    RelayChanges(r, e, e.id);
    ServingKeepsOrder(r.clients[to], to, to in r.registered, r.clients[e.id], e.id, r'.clients[to], r'.clients[e.id]);
  }

  /** Nothing between the two has changed. */
  lemma SameKeepsOrder(receiver: Client, to: nat, live: bool, sender: Client, from: nat,
                       receiver': Client, sender': Client)
    requires InOrder(receiver, to, live, sender, from)
    requires receiver'.joinedAt == receiver.joinedAt && receiver'.leftAt == receiver.leftAt
    requires From(receiver'.offered, from) == From(receiver.offered, from)
    requires sender'.said == sender.said && (Owed(sender', to) <==> Owed(sender, to))
    ensures InOrder(receiver', to, live, sender', from)
  {
  }

  lemma OtherRun(r: Room, e: Event, to: nat, from: nat)
    requires WellPlaced(r) && Enabled(r, e) && (e.Relay? || e.HangUp?)
    requires to in r.clients && from in r.clients && Run(r, to, from) && !(to == Target(r, e) && from == e.id)
    ensures Run(Step(r, e), to, from)
  {
    var r' := Step(r, e);
    OthersAreServed(r, e);
    RelayOffers(r, e, from);
    RelayChanges(r, e, to);
    RelayChanges(r, e, from);
    assert Owed(r'.clients[from], to) <==> Owed(r.clients[from], to);
    SameKeepsOrder(r.clients[to], to, to in r.registered, r.clients[from], from, r'.clients[to], r'.clients[from]);
  }

  lemma RelayKeepsRuns(r: Room, e: Event)
    requires Inv(r) && Enabled(r, e) && (e.Relay? || e.HangUp?)
    ensures Runs(Step(r, e))
  {
    var r' := Step(r, e);
    StepKeepsMembers(r, e);
    OthersAreServed(r, e);
    forall to, from | to in r'.clients && from in r'.clients ensures Run(r', to, from) {
      assert Run(r, to, from);
      if to == Target(r, e) && from == e.id {
        RelayedRun(r, e);
      } else {
        OtherRun(r, e, to, from);
      }
    }
    forall to, from | to in r'.clients && from !in r'.clients ensures From(r'.clients[to].offered, from) == [] {
      RelayOffers(r, e, from);
      RelayChanges(r, e, to);
    }
  }

  // ---- runs -----------------------------------------------------------------------------------------------

  lemma StepKeepsRuns(r: Room, e: Event)
    requires Inv(r) && Enabled(r, e)
    ensures Runs(Step(r, e))
  {
    if OwnStep(e) {
      OwnKeepsRuns(r, e);
    } else if ClosingEvent(e) {
      ClosingKeepsRuns(r, e);
    } else if e.Connect? {
      ConnectKeepsRuns(r, e);
    } else if e.RemoveClient? || e.CloseAll? {
      LeavingKeepsRuns(r, e);
    } else if e.Read? {
      ReadKeepsRuns(r, e);
    } else if e.Overflow? {
      OverflowKeepsRuns(r, e);
    } else {
      RelayKeepsRuns(r, e);
    }
  }

  lemma StepKeepsInv(r: Room, e: Event)
    requires Inv(r) && Enabled(r, e)
    ensures Inv(Step(r, e))
  {
    if e.Connect? { ConnectKeepsPlaced(r, e); } else { StepKeepsPlaced(r, e); }
    StepKeepsRuns(r, e);
  }

  lemma {:induction false} ReachableInv(rooms: seq<Room>, events: seq<Event>, k: nat)
    requires IsRun(rooms, events) && k < |rooms|
    ensures Inv(rooms[k])
  {
    if k > 0 {
      ReachableInv(rooms, events, k - 1);
      StepKeepsInv(rooms[k - 1], events[k - 1]);
    }
  }

  lemma {:induction false} FromPrefix(frames: seq<Outgoing>, n: nat, sender: nat)
    requires n <= |frames|
    ensures From(frames[..n], sender) <= From(frames, sender)
  {
    if n < |frames| {
      var m := |frames| - 1;
      FromPrefix(frames[..m], n, sender);
      assert frames[..m][..n] == frames[..n];
    } else {
      assert frames[..n] == frames;
    }
  }

  /** How much of what was read from the sender was read before the receiver was let in, and before it left. */
  function ReadBeforeJoin(events: seq<Event>, to: nat, from: nat): nat {
    |Reads(BeforeJoin(events, to), from)|
  }

  function ReadBeforeLeave(events: seq<Event>, to: nat, from: nat): nat {
    |Reads(BeforeLeave(events, to), from)|
  }

  lemma EndsAreTold(rooms: seq<Room>, events: seq<Event>, k: nat, to: nat, from: nat)
    requires IsRun(rooms, events) && k < |rooms| && to in rooms[k].clients && from in rooms[k].clients
    ensures rooms[k].clients[from].said == Reads(events[..k], from)
    ensures First(rooms[k].clients[to], from) == ReadBeforeJoin(events[..k], to, from)
    ensures Last(rooms[k], to, from) == ReadBeforeLeave(events[..k], to, from)
  {
    EventsTell(rooms, events, k);
    assert Said(rooms[k], events[..k], from) && Member(rooms[k], events[..k], to);
    assert Joined(rooms[k], events[..k], to, from) && Left(rooms[k], events[..k], to, from);
  }

  /** Per-sender order, under every interleaving: the frames a receiver is offered from a sender are a contiguous
      run of what was read from the sender, kind and data: from the first frame read with the receiver in the room up to
      the last, one of which may still be on its way; a sender is never offered its own. */
  lemma OfferedInOrder(rooms: seq<Room>, events: seq<Event>, k: nat, to: nat, from: nat)
    requires IsRun(rooms, events) && k < |rooms| && to in rooms[k].clients && from in rooms[k].clients
    ensures var first, last := ReadBeforeJoin(events[..k], to, from), ReadBeforeLeave(events[..k], to, from);
            var owed := if Owed(rooms[k].clients[from], to) then 1 else 0;
            && first + owed <= last <= |Reads(events[..k], from)|
            && From(rooms[k].clients[to].offered, from)
               == if to == from then [] else Reads(events[..k], from)[first..last - owed]
  {
    ReachableInv(rooms, events, k);
    assert Run(rooms[k], to, from);
    EndsAreTold(rooms, events, k, to, from);
  }

  lemma CutOff(wire: seq<Outgoing>, offered: seq<Outgoing>, from: nat, said: seq<Outgoing>, first: nat, last: nat)
    requires wire <= offered && first <= last <= |said| && From(offered, from) == said[first..last]
    ensures var got := From(wire, from); first + |got| <= |said| && got == said[first..first + |got|]
  {
    FromPrefix(offered, |wire|, from);
    assert offered[..|wire|] == wire;
    assert said[first..last][..|From(wire, from)|] == said[first..first + |From(wire, from)|];
  }

  /** And so are the frames on the receiver's wire, until its own teardown: the same run, cut off at the end. */
  lemma WrittenInOrder(rooms: seq<Room>, events: seq<Event>, k: nat, to: nat, from: nat)
    requires IsRun(rooms, events) && k < |rooms| && to in rooms[k].clients && from in rooms[k].clients
    requires !rooms[k].clients[to].done && to != from
    ensures var first, got := ReadBeforeJoin(events[..k], to, from), From(rooms[k].clients[to].wire, from);
            && first + |got| <= |Reads(events[..k], from)|
            && got == Reads(events[..k], from)[first..first + |got|]
  {
    OfferedInOrder(rooms, events, k, to, from);
    DeliveryIsGapFree(rooms, events, k, to);
    var owed := if Owed(rooms[k].clients[from], to) then 1 else 0;
    CutOff(rooms[k].clients[to].wire, rooms[k].clients[to].offered, from, Reads(events[..k], from),
           ReadBeforeJoin(events[..k], to, from), ReadBeforeLeave(events[..k], to, from) - owed);
  }
}
