/** What the state of a relay says about the events that led to it: who is in the room, and who has said what, told from
    the events alone. */
module RelayEvents {
  import opened RelaySpec

  // ---- told from the events ----------------------------------------------------------------------------------

  /** What a client sent, in order, kind and data as they were read. */
  function Reads(events: seq<Event>, id: nat): seq<Outgoing> {
    if events == [] then []
    else
      var n := |events| - 1;
      Reads(events[..n], id) + match events[n]
                               case Read(who, kind, data) => if who == id then [Relayed(id, kind, data)] else []
                               case _ => []
  }

  /** The last event on the client's membership let it in. */
  predicate Present(events: seq<Event>, id: nat) {
    events != [] &&
    var n := |events| - 1;
    match events[n]
    case Connect(who, true) => who == id || Present(events[..n], id)
    case RemoveClient(who) => who != id && Present(events[..n], id)
    case CloseAll(_) => false
    case _ => Present(events[..n], id)
  }

  /** A close-all came while the client was in the room. */
  predicate ClosedOut(events: seq<Event>, id: nat) {
    events != [] &&
    var n := |events| - 1;
    ClosedOut(events[..n], id) || (events[n].CloseAll? && Present(events[..n], id))
  }

  /** The events before the client was let in, or all of them. */
  function BeforeJoin(events: seq<Event>, id: nat): seq<Event> {
    if events == [] then []
    else
      var n := |events| - 1;
      if Connect(id, true) in events[..n] then BeforeJoin(events[..n], id)
      else if events[n] == Connect(id, true) then events[..n]
      else events
  }

  /** The events before the client left, or all of them. */
  function BeforeLeave(events: seq<Event>, id: nat): seq<Event> {
    if events == [] || Present(events, id) then events
    else
      var n := |events| - 1;
      if Present(events[..n], id) then events[..n]
      else if Connect(id, true) in events[..n] then BeforeLeave(events[..n], id)
      else events
  }

  // ---- and from the state --------------------------------------------------------------------------------------

  function Count(counts: map<nat, nat>, id: nat): nat {
    if id in counts then counts[id] else 0
  }

  ghost predicate Member(r: Room, events: seq<Event>, id: nat) {
    && (Connect(id, true) in events <==> id in r.clients)
    && (Present(events, id) <==> id in r.registered)
    && (ClosedOut(events, id) <==> id in r.clients && r.clients[id].taken)
    && (CloseDone(id) in events <==> id in r.clients && r.clients[id].done)
  }

  ghost predicate Said(r: Room, events: seq<Event>, id: nat) {
    Reads(events, id) == if id in r.clients then r.clients[id].said else []
  }

  ghost predicate Joined(r: Room, events: seq<Event>, id: nat, from: nat) {
    id in r.clients ==> Count(r.clients[id].joinedAt, from) == |Reads(BeforeJoin(events, id), from)|
  }

  ghost predicate Left(r: Room, events: seq<Event>, id: nat, from: nat) {
    id in r.clients && id !in r.registered ==>
      Count(r.clients[id].leftAt, from) == |Reads(BeforeLeave(events, id), from)|
  }

  ghost predicate Told(r: Room, events: seq<Event>) {
    && r.registered <= r.clients.Keys
    && (forall id :: Member(r, events, id) && Said(r, events, id))
    && (forall id, from :: Joined(r, events, id, from) && Left(r, events, id, from))
  }

  // ---- one step ------------------------------------------------------------------------------------------------

  /** What a step may do to one client as far as this goes. */
  ghost predicate Moves(r: Room, e: Event, r': Room, id: nat) {
    && (e == Connect(id, true) ==> id !in r.clients)
    && ((e.Read? || e.CloseDone?) && e.id == id ==> id in r.clients)
    && (id in r'.clients <==> id in r.clients || e == Connect(id, true))
    && (id in r'.registered <==>
          e == Connect(id, true) || (id in r.registered && e != RemoveClient(id) && !e.CloseAll?))
    && (id in r.clients ==>
          var c, c' := r.clients[id], r'.clients[id];
          && c'.said == c.said + (if e.Read? && e.id == id then [Relayed(id, e.kind, e.data)] else [])
          && c'.joinedAt == c.joinedAt
          && (c'.taken <==> c.taken || (e.CloseAll? && id in r.registered))
          && (c'.done <==> c.done || e == CloseDone(id))
          && c'.leftAt == if id in r.registered && id !in r'.registered then SaidSoFar(r) else c.leftAt)
    && (id in r'.clients && id !in r.clients ==>
          var c' := r'.clients[id];
          c'.said == [] && !c'.taken && !c'.done && c'.joinedAt == SaidSoFar(r))
  }

  function SaidSoFar(r: Room): map<nat, nat> {
    map s | s in r.clients :: |r.clients[s].said|
  }

  lemma OwnMoves(r: Room, e: Event, id: nat)
    requires Enabled(r, e) && OwnStep(e)
    ensures Moves(r, e, Step(r, e), id)
  {
  }

  lemma SendMoves(r: Room, e: Event, id: nat)
    requires Enabled(r, e) && (e.Read? || e.Relay? || e.Overflow? || e.HangUp?)
    ensures Moves(r, e, Step(r, e), id)
  {
  }

  lemma ClosingMoves(r: Room, e: Event, id: nat)
    requires Enabled(r, e) && ClosingEvent(e)
    ensures Moves(r, e, Step(r, e), id)
  {
  }

  lemma MembershipMoves(r: Room, e: Event, id: nat)
    requires Enabled(r, e) && (e.Connect? || e.RemoveClient? || e.CloseAll?) && r.registered <= r.clients.Keys
    ensures Moves(r, e, Step(r, e), id)
  {
  }

  lemma StepMoves(r: Room, e: Event, id: nat)
    requires Enabled(r, e) && r.registered <= r.clients.Keys
    ensures Moves(r, e, Step(r, e), id)
  {
    if OwnStep(e) {
      OwnMoves(r, e, id);
    } else if ClosingEvent(e) {
      ClosingMoves(r, e, id);
    } else if e.Connect? || e.RemoveClient? || e.CloseAll? {
      MembershipMoves(r, e, id);
    } else {
      SendMoves(r, e, id);
    }
  }

  // ---- one event more --------------------------------------------------------------------------------------------

  lemma OneEvent(events: seq<Event>, e: Event, id: nat)
    ensures Reads(events + [e], id)
            == Reads(events, id) + if e.Read? && e.id == id then [Relayed(id, e.kind, e.data)] else []
    ensures Present(events + [e], id) <==>
            e == Connect(id, true) || (Present(events, id) && e != RemoveClient(id) && !e.CloseAll?)
    ensures ClosedOut(events + [e], id) <==> ClosedOut(events, id) || (e.CloseAll? && Present(events, id))
  {
    assert (events + [e])[..|events|] == events;
  }

  lemma OneEventEnds(events: seq<Event>, e: Event, id: nat)
    ensures BeforeJoin(events + [e], id)
            == if Connect(id, true) in events then BeforeJoin(events, id)
               else if e == Connect(id, true) then events
               else events + [e]
    ensures BeforeLeave(events + [e], id)
            == if Present(events + [e], id) then events + [e]
               else if Present(events, id) then events
               else if Connect(id, true) in events then BeforeLeave(events, id)
               else events + [e]
  {
    assert (events + [e])[..|events|] == events;
  }

  lemma MovesTellMember(r: Room, e: Event, r': Room, events: seq<Event>, id: nat)
    requires Moves(r, e, r', id) && Member(r, events, id) && Said(r, events, id)
    requires id in r.registered ==> id in r.clients
    ensures Member(r', events + [e], id) && Said(r', events + [e], id)
  {
    OneEvent(events, e, id);
  }

  lemma SaidSoFarTold(r: Room, events: seq<Event>, from: nat)
    requires Said(r, events, from)
    ensures Count(SaidSoFar(r), from) == |Reads(events, from)|
  {
  }

  lemma MovesTellJoined(r: Room, e: Event, r': Room, events: seq<Event>, id: nat, from: nat)
    requires Moves(r, e, r', id) && Member(r, events, id) && Said(r, events, from) && Joined(r, events, id, from)
    ensures Joined(r', events + [e], id, from)
  {
    OneEventEnds(events, e, id);
    SaidSoFarTold(r, events, from);
  }

  lemma MovesTellLeft(r: Room, e: Event, r': Room, events: seq<Event>, id: nat, from: nat)
    requires Moves(r, e, r', id) && Member(r, events, id) && Said(r, events, from) && Left(r, events, id, from)
    ensures Left(r', events + [e], id, from)
  {
    OneEvent(events, e, id);
    OneEventEnds(events, e, id);
    SaidSoFarTold(r, events, from);
  }

  lemma StepTells(r: Room, e: Event, events: seq<Event>)
    requires Enabled(r, e) && Told(r, events)
    ensures Told(Step(r, e), events + [e])
  {
    var r' := Step(r, e);
    forall id ensures Member(r', events + [e], id) && Said(r', events + [e], id) {
      StepMoves(r, e, id);
      MovesTellMember(r, e, r', events, id);
    }
    forall id, from ensures Joined(r', events + [e], id, from) && Left(r', events + [e], id, from) {
      StepMoves(r, e, id);
      MovesTellJoined(r, e, r', events, id, from);
      MovesTellLeft(r, e, r', events, id, from);
    }
    forall id | id in r'.registered ensures id in r'.clients {
      StepMoves(r, e, id);
    }
  }

  // ---- runs -------------------------------------------------------------------------------------------------------

  /** In every run, the events so far tell who is connected, who is in the room, whom a close-all took, and what
      everyone has said: exactly what it was read as, kind and data. */
  lemma {:induction false} EventsTell(rooms: seq<Room>, events: seq<Event>, k: nat)
    requires IsRun(rooms, events) && k < |rooms|
    ensures Told(rooms[k], events[..k])
  {
    if k == 0 {
      assert Told(EMPTY, []);
    } else {
      EventsTell(rooms, events, k - 1);
      assert events[..k] == events[..k - 1] + [events[k - 1]];
      StepTells(rooms[k - 1], events[k - 1], events[..k - 1]);
    }
  }

  /** What a client has said is what was read from it, frame by frame, kind and data. */
  lemma SaidIsRead(rooms: seq<Room>, events: seq<Event>, k: nat, id: nat)
    requires IsRun(rooms, events) && k < |rooms|
    ensures id in rooms[k].clients ==> rooms[k].clients[id].said == Reads(events[..k], id)
    ensures id !in rooms[k].clients ==> Reads(events[..k], id) == []
  {
    EventsTell(rooms, events, k);
    assert Said(rooms[k], events[..k], id);
  }

  /** Only an authenticated connection becomes a client; it is in the room until its read pump takes it out or a
      close-all does, and a close-all has taken exactly those it found there. */
  lemma MembersAreTold(rooms: seq<Room>, events: seq<Event>, k: nat, id: nat)
    requires IsRun(rooms, events) && k < |rooms|
    ensures id in rooms[k].clients <==> Connect(id, true) in events[..k]
    ensures id in rooms[k].registered <==> Present(events[..k], id)
    ensures id in rooms[k].clients ==> (rooms[k].clients[id].taken <==> ClosedOut(events[..k], id))
    ensures id in rooms[k].clients ==> (rooms[k].clients[id].done <==> CloseDone(id) in events[..k])
  {
    EventsTell(rooms, events, k);
    assert Member(rooms[k], events[..k], id);
  }
}
