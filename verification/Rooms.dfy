/** rooms.go on the heap: rooms with their client sets, and the registry with its scene index. */
module Rooms {
  import opened RelaySpec
  import opened RelayClients
  import opened RelayDelivery
  import Spec = SessionSpec

  // ---- what others do to a client set -----------------------------------------------------------------------

  datatype Coming = Joins(c: Connection) | Leaves(c: Connection) | ClosesAll

  function Happened(clients: set<Connection>, events: seq<Coming>): set<Connection> {
    if events == [] then clients
    else
      var before := Happened(clients, events[..|events| - 1]);
      match events[|events| - 1]
      case Joins(c) => before + {c}
      case Leaves(c) => before - {c}
      case ClosesAll => {}
  }

  /** Others do the same to the rest of the set with a client in it as without. */
  lemma {:induction false} Without(clients: set<Connection>, c: Connection, there: bool, events: seq<Coming>)
    requires c !in clients && Joins(c) !in events
    ensures var with := Happened(clients + if there then {c} else {}, events);
            && with - {c} == Happened(clients, events)
            && (c in with <==> there && Leaves(c) !in events && ClosesAll !in events)
  {
    if events != [] {
      var last := |events| - 1;
      assert events == events[..last] + [events[last]];
      Without(clients, c, there, events[..last]);
    }
  }

  // ---- rooms ------------------------------------------------------------------------------------------------

  class Room {
    const id: string
    var name: string
    var sceneID: string
    var clients: set<Connection>

    constructor (id: string, name: string, sceneID: string)
      ensures this.id == id && this.name == name && this.sceneID == sceneID && clients == {}
    {
      this.id, this.name, this.sceneID, clients := id, name, sceneID, {};
    }

    function Data(): Spec.Room
      reads this`name, this`sceneID
    {
      Spec.Room(name, sceneID)
    }

    method AddClient(c: Connection)
      modifies this`clients
      ensures clients == old(clients) + {c}
    {
      clients := clients + {c};
    }

    method RemoveClient(c: Connection)
      modifies this`clients
      ensures clients == old(clients) - {c}
    {
      clients := clients - {c};
    }

    /** What others do to the set while a connection is served; `during` is the set at each moment. */
    method Happen(events: seq<Coming>) returns (ghost during: seq<set<Connection>>)
      modifies this`clients
      ensures clients == Happened(old(clients), events) && |during| == |events| + 1
      ensures forall i :: 0 <= i <= |events| ==> during[i] == Happened(old(clients), events[..i])
    {
      during := [clients];
      for n := 0 to |events|
        invariant clients == Happened(old(clients), events[..n]) && |during| == n + 1
        invariant forall i :: 0 <= i <= n ==> during[i] == Happened(old(clients), events[..i])
      {
        match events[n] {
          case Joins(other) => AddClient(other);
          case Leaves(other) => RemoveClient(other);
          case ClosesAll => clients := {};
        }
        assert events[..n + 1][..n] == events[..n];
        during := during + [clients];
      }
      assert events[..|events|] == events;
    }

    /** One connection from authentication to teardown, whatever happens to it and to the room while it is served: it is
        in the room if it was authenticated, until a close-all, and everyone else is as if it had never come. */
    method Serve(c: Connection, authenticated: bool, others: seq<Other>, events: seq<Coming>)
      returns (ghost during: seq<set<Connection>>)
      requires c !in clients && Joins(c) !in events && Gapless(c.View())
      modifies this`clients, c
      ensures |during| == |events| + 1 && forall i :: 0 <= i <= |events| ==>
                && during[i] - {c} == Happened(old(clients), events[..i])
                && (c in during[i] <==> authenticated && Leaves(c) !in events[..i] && ClosesAll !in events[..i])
      ensures clients == Happened(old(clients), events)
      ensures authenticated ==> c.done && !c.open
      ensures Gapless(c.View()) && old(c.offered) <= c.offered && old(c.wire) <= c.wire
    {
      if authenticated { AddClient(c); }
      ghost var start := old(clients) + if authenticated then {c} else {};
      assert clients == start;
      during := Happen(events);
      forall i | 0 <= i <= |events|
        ensures during[i] - {c} == Happened(old(clients), events[..i])
        ensures c in during[i] <==> authenticated && Leaves(c) !in events[..i] && ClosesAll !in events[..i]
      {
        assert during[i] == Happened(start, events[..i]);
        Without(old(clients), c, authenticated, events[..i]);
      }
      Without(old(clients), c, authenticated, events);
      if authenticated {
        LaterOnward(c.View(), others);
        c.Meanwhile(others);
        Depart(c);
      } else {
        assert clients - {c} == clients;
      }
    }

    /** The read pump's teardown: deregister, whether or not a close-all already has, then end the write pump. */
    method Depart(c: Connection)
      requires Gapless(c.View())
      modifies this`clients, c`done, c`open
      ensures c !in clients && old(clients) - {c} == clients
      ensures old(c !in clients) ==> clients == old(clients)
      ensures c.done && !c.open && Gapless(c.View()) && c.offered == old(c.offered) && c.wire == old(c.wire)
    {
      RemoveClient(c);
      c.Teardown();
    }

    /** Every client but the sender is offered the frame once; the sender is not touched. */
    method Broadcast(sender: Connection, msg: Outgoing)
      modifies clients - {sender}
      ensures forall c :: c in clients && c != sender ==> Sent(old(c.View()), msg, c.View())
    {
      var left := clients - {sender};
      while left != {}
        invariant left <= clients - {sender}
        invariant forall c :: c in left ==> c.View() == old(c.View())
        invariant forall c :: c in clients && c != sender && c !in left ==> Sent(old(c.View()), msg, c.View())
        decreases left
      {
        var c :| c in left;
        c.Send(msg);
        left := left - {c};
      }
    }

    /** The defensive close: the set is emptied first, then every client that was in it is handed the message and
        the directive. */
    method CloseAll()
      modifies this`clients, clients
      ensures clients == {}
      ensures forall c :: c in old(clients) ==> HandedBoth(old(c.View()), c.View())
    {
      var left := clients;
      clients := {};
      while left != {}
        invariant left <= old(clients)
        invariant clients == {}
        invariant forall c :: c in left ==> c.View() == old(c.View())
        invariant forall c :: c in old(clients) && c !in left ==> HandedBoth(old(c.View()), c.View())
        decreases left
      {
        var c :| c in left;
        ghost var before := c.View();
        c.Send(RoomClosed);
        ghost var half := c.View();
        c.Send(Close(CLOSE_ROOM_CLOSED));
        assert Sent(before, RoomClosed, half) && Sent(half, Close(CLOSE_ROOM_CLOSED), c.View());
        left := left - {c};
      }
    }
  }

  ghost predicate HandedBoth(before: Client, after: Client) {
    exists half :: Sent(before, RoomClosed, half) && Sent(half, Close(CLOSE_ROOM_CLOSED), after)
  }

  /** A client handed both is offered the message, then the directive, last; what others offer it in between and before
      takes nothing back. If its connection survives, both are queued behind what was queued before,
      and nothing else is. */
  lemma HandedBothInOrder(before: Client, after: Client) returns (xs: seq<Outgoing>, ys: seq<Outgoing>)
    requires HandedBoth(before, after)
    ensures after.offered == before.offered + xs + [RoomClosed] + ys + [Close(4001)]
    ensures before.wire <= after.wire && (Gapless(before) ==> Gapless(after))
    ensures !before.done && after.open ==> after.queue == before.queue + [RoomClosed, Close(4001)]
  {
    var half :| Sent(before, RoomClosed, half) && Sent(half, Close(CLOSE_ROOM_CLOSED), after);
    SentOnce(before, RoomClosed, half);
    SentOnce(half, Close(CLOSE_ROOM_CLOSED), after);
    xs := half.offered[|before.offered|..|half.offered| - 1];
    ys := after.offered[|half.offered|..|after.offered| - 1];
    BothInOrder(before, half, after);
  }

  lemma BothInOrder(before: Client, half: Client, after: Client)
    requires AddsOne(before, RoomClosed, half) && AddsOne(half, Close(CLOSE_ROOM_CLOSED), after)
    ensures after.offered == before.offered + half.offered[|before.offered|..|half.offered| - 1] + [RoomClosed]
                             + after.offered[|half.offered|..|after.offered| - 1] + [Close(CLOSE_ROOM_CLOSED)]
    ensures before.wire <= after.wire && (Gapless(before) ==> Gapless(after))
    ensures !before.done && after.open ==> after.queue == before.queue + [RoomClosed, Close(CLOSE_ROOM_CLOSED)]
  {
    assert half.offered == before.offered + half.offered[|before.offered|..|half.offered| - 1] + [RoomClosed];
    assert [RoomClosed] + [Close(CLOSE_ROOM_CLOSED)] == [RoomClosed, Close(CLOSE_ROOM_CLOSED)];
  }

  class Registry {
    var rooms: map<string, Room>
    var bySceneID: map<string, Room>

    constructor ()
      ensures rooms == map[] && bySceneID == map[] && Valid()
    {
      rooms, bySceneID := map[], map[];
    }

    /** Rooms sit under their own ids, and every index entry names a registered room bound to that scene. */
    ghost predicate Valid()
      reads this, rooms.Values`sceneID, bySceneID.Values`sceneID
    {
      && (forall id :: id in rooms ==> rooms[id].id == id)
      && (forall scene :: scene in bySceneID ==>
            scene != "" && bySceneID[scene].id in rooms && rooms[bySceneID[scene].id] == bySceneID[scene]
            && bySceneID[scene].sceneID == scene)
    }

    ghost function Rooms(): map<string, Spec.Room>
      reads this, rooms.Values`name, rooms.Values`sceneID
    {
      map id | id in rooms :: rooms[id].Data()
    }

    ghost function Index(): map<string, string>
      reads this
    {
      map scene | scene in bySceneID :: bySceneID[scene].id
    }

    /** createLocked, with the random id passed in. */
    method CreateLocked(name: string, sceneID: string, id: string) returns (room: Room)
      requires Valid() && id !in rooms
      modifies this`rooms
      ensures Valid() && fresh(room) && room.id == id && room.sceneID == sceneID
      ensures rooms == old(rooms)[id := room] && room.clients == {}
      ensures Rooms() == old(Rooms())[id := Spec.Room(Spec.TitleOf(name), sceneID)]
    {
      room := new Room(id, Spec.TitleOf(name), sceneID);
      rooms := rooms[id := room];
    }

    method Create(name: string, sceneID: string, id: string) returns (room: Room)
      requires Valid() && id !in rooms
      modifies this
      ensures Valid() && fresh(room) && room.id == id && rooms == old(rooms)[id := room] && room.clients == {}
      ensures Rooms() == old(Rooms())[id := Spec.Room(Spec.TitleOf(name), sceneID)]
      ensures Index() == if sceneID != "" then old(Index())[sceneID := id] else old(Index())
    {
      room := CreateLocked(name, sceneID, id);
      if sceneID != "" { BindScene(room, sceneID); }
    }

    /** The canonical live room of a scene, created if there is none. */
    method GetOrCreateForScene(sceneID: string, name: string, id: string) returns (room: Room, created: bool)
      requires Valid() && id !in rooms && sceneID != ""
      modifies this
      ensures Valid() && created == (sceneID !in old(Index()))
      ensures rooms == if created then old(rooms)[id := room] else old(rooms)
      ensures created ==> fresh(room) && room.id == id && room.clients == {}
                          && Rooms() == old(Rooms())[id := Spec.Room(Spec.TitleOf(name), sceneID)]
                          && Index() == old(Index())[sceneID := id]
      ensures !created ==> Rooms() == old(Rooms()) && Index() == old(Index()) && room.id == Index()[sceneID]
    {
      if sceneID in bySceneID { return bySceneID[sceneID], false; }
      room := CreateLocked(name, sceneID, id);
      BindScene(room, sceneID);
      created := true;
    }

    method RoomForScene(sceneID: string) returns (room: Room?)
      ensures room == if sceneID in bySceneID then bySceneID[sceneID] else null
    {
      room := if sceneID in bySceneID then bySceneID[sceneID] else null;
    }

    method Get(id: string) returns (room: Room?)
      ensures room == if id in rooms then rooms[id] else null
    {
      room := if id in rooms then rooms[id] else null;
    }

    method BindScene(room: Room, sceneID: string)
      modifies this`bySceneID
      ensures bySceneID == old(bySceneID)[sceneID := room]
      ensures Index() == old(Index())[sceneID := room.id]
    {
      bySceneID := bySceneID[sceneID := room];
    }

    /** What a first save does: record the scene in the room, then make the room its canonical one. */
    method BindSaved(room: Room, sceneID: string)
      requires Valid() && room.id in rooms && rooms[room.id] == room && room.sceneID == "" && sceneID != ""
      modifies this`bySceneID, room`sceneID
      ensures Valid()
      ensures Rooms() == old(Rooms())[room.id := Spec.Room(room.name, sceneID)]
      ensures Index() == old(Index())[sceneID := room.id]
    {
      room.sceneID := sceneID;
      BindScene(room, sceneID);
    }

    method SetName(room: Room, name: string)
      requires Valid() && room.id in rooms && rooms[room.id] == room
      modifies room`name
      ensures Valid()
      ensures Rooms() == old(Rooms())[room.id := old(Rooms())[room.id].(name := name)]
    {
      room.name := name;
    }

    /** Remove a room, and its index entry if that entry is this very room. */
    method Delete(id: string)
      requires Valid()
      modifies this
      ensures Valid() && rooms == old(rooms) - {id}
      ensures Rooms() == old(Rooms()) - {id}
      ensures id in old(rooms) ==>
                Index() == var scene := old(rooms[id].sceneID);
                           if scene != "" && scene in old(Index()) && old(Index())[scene] == id
                           then old(Index()) - {scene}
                           else old(Index())
      ensures id !in old(rooms) ==> Index() == old(Index())
    {
      if id !in rooms { return; }
      var room := rooms[id];
      rooms := rooms - {id};
      if room.sceneID != "" && room.sceneID in bySceneID && bySceneID[room.sceneID] == room {
        bySceneID := bySceneID - {room.sceneID};
      }
    }
  }
}
