/** The defensive close, with any number of close-alls overlapping. */
module RelayClose {
  import opened RelaySpec
  import opened RelayDelivery
  import RelayEvents

  type Closers = map<nat, Closer>

  /** Some close-all still has to serve this client. */
  ghost predicate Pending(closers: Closers, id: nat) {
    exists k :: k in closers && id in closers[k].left
  }

  /** This client has been handed the message but not yet the directive. */
  predicate HasMessage(half: Half, id: nat) {
    half == MessageSent(id) || half == DroppingDirective(id)
  }

  /** It has so by some close-all. */
  ghost predicate Halfway(closers: Closers, id: nat) {
    exists k :: k in closers && HasMessage(closers[k].half, id)
  }

  lemma SetCloser(closers: Closers, k: nat, c: Closer, id: nat)
    ensures Pending(closers[k := c], id) <==> id in c.left || Pending(closers - {k}, id)
    ensures Halfway(closers[k := c], id) <==> HasMessage(c.half, id) || Halfway(closers - {k}, id)
  {
    var after := closers[k := c];
    assert k in after && after[k] == c;
    if Pending(closers - {k}, id) {
      var l :| l in closers - {k} && id in (closers - {k})[l].left;
      assert l in after && id in after[l].left;
    }
    if Halfway(closers - {k}, id) {
      var l :| l in closers - {k} && HasMessage((closers - {k})[l].half, id);
      assert l in after && HasMessage(after[l].half, id);
    }
    if l :| l in after && l != k && id in after[l].left {
      assert l in closers - {k} && id in (closers - {k})[l].left;
    }
    if l :| l in after && l != k && HasMessage(after[l].half, id) {
      assert l in closers - {k} && HasMessage((closers - {k})[l].half, id);
    }
  }

  /** A map of close-alls is the others and this one. */
  lemma SplitCloser(closers: Closers, k: nat, id: nat)
    requires k in closers
    ensures Pending(closers, id) <==> id in closers[k].left || Pending(closers - {k}, id)
    ensures Halfway(closers, id) <==> HasMessage(closers[k].half, id) || Halfway(closers - {k}, id)
  {
    SetCloser(closers, k, closers[k], id);
    assert closers[k := closers[k]] == closers;
  }

  /** Close-alls work on disjoint sets of clients, none of them registered any more. */
  ghost predicate Disjoint(r: Room) {
    && r.registered <= r.clients.Keys
    && (forall id :: id in r.registered ==> !r.clients[id].taken)
    && (forall k :: k in r.closers ==> r.closers[k].left <= r.clients.Keys)
    && (forall k, id :: k in r.closers && id in r.closers[k].left ==> r.clients[id].taken)
    && (forall k, l, id :: k in r.closers && l in r.closers && id in r.closers[k].left && id in r.closers[l].left ==>
         k == l)
    && (forall k :: k in r.closers && !r.closers[k].half.Neither? ==> r.closers[k].half.client in r.closers[k].left)
  }

  /** No frame a client broadcasts is one of the server's own. */
  ghost predicate SaysRelayed(c: Client) {
    forall i :: 0 <= i < |c.said| ==> c.said[i].Relayed?
  }

  /** What the server itself has handed a client: nothing before a close-all took it, then the message, then the
      directive, and nothing after. */
  ghost predicate Handed(r: Room, id: nat)
    requires id in r.clients
  {
    FromServer(r.clients[id].offered)
    == if !r.clients[id].taken then []
       else if Halfway(r.closers, id) then [RoomClosed]
       else if Pending(r.closers, id) then []
       else [RoomClosed, Close(CLOSE_ROOM_CLOSED)]
  }

  ghost predicate Inv(r: Room) {
    && Disjoint(r)
    && forall id :: id in r.clients ==> SaysRelayed(r.clients[id]) && Handed(r, id)
  }

  lemma RelayKeepsDisjoint(r: Room, e: Event)
    requires Disjoint(r) && Enabled(r, e) && (e.Read? || e.Relay?)
    ensures Disjoint(Step(r, e))
  {
    assert Step(r, e).clients.Keys == r.clients.Keys;
  }

  lemma DropKeepsDisjoint(r: Room, e: Event)
    requires Disjoint(r) && Enabled(r, e) && (e.Overflow? || e.HangUp?)
    ensures Disjoint(Step(r, e))
  {
    assert Step(r, e).clients.Keys == r.clients.Keys;
  }

  lemma MembershipKeepsDisjoint(r: Room, e: Event)
    requires Disjoint(r) && Enabled(r, e) && (e.Connect? || e.RemoveClient?)
    ensures Disjoint(Step(r, e))
  {
  }

  lemma CloseAllKeepsDisjoint(r: Room, e: Event)
    requires Disjoint(r) && Enabled(r, e) && e.CloseAll?
    ensures Disjoint(Step(r, e))
  {
    assert Step(r, e).clients.Keys == r.clients.Keys;
  }

  lemma HandKeepsDisjoint(r: Room, e: Event)
    requires Disjoint(r) && Enabled(r, e) && (e.HandMessage? || e.HandDirective?)
    ensures Disjoint(Step(r, e))
  {
    assert Step(r, e).clients.Keys == r.clients.Keys;
  }

  lemma CloserDropsKeepDisjoint(r: Room, e: Event)
    requires Disjoint(r) && Enabled(r, e) && (e.CloserOverflows? || e.CloserHangsUp?)
    ensures Disjoint(Step(r, e))
  {
    assert Step(r, e).clients.Keys == r.clients.Keys;
  }

  lemma OwnKeepsDisjoint(r: Room, e: Event)
    requires Disjoint(r) && Enabled(r, e) && OwnStep(e)
    ensures Disjoint(Step(r, e))
  {
    assert Step(r, e).clients.Keys == r.clients.Keys;
  }

  lemma StepKeepsDisjoint(r: Room, e: Event)
    requires Disjoint(r) && Enabled(r, e)
    ensures Disjoint(Step(r, e))
  {
    if OwnStep(e) {
      OwnKeepsDisjoint(r, e);
    } else if e.Read? || e.Relay? {
      RelayKeepsDisjoint(r, e);
    } else if e.Overflow? || e.HangUp? {
      DropKeepsDisjoint(r, e);
    } else if e.Connect? || e.RemoveClient? {
      MembershipKeepsDisjoint(r, e);
    } else if e.CloseAll? {
      CloseAllKeepsDisjoint(r, e);
    } else if e.HandMessage? || e.HandDirective? {
      HandKeepsDisjoint(r, e);
    } else {
      CloserDropsKeepDisjoint(r, e);
    }
  }

  /** Steps in which nobody is offered anything and no close-all moves on. */
  predicate QuietEvent(e: Event) {
    OwnStep(e) || e.Connect? || e.Read? || e.Overflow? || e.RemoveClient?
  }

  lemma QuietKeeps(r: Room, e: Event, id: nat)
    requires Enabled(r, e) && QuietEvent(e) && id in r.clients && SaysRelayed(r.clients[id])
    ensures var c, c' := r.clients[id], Step(r, e).clients[id];
            SaysRelayed(c') && c'.taken == c.taken && c'.offered == c.offered
    ensures Step(r, e).closers == r.closers
  {
  }

  lemma QuietStep(r: Room, e: Event)
    requires Inv(r) && Enabled(r, e) && QuietEvent(e)
    ensures Inv(Step(r, e))
  {
    StepKeepsDisjoint(r, e);
    var r' := Step(r, e);
    forall id | id in r'.clients ensures SaysRelayed(r'.clients[id]) && Handed(r', id) {
      if id in r.clients {
        assert SaysRelayed(r.clients[id]) && Handed(r, id);
        QuietKeeps(r, e, id);
      } else {
        assert !r'.clients[id].taken;
      }
    }
  }

  /** Offering a relayed frame leaves what the server handed over as it was. */
  lemma RelayHandsNothing(r: Room, e: Event, id: nat)
    requires Enabled(r, e) && (e.Relay? || e.HangUp?) && SaysRelayed(r.clients[e.id]) && id in r.clients
    ensures var c, c' := r.clients[id], Step(r, e).clients[id];
            c'.said == c.said && c'.taken == c.taken && FromServer(c'.offered) == FromServer(c.offered)
  {
    var to := if e.Relay? then e.to else r.clients[e.id].reader.to;
    FromAppend(r.clients[to].offered, r.clients[e.id].said[|r.clients[e.id].said| - 1], 0);
  }

  lemma RelayStep(r: Room, e: Event)
    requires Inv(r) && Enabled(r, e) && (e.Relay? || e.HangUp?)
    ensures Inv(Step(r, e))
  {
    StepKeepsDisjoint(r, e);
    var r' := Step(r, e);
    assert r'.closers == r.closers;
    forall id | id in r'.clients ensures SaysRelayed(r'.clients[id]) && Handed(r', id) {
      assert SaysRelayed(r.clients[id]) && Handed(r, id);
      RelayHandsNothing(r, e, id);
    }
  }

  /** A client no close-all took is waited for by none. */
  lemma UntakenIsFree(r: Room, id: nat)
    requires Disjoint(r) && id in r.clients && !r.clients[id].taken
    ensures !Pending(r.closers, id) && !Halfway(r.closers, id)
  {
  }

  lemma CloseAllStep(r: Room, e: Event)
    requires Inv(r) && Enabled(r, e) && e.CloseAll?
    ensures Inv(Step(r, e))
  {
    StepKeepsDisjoint(r, e);
    var r' := Step(r, e);
    assert r.closers - {e.closer} == r.closers;
    forall id | id in r'.clients ensures SaysRelayed(r'.clients[id]) && Handed(r', id) {
      assert SaysRelayed(r.clients[id]) && Handed(r, id);
      SetCloser(r.closers, e.closer, Closer(r.registered, Neither), id);
      if id in r.registered {
        UntakenIsFree(r, id);
      }
    }
  }

  /** A close-all and the client it serves, before and after a step: what the client has been handed keeps up with
      how far the close-all is. */
  ghost predicate InStep(a: Closer, to: nat, c: Client, a': Closer, c': Client) {
    && c'.said == c.said && c'.taken == c.taken
    && to in a.left && a'.left - {to} == a.left - {to}
    && (a.half.Neither? || a.half.client == to) && (a'.half.Neither? || a'.half.client == to)
    && var before, after := FromServer(c.offered), FromServer(c'.offered);
       if HasMessage(a.half, to) then
         if to in a'.left then HasMessage(a'.half, to) && after == before
         else !HasMessage(a'.half, to) && after == before + [Close(CLOSE_ROOM_CLOSED)]
       else to in a'.left && after == if HasMessage(a'.half, to) then before + [RoomClosed] else before
  }

  function Moved(r: Room, k: nat, to: nat, a: Closer, c: Client): Room {
    r.(clients := r.clients[to := c], closers := r.closers[k := a])
  }

  lemma OneCloserEach(r: Room, k: nat, id: nat)
    requires Disjoint(r) && k in r.closers && id in r.closers[k].left
    ensures r.clients[id].taken && !Pending(r.closers - {k}, id) && !Halfway(r.closers - {k}, id)
  {
  }

  /** A move shows in who is waited for, and in who is halfway, for the served client only. */
  lemma MoveSeen(closers: Closers, k: nat, to: nat, a: Closer, id: nat)
    requires k in closers && a.left - {to} == closers[k].left - {to}
    requires (closers[k].half.Neither? || closers[k].half.client == to) && (a.half.Neither? || a.half.client == to)
    ensures id != to ==> (Pending(closers[k := a], id) <==> Pending(closers, id))
    ensures id != to ==> (Halfway(closers[k := a], id) <==> Halfway(closers, id))
    ensures !Pending(closers - {k}, to) ==> (Pending(closers[k := a], to) <==> to in a.left)
    ensures !Halfway(closers - {k}, to) ==> (Halfway(closers[k := a], to) <==> HasMessage(a.half, to))
    ensures !Halfway(closers - {k}, to) ==> (Halfway(closers, to) <==> HasMessage(closers[k].half, to))
    ensures to in closers[k].left ==> Pending(closers, to)
  {
    assert id != to ==>
             (id in a.left <==> id in a.left - {to}) && (id in closers[k].left <==> id in closers[k].left - {to});
    SplitCloser(closers, k, id);
    SplitCloser(closers, k, to);
    SetCloser(closers, k, a, id);
    SetCloser(closers, k, a, to);
  }

  lemma MovingKeepsHanded(r: Room, k: nat, to: nat, a: Closer, c: Client, id: nat)
    requires Disjoint(r) && k in r.closers && to in r.clients && InStep(r.closers[k], to, r.clients[to], a, c)
    requires id in r.clients && Handed(r, id)
    ensures Handed(Moved(r, k, to, a, c), id)
  {
    OneCloserEach(r, k, to);
    MoveSeen(r.closers, k, to, a, id);
  }

  /** The client a close-all's step is about. */
  function Served(r: Room, e: Event): nat
    requires Enabled(r, e) && ClosingEvent(e)
  {
    if e.HandMessage? || e.CloserOverflows? then e.to else r.closers[e.closer].half.client
  }

  lemma HandMoves(r: Room, e: Event)
    requires Disjoint(r) && Enabled(r, e) && (e.HandMessage? || e.HandDirective?)
    ensures var r', k, to := Step(r, e), e.closer, Served(r, e);
            && k in r'.closers && to in r'.clients && r' == Moved(r, k, to, r'.closers[k], r'.clients[to])
            && InStep(r.closers[k], to, r.clients[to], r'.closers[k], r'.clients[to])
  {
    FromAppend(r.clients[Served(r, e)].offered, if e.HandMessage? then RoomClosed else Close(CLOSE_ROOM_CLOSED), 0);
  }

  lemma OverflowMoves(r: Room, e: Event)
    requires Disjoint(r) && Enabled(r, e) && e.CloserOverflows?
    ensures var r', k, to := Step(r, e), e.closer, Served(r, e);
            && k in r'.closers && to in r'.clients && r' == Moved(r, k, to, r'.closers[k], r'.clients[to])
            && InStep(r.closers[k], to, r.clients[to], r'.closers[k], r'.clients[to])
  {
  }

  lemma HangUpMoves(r: Room, e: Event)
    requires Disjoint(r) && Enabled(r, e) && e.CloserHangsUp?
    ensures var r', k, to := Step(r, e), e.closer, Served(r, e);
            && k in r'.closers && to in r'.clients && r' == Moved(r, k, to, r'.closers[k], r'.clients[to])
            && InStep(r.closers[k], to, r.clients[to], r'.closers[k], r'.clients[to])
  {
    var first := r.closers[e.closer].half.DroppingMessage?;
    FromAppend(r.clients[Served(r, e)].offered, if first then RoomClosed else Close(CLOSE_ROOM_CLOSED), 0);
  }

  lemma ClosingMoves(r: Room, e: Event)
    requires Disjoint(r) && Enabled(r, e) && ClosingEvent(e)
    ensures var r', k, to := Step(r, e), e.closer, Served(r, e);
            && k in r'.closers && to in r'.clients && r' == Moved(r, k, to, r'.closers[k], r'.clients[to])
            && InStep(r.closers[k], to, r.clients[to], r'.closers[k], r'.clients[to])
  {
    if e.CloserOverflows? {
      OverflowMoves(r, e);
    } else if e.CloserHangsUp? {
      HangUpMoves(r, e);
    } else {
      HandMoves(r, e);
    }
  }

  lemma ClosingStep(r: Room, e: Event)
    requires Inv(r) && Enabled(r, e) && ClosingEvent(e)
    ensures Inv(Step(r, e))
  {
    StepKeepsDisjoint(r, e);
    ClosingMoves(r, e);
    var r', k, to := Step(r, e), e.closer, Served(r, e);
    forall id | id in r'.clients ensures SaysRelayed(r'.clients[id]) && Handed(r', id) {
      assert SaysRelayed(r.clients[id]) && Handed(r, id);
      MovingKeepsHanded(r, k, to, r'.closers[k], r'.clients[to], id);
    }
  }

  lemma StepKeepsInv(r: Room, e: Event)
    requires Inv(r) && Enabled(r, e)
    ensures Inv(Step(r, e))
  {
    if QuietEvent(e) {
      QuietStep(r, e);
    } else if e.Relay? || e.HangUp? {
      RelayStep(r, e);
    } else if e.CloseAll? {
      CloseAllStep(r, e);
    } else {
      ClosingStep(r, e);
    }
  }

  lemma {:induction false} ReachableInv(rooms: seq<Room>, events: seq<Event>, k: nat)
    requires IsRun(rooms, events) && k < |rooms|
    ensures Inv(rooms[k])
  {
    if k > 0 {
      ReachableInv(rooms, events, k - 1);
      StepKeepsInv(rooms[k - 1], events[k - 1]);
    }
  }

  /** However many close-alls overlap: a client none of them took has been handed nothing, and one that was taken
      and is no longer waited for has been handed the message and then the directive, each exactly once. */
  lemma HandedExactlyOnce(rooms: seq<Room>, events: seq<Event>, k: nat, id: nat)
    requires IsRun(rooms, events) && k < |rooms| && id in rooms[k].clients
    ensures var r, taken := rooms[k], RelayEvents.ClosedOut(events[..k], id);
            && (!taken ==> FromServer(r.clients[id].offered) == [])
            && (taken && !Pending(r.closers, id) ==> FromServer(r.clients[id].offered) == [RoomClosed, Close(4001)])
  {
    ReachableInv(rooms, events, k);
    RelayEvents.MembersAreTold(rooms, events, k, id);
    var r := rooms[k];
    assert Handed(r, id);
    if Halfway(r.closers, id) {
      var l :| l in r.closers && HasMessage(r.closers[l].half, id);
      assert id in r.closers[l].left;
    }
  }

  lemma {:induction false} FromServerPrefix(frames: seq<Outgoing>, n: nat)
    requires n <= |frames|
    ensures FromServer(frames[..n]) <= FromServer(frames)
  {
    if n < |frames| {
      var m := |frames| - 1;
      FromServerPrefix(frames[..m], n);
      assert frames[..m][..n] == frames[..n];
    } else {
      assert frames[..n] == frames;
    }
  }

  lemma {:induction false} FromServerMember(frames: seq<Outgoing>, m: Outgoing)
    requires !m.Relayed?
    ensures m in frames <==> m in FromServer(frames)
  {
    if frames != [] {
      FromServerMember(frames[..|frames| - 1], m);
      assert frames == frames[..|frames| - 1] + [frames[|frames| - 1]];
    }
  }

  lemma CloseOnWire(wire: seq<Outgoing>, offered: seq<Outgoing>)
    requires wire != [] && wire <= offered && wire[|wire| - 1].Close?
    requires FromServer(offered) <= [RoomClosed, Close(CLOSE_ROOM_CLOSED)]
    ensures wire[|wire| - 1] == Close(CLOSE_ROOM_CLOSED) && RoomClosed in wire[..|wire| - 1]
  {
    var before, last := wire[..|wire| - 1], wire[|wire| - 1];
    FromServerPrefix(offered, |wire|);
    assert offered[..|wire|] == wire;
    var seen := FromServer(before);
    assert seen + [last] <= [RoomClosed, Close(CLOSE_ROOM_CLOSED)];
    assert (seen + [last])[|seen|] == last;
    assert (seen + [last])[0] == RoomClosed;
    assert |seen| == 1 && seen[0] == RoomClosed && seen[0] in seen;
    FromServerMember(before, RoomClosed);
  }

  /** Until its own teardown, a client that sees close code 4001 has already seen room-closed, and sees nothing
      after it. */
  lemma ClosePrecededByMessage(rooms: seq<Room>, events: seq<Event>, k: nat, id: nat, i: nat)
    requires IsRun(rooms, events) && k < |rooms| && id in rooms[k].clients && !rooms[k].clients[id].done
    requires i < |rooms[k].clients[id].wire| && rooms[k].clients[id].wire[i].Close?
    ensures var wire := rooms[k].clients[id].wire;
            wire[i] == Close(4001) && i == |wire| - 1 && RoomClosed in wire[..i]
  {
    ReachableInv(rooms, events, k);
    DeliveryIsGapFree(rooms, events, k, id);
    assert Handed(rooms[k], id);
    CloseOnWire(rooms[k].clients[id].wire, rooms[k].clients[id].offered);
  }
}
