/** Nobody waits for anybody: a broadcast, a teardown or a close-all in progress can always go on, whatever state the
    other connections are in, and is over after a bounded number of its own steps. */
module RelayProgress {
  import opened RelaySpec
  import Close = RelayClose
  import Order = RelayOrder

  /** The goroutines that send: a connection's read pump, and a close-all. */
  datatype Actor = Pump(id: nat) | Closing(k: nat)

  predicate ReaderEvent(e: Event) {
    e.Read? || e.Relay? || e.Overflow? || e.HangUp? || e.EndBroadcast? || e.RemoveClient? || e.CloseDone?
    || e.ReaderClosesConn?
  }

  predicate Acts(e: Event, a: Actor) {
    match a
    case Pump(id) => ReaderEvent(e) && e.id == id
    case Closing(k) => (e.CloseAll? || ClosingEvent(e)) && e.closer == k
  }

  /** A bound on the steps left. A pump in ReadMessage has none: it waits for its own peer. */
  function ReaderWork(reader: Reader): nat {
    match reader
    case Reading => 0
    case Sending(left) => 2 * |left| + 1
    case Dropping(left, _) => if left == {} then 1 else 2 * |left|
    case Removed => 2
    case Stopped => 1
    case Gone => 0
  }

  function CloserWork(c: Closer): nat {
    var n := 4 * |c.left|;
    if c.left == {} then 0
    else match c.half
      case Neither => n
      case DroppingMessage(_) => n - 1
      case MessageSent(_) => n - 2
      case DroppingDirective(_) => n - 3
  }

  function Work(r: Room, a: Actor): nat {
    match a
    case Pump(id) => if id in r.clients then ReaderWork(r.clients[id].reader) else 0
    case Closing(k) => if k in r.closers then CloserWork(r.closers[k]) else 0
  }

  ghost predicate Inv(r: Room) {
    Order.WellPlaced(r) && Close.Disjoint(r)
  }

  // ---- some step is possible ------------------------------------------------------------------------------------

  /** The select has a ready case or its default, so whoever is served next can be served. */
  lemma PumpCanAct(r: Room, id: nat) returns (e: Event)
    requires Inv(r) && Work(r, Pump(id)) > 0
    ensures Acts(e, Pump(id)) && Enabled(r, e)
  {
    assert Order.Placed(r.clients[id], id, r.clients.Keys);
    match r.clients[id].reader
    case Sending(left) =>
      if left == {} {
        e := EndBroadcast(id);
      } else {
        var to :| to in left;
        e := if |r.clients[to].queue| < SEND_BUFFER then Relay(id, to, Enqueue)
             else if r.clients[to].done then Relay(id, to, Skip)
             else Overflow(id, to);
      }
    case Dropping(_, _) => e := HangUp(id);
    case Removed => e := CloseDone(id);
    case Stopped => e := ReaderClosesConn(id);
  }

  lemma CloserCanAct(r: Room, k: nat) returns (e: Event)
    requires Inv(r) && Work(r, Closing(k)) > 0
    ensures Acts(e, Closing(k)) && Enabled(r, e)
  {
    var c := r.closers[k];
    match c.half
    case Neither =>
      var to :| to in c.left;
      e := if |r.clients[to].queue| < SEND_BUFFER then HandMessage(k, to, Enqueue)
           else if r.clients[to].done then HandMessage(k, to, Skip)
           else CloserOverflows(k, to);
    case MessageSent(to) =>
      e := if |r.clients[to].queue| < SEND_BUFFER then HandDirective(k, Enqueue)
           else if r.clients[to].done then HandDirective(k, Skip)
           else CloserOverflows(k, to);
    case _ => e := CloserHangsUp(k);
  }

  /** A write pump with a frame queued or in hand, or on its way out, can go on too. */
  lemma WriterCanAct(rooms: seq<Room>, events: seq<Event>, n: nat, id: nat)
    requires IsRun(rooms, events) && n < |rooms| && id in rooms[n].clients && !rooms[n].clients[id].writer.Exited?
    requires rooms[n].clients[id].writer.Idle? ==> rooms[n].clients[id].queue != []
    ensures exists e :: Enabled(rooms[n], e) && (e == Take(id) || e == Write(id, true) || e == Write(id, false)
                                                 || e == WriterClosesConn(id))
    ensures rooms[n].clients[id].writer.Holding? && rooms[n].clients[id].open ==> Enabled(rooms[n], Write(id, true))
  {
    var c := rooms[n].clients[id];
    var e := if c.writer.Idle? then Take(id) else if c.writer.Holding? then Write(id, false) else WriterClosesConn(id);
    assert Enabled(rooms[n], e);
  }

  /** And nothing keeps the world out: anyone can connect, whoever is in ReadMessage can be sent any frame or fail,
      and any connection can break. */
  lemma AnythingCanArrive(r: Room, id: nat, kind: Kind, data: seq<bv8>, k: nat)
    ensures id !in r.clients ==> Enabled(r, Connect(id, true)) && Enabled(r, Connect(id, false))
    ensures id in r.clients && r.clients[id].reader.Reading? ==>
              Enabled(r, Read(id, kind, data)) && Enabled(r, RemoveClient(id))
    ensures id in r.clients ==> Enabled(r, ConnFails(id))
    ensures id in r.clients && r.clients[id].writer.Idle? ==> Enabled(r, StopWriting(id))
    ensures k !in r.closers ==> Enabled(r, CloseAll(k))
  {
  }

  // ---- and each one takes work away ---------------------------------------------------------------------------

  lemma OneLess(s: set<nat>, x: nat)
    requires x in s
    ensures |s - {x}| == |s| - 1
  {
    assert s == (s - {x}) + {x};
  }

  /** The steps that begin something: a frame read, the end of reading, a room closed. */
  predicate Starts(e: Event) {
    e.Read? || e.RemoveClient? || e.CloseAll?
  }

  lemma PumpActs(r: Room, e: Event, id: nat)
    requires Inv(r) && Enabled(r, e) && Acts(e, Pump(id)) && !Starts(e)
    ensures Work(Step(r, e), Pump(id)) < Work(r, Pump(id))
  {
    assert Order.Placed(r.clients[id], id, r.clients.Keys);
    if e.Relay? {
      OneLess(r.clients[id].reader.left, e.to);
    } else if e.HangUp? {
      OneLess(r.clients[id].reader.left, r.clients[id].reader.to);
    }
  }

  lemma CloserHands(r: Room, e: Event, k: nat)
    requires Inv(r) && Enabled(r, e) && (e.HandMessage? || e.HandDirective?) && e.closer == k
    ensures Work(Step(r, e), Closing(k)) < Work(r, Closing(k))
  {
    if e.HandDirective? {
      OneLess(r.closers[k].left, r.closers[k].half.client);
    }
  }

  lemma CloserDrops(r: Room, e: Event, k: nat)
    requires Inv(r) && Enabled(r, e) && (e.CloserOverflows? || e.CloserHangsUp?) && e.closer == k
    ensures Work(Step(r, e), Closing(k)) < Work(r, Closing(k))
  {
    if e.CloserHangsUp? {
      OneLess(r.closers[k].left, r.closers[k].half.client);
    }
  }

  lemma OwnStepsKeepPump(r: Room, e: Event, id: nat)
    requires Enabled(r, e) && OwnStep(e) && !Acts(e, Pump(id))
    ensures Work(Step(r, e), Pump(id)) == Work(r, Pump(id))
  {
  }

  lemma ClosersKeepPump(r: Room, e: Event, id: nat)
    requires Enabled(r, e) && (e.CloseAll? || ClosingEvent(e))
    ensures Work(Step(r, e), Pump(id)) == Work(r, Pump(id))
  {
  }

  lemma OthersKeepPump(r: Room, e: Event, id: nat)
    requires Enabled(r, e) && !OwnStep(e) && !e.CloseAll? && !ClosingEvent(e) && !Acts(e, Pump(id))
    ensures Work(Step(r, e), Pump(id)) == Work(r, Pump(id))
  {
  }

  lemma OthersKeepCloser(r: Room, e: Event, k: nat)
    requires Enabled(r, e) && !Acts(e, Closing(k))
    ensures Work(Step(r, e), Closing(k)) == Work(r, Closing(k))
  {
  }

  lemma StepSpendsWork(r: Room, e: Event, a: Actor)
    requires Inv(r) && Enabled(r, e)
    ensures Acts(e, a) && !Starts(e) ==> Work(Step(r, e), a) < Work(r, a)
    ensures !Acts(e, a) ==> Work(Step(r, e), a) == Work(r, a)
  {
    match a
    case Pump(id) =>
      if Acts(e, a) {
        if !Starts(e) { PumpActs(r, e, id); }
      } else if OwnStep(e) {
        OwnStepsKeepPump(r, e, id);
      } else if e.CloseAll? || ClosingEvent(e) {
        ClosersKeepPump(r, e, id);
      } else {
        OthersKeepPump(r, e, id);
      }
    case Closing(k) =>
      if !Acts(e, a) {
        OthersKeepCloser(r, e, k);
      } else if e.HandMessage? || e.HandDirective? {
        CloserHands(r, e, k);
      } else if !Starts(e) {
        CloserDrops(r, e, k);
      }
  }

  // ---- over whole runs --------------------------------------------------------------------------------------

  lemma ReachableInv(rooms: seq<Room>, events: seq<Event>, n: nat)
    requires IsRun(rooms, events) && n < |rooms|
    ensures Inv(rooms[n])
  {
    Order.ReachableInv(rooms, events, n);
    Close.ReachableInv(rooms, events, n);
  }

  /** In every reachable room, whoever is in the middle of a broadcast, a teardown or a close-all has a step to take. */
  lemma NobodyIsBlocked(rooms: seq<Room>, events: seq<Event>, n: nat, a: Actor)
    requires IsRun(rooms, events) && n < |rooms| && Work(rooms[n], a) > 0
    ensures exists e :: Acts(e, a) && Enabled(rooms[n], e)
  {
    ReachableInv(rooms, events, n);
    match a
    case Pump(id) => var e := PumpCanAct(rooms[n], id);
    case Closing(k) => var e := CloserCanAct(rooms[n], k);
  }

  predicate NewWork(e: Event, a: Actor) {
    Acts(e, a) && Starts(e)
  }

  /** The step begins nothing new of the actor's, and is counted if it is the actor's. */
  ghost predicate Spends(r: Room, e: Event, r': Room, a: Actor) {
    (if Acts(e, a) then 1 else 0) + Work(r', a) <= Work(r, a)
  }

  lemma NextSpends(rooms: seq<Room>, events: seq<Event>, n: nat, a: Actor)
    requires IsRun(rooms, events) && n < |events| && !NewWork(events[n], a)
    ensures Spends(rooms[n], events[n], rooms[n + 1], a)
  {
    ReachableInv(rooms, events, n);
    assert Enabled(rooms[n], events[n]) && rooms[n + 1] == Step(rooms[n], events[n]);
    StepSpendsWork(rooms[n], events[n], a);
  }

  /** How many of the steps from i up to j are the actor's. */
  function Taken(events: seq<Event>, i: nat, j: nat, a: Actor): nat
    requires i <= j <= |events|
  {
    if i == j then 0 else Taken(events, i, j - 1, a) + if Acts(events[j - 1], a) then 1 else 0
  }

  lemma {:induction false} SpentInAll(rooms: seq<Room>, events: seq<Event>, i: nat, j: nat, a: Actor)
    requires |rooms| == |events| + 1 && i <= j < |rooms|
    requires forall n :: i <= n < j ==> Spends(rooms[n], events[n], rooms[n + 1], a)
    ensures Taken(events, i, j, a) + Work(rooms[j], a) <= Work(rooms[i], a)
  {
    if i < j {
      SpentInAll(rooms, events, i, j - 1, a);
      assert Spends(rooms[j - 1], events[j - 1], rooms[j - 1 + 1], a);
    }
  }

  /** However the others' steps come in between, what an actor has in progress is over after at most as many steps of
      its own as it had work left. */
  lemma WorkRunsOut(rooms: seq<Room>, events: seq<Event>, i: nat, j: nat, a: Actor)
    requires IsRun(rooms, events) && i <= j < |rooms|
    requires forall n :: i <= n < j ==> !NewWork(events[n], a)
    ensures Taken(events, i, j, a) + Work(rooms[j], a) <= Work(rooms[i], a)
  {
    forall n | i <= n < j ensures Spends(rooms[n], events[n], rooms[n + 1], a) {
      NextSpends(rooms, events, n, a);
    }
    SpentInAll(rooms, events, i, j, a);
  }
}
