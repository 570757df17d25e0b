/** The relay of one room as interleaved atomic steps: bounded queues, read pumps that broadcast, write pumps,
    and overlapping defensive closes. */
module RelaySpec {

  const SEND_BUFFER := 256
  const CLOSE_ROOM_CLOSED := 4001

  datatype Kind = Text | Binary

  /** A queued frame or close directive. The sender is the model's label; the wire carries kind and data. */
  datatype Outgoing =
    | Relayed(sender: nat, kind: Kind, data: seq<bv8>)
    | RoomClosed
    | Close(code: int)

  /** The write pump: waiting in select, holding a frame it took, on its way out, or gone. */
  datatype Writer = Idle | Holding(msg: Outgoing) | Exiting | Exited

  /** The read pump: in ReadMessage, in Broadcast with clients left to serve, about to close the connection of the
      one whose queue it found full, or in its three teardown calls. */
  datatype Reader =
    | Reading
    | Sending(left: set<nat>)
    | Dropping(left: set<nat>, to: nat)
    | Removed | Stopped | Gone

  datatype Client = Client(
    queue: seq<Outgoing>,        // the send channel
    open: bool,                  // the connection
    done: bool,                  // the done channel is closed
    writer: Writer,
    reader: Reader,
    wire: seq<Outgoing>,         // frames written to the connection
    called: seq<Outgoing>,       // every frame Send or CloseWithCode was called with, in the order of the selects
    overflows: seq<nat>,         // which of these calls found the queue full
    offered: seq<Outgoing>,      // the same frames in the order the calls took effect: at once, or with the hang-up
    said: seq<Outgoing>,         // every frame this client broadcast
    joinedAt: map<nat, nat>,     // how much each client had said when this one was registered
    leftAt: map<nat, nat>,       // and when it was deregistered
    taken: bool)                 // some close-all took it from the client set

  /** A close-all in progress: the clients it still has to serve, and how far it is with the current one. */
  datatype Closer = Closer(left: set<nat>, half: Half)
  datatype Half =
    | Neither
    | DroppingMessage(client: nat)
    | MessageSent(client: nat)
    | DroppingDirective(client: nat)

  datatype Room = Room(clients: map<nat, Client>, registered: set<nat>, closers: map<nat, Closer>)

  /** A ready case of the select in Send. Its default is a step of its own, and so is the close that follows it. */
  datatype Choice = Enqueue | Skip

  datatype Event =
    | Connect(id: nat, authorized: bool)
    | Read(id: nat, kind: Kind, data: seq<bv8>)
    | Relay(id: nat, to: nat, choice: Choice)
    | Overflow(id: nat, to: nat)
    | HangUp(id: nat)
    | EndBroadcast(id: nat)
    | RemoveClient(id: nat)
    | CloseDone(id: nat)
    | ReaderClosesConn(id: nat)
    | Take(id: nat)
    | Write(id: nat, ok: bool)
    | StopWriting(id: nat)
    | WriterClosesConn(id: nat)
    | ConnFails(id: nat)
    | CloseAll(closer: nat)
    | HandMessage(closer: nat, to: nat, choice: Choice)
    | HandDirective(closer: nat, choice: Choice)
    | CloserOverflows(closer: nat, to: nat)
    | CloserHangsUp(closer: nat)

  // ---- one offer ------------------------------------------------------------------------------------

  /** The cases of the select that can be taken. */
  predicate Ready(c: Client, choice: Choice) {
    match choice
    case Enqueue => |c.queue| < SEND_BUFFER
    case Skip => c.done
  }

  /** The default is taken only when no case is ready. */
  predicate Full(c: Client) {
    |c.queue| >= SEND_BUFFER && !c.done
  }

  function Offer(c: Client, msg: Outgoing, choice: Choice): Client {
    c.(called := c.called + [msg], offered := c.offered + [msg],
       queue := if choice.Enqueue? then c.queue + [msg] else c.queue)
  }

  /** The default: the frame has nowhere to go, and nothing has come of it yet. */
  function Miss(c: Client, msg: Outgoing): Client {
    c.(called := c.called + [msg], overflows := c.overflows + [|c.called|])
  }

  /** What the default does then: close the connection, whatever the queue holds by now. */
  function Drop(c: Client, msg: Outgoing): Client {
    c.(offered := c.offered + [msg], open := false)
  }

  // ---- the steps --------------------------------------------------------------------------------------

  function NewClient(r: Room): Client {
    Client([], true, false, Idle, Reading, [], [], [], [], [],
           map s | s in r.clients :: |r.clients[s].said|, map[], false)
  }

  function Deregister(r: Room, c: Client, taken: bool): Client {
    c.(leftAt := map s | s in r.clients :: |r.clients[s].said|, taken := taken)
  }

  predicate Enabled(r: Room, e: Event) {
    match e
    case Connect(id, _) => id !in r.clients
    case Read(id, _, _) => id in r.clients && r.clients[id].reader.Reading?
    case Relay(id, to, choice) =>
      id in r.clients && to in r.clients && r.clients[id].reader.Sending? && to in r.clients[id].reader.left
      && r.clients[id].said != [] && Ready(r.clients[to], choice)
    case Overflow(id, to) =>
      id in r.clients && to in r.clients && r.clients[id].reader.Sending? && to in r.clients[id].reader.left
      && r.clients[id].said != [] && Full(r.clients[to])
    case HangUp(id) =>
      id in r.clients && r.clients[id].reader.Dropping? && r.clients[id].reader.to in r.clients
      && r.clients[id].said != []
    case EndBroadcast(id) => id in r.clients && r.clients[id].reader == Sending({})
    case RemoveClient(id) => id in r.clients && r.clients[id].reader.Reading?
    case CloseDone(id) => id in r.clients && r.clients[id].reader.Removed?
    case ReaderClosesConn(id) => id in r.clients && r.clients[id].reader.Stopped?
    case Take(id) => id in r.clients && r.clients[id].writer.Idle? && r.clients[id].queue != []
    case Write(id, ok) => id in r.clients && r.clients[id].writer.Holding? && (ok ==> r.clients[id].open)
    case StopWriting(id) => id in r.clients && r.clients[id].writer.Idle?
    case WriterClosesConn(id) => id in r.clients && r.clients[id].writer.Exiting?
    case ConnFails(id) => id in r.clients
    case CloseAll(k) => k !in r.closers
    case HandMessage(k, to, choice) =>
      k in r.closers && r.closers[k].half.Neither? && to in r.closers[k].left
      && to in r.clients && Ready(r.clients[to], choice)
    case HandDirective(k, choice) =>
      k in r.closers && r.closers[k].half.MessageSent?
      && r.closers[k].half.client in r.clients && Ready(r.clients[r.closers[k].half.client], choice)
    case CloserOverflows(k, to) =>
      k in r.closers && to in r.clients && Full(r.clients[to])
      && ((r.closers[k].half.Neither? && to in r.closers[k].left) || r.closers[k].half == MessageSent(to))
    case CloserHangsUp(k) =>
      k in r.closers && (r.closers[k].half.DroppingMessage? || r.closers[k].half.DroppingDirective?)
      && r.closers[k].half.client in r.clients
  }

  /** What a step does to the one client it belongs to, when it touches no other. */
  function Own(c: Client, e: Event): Client {
    match e
    case EndBroadcast(_) => c.(reader := Reading)
    case CloseDone(_) => c.(done := true, reader := Stopped)
    case ReaderClosesConn(_) => c.(open := false, reader := Gone)
    case Take(_) => if c.queue == [] then c else c.(writer := Holding(c.queue[0]), queue := c.queue[1..])
    case Write(_, ok) =>
      if !c.writer.Holding? then c
      else c.(wire := if ok then c.wire + [c.writer.msg] else c.wire,
              writer := if ok && !c.writer.msg.Close? then Idle else Exiting)
    case StopWriting(_) => c.(writer := Exiting)
    case WriterClosesConn(_) => c.(open := false, writer := Exited)
    case ConnFails(_) => c.(open := false)
    case _ => c
  }

  /** The steps that touch one client and nothing else. */
  predicate OwnStep(e: Event) {
    e.EndBroadcast? || e.CloseDone? || e.ReaderClosesConn? || e.Take? || e.Write? || e.StopWriting?
    || e.WriterClosesConn? || e.ConnFails?
  }

  /** The steps of close-alls with a client. */
  predicate ClosingEvent(e: Event) {
    e.HandMessage? || e.HandDirective? || e.CloserOverflows? || e.CloserHangsUp?
  }

  function Step(r: Room, e: Event): Room
    requires Enabled(r, e)
  {
    match e
    case Connect(id, authorized) =>
      if authorized then r.(clients := r.clients[id := NewClient(r)], registered := r.registered + {id}) else r
    case Read(id, kind, data) =>
      var c := r.clients[id];
      r.(clients := r.clients[id := c.(said := c.said + [Relayed(id, kind, data)],
                                       reader := Sending(r.registered - {id}))])
    case Relay(id, to, choice) =>
      var c := r.clients[id];
      var served := r.clients[to := Offer(r.clients[to], c.said[|c.said| - 1], choice)];
      r.(clients := served[id := served[id].(reader := Sending(c.reader.left - {to}))])
    case Overflow(id, to) =>
      var c := r.clients[id];
      var missed := r.clients[to := Miss(r.clients[to], c.said[|c.said| - 1])];
      r.(clients := missed[id := missed[id].(reader := Dropping(c.reader.left, to))])
    case HangUp(id) =>
      var c := r.clients[id];
      var to := c.reader.to;
      var dropped := r.clients[to := Drop(r.clients[to], c.said[|c.said| - 1])];
      r.(clients := dropped[id := dropped[id].(reader := Sending(c.reader.left - {to}))])
    case RemoveClient(id) =>
      var c := r.clients[id].(reader := Removed);
      r.(clients := r.clients[id := if id in r.registered then Deregister(r, c, c.taken) else c],
         registered := r.registered - {id})
    case CloseAll(k) =>
      r.(clients := map id | id in r.clients ::
           if id in r.registered then Deregister(r, r.clients[id], true) else r.clients[id],
         registered := {},
         closers := r.closers[k := Closer(r.registered, Neither)])
    case HandMessage(k, to, choice) =>
      r.(clients := r.clients[to := Offer(r.clients[to], RoomClosed, choice)],
         closers := r.closers[k := r.closers[k].(half := MessageSent(to))])
    case HandDirective(k, choice) =>
      var to := r.closers[k].half.client;
      r.(clients := r.clients[to := Offer(r.clients[to], Close(CLOSE_ROOM_CLOSED), choice)],
         closers := r.closers[k := Closer(r.closers[k].left - {to}, Neither)])
    case CloserOverflows(k, to) =>
      var first := r.closers[k].half.Neither?;
      r.(clients := r.clients[to := Miss(r.clients[to], if first then RoomClosed else Close(CLOSE_ROOM_CLOSED))],
         closers := r.closers[k := r.closers[k].(half := if first then DroppingMessage(to) else DroppingDirective(to))])
    case CloserHangsUp(k) =>
      var to, first := r.closers[k].half.client, r.closers[k].half.DroppingMessage?;
      r.(clients := r.clients[to := Drop(r.clients[to], if first then RoomClosed else Close(CLOSE_ROOM_CLOSED))],
         closers := r.closers[k := if first then r.closers[k].(half := MessageSent(to))
                                   else Closer(r.closers[k].left - {to}, Neither)])
    case _ => r.(clients := r.clients[e.id := Own(r.clients[e.id], e)])
  }

  // ---- runs ---------------------------------------------------------------------------------------------

  const EMPTY := Room(map[], {}, map[])

  ghost predicate IsRun(rooms: seq<Room>, events: seq<Event>) {
    && |rooms| == |events| + 1
    && rooms[0] == EMPTY
    && forall k :: 0 <= k < |events| ==> Enabled(rooms[k], events[k]) && rooms[k + 1] == Step(rooms[k], events[k])
  }

  /** The frames one client broadcast. */
  function From(frames: seq<Outgoing>, sender: nat): seq<Outgoing> {
    if frames == [] then []
    else
      var n := |frames| - 1;
      if frames[n].Relayed? && frames[n].sender == sender then From(frames[..n], sender) + [frames[n]]
      else From(frames[..n], sender)
  }

  /** The frames and directives of the server itself. */
  function FromServer(frames: seq<Outgoing>): seq<Outgoing> {
    if frames == [] then []
    else
      var n := |frames| - 1;
      if frames[n].Relayed? then FromServer(frames[..n]) else FromServer(frames[..n]) + [frames[n]]
  }

  lemma FromAppend(frames: seq<Outgoing>, m: Outgoing, sender: nat)
    ensures From(frames + [m], sender)
            == if m.Relayed? && m.sender == sender then From(frames, sender) + [m] else From(frames, sender)
    ensures FromServer(frames + [m]) == if m.Relayed? then FromServer(frames) else FromServer(frames) + [m]
  {
    assert (frames + [m])[..|frames|] == frames;
  }
}
