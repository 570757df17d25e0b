/** The client side of a close: a text frame or a close code ends the session, and the first one settles it. */
module CloseSignals {
  import opened Options
  import opened RelayClose
  import opened RelayDelivery
  import opened RelaySpec

  const CLOSE_AUTH_FAILED := 4003

  /** What the socket hands its hooks: a text control frame, or the code the connection closed with. */
  datatype Signal = TextFrame(isRoomClosed: bool) | Closed(code: int)

  datatype Callback = OnRoomClosed | OnAuthError

  /** The callback a signal asks for, if any. */
  function Asks(s: Signal): Option<Callback> {
    match s
    case TextFrame(isRoomClosed) => if isRoomClosed then Some(OnRoomClosed) else None
    case Closed(code) =>
      if code == CLOSE_ROOM_CLOSED then Some(OnRoomClosed)
      else if code == CLOSE_AUTH_FAILED then Some(OnAuthError)
      else None
  }

  /** The first request among the signals. */
  function FirstAsked(signals: seq<Signal>): Option<Callback> {
    if signals == [] then None
    else if Asks(signals[0]).Some? then Asks(signals[0])
    else FirstAsked(signals[1..])
  }

  function Fired(signals: seq<Signal>): seq<Callback> {
    match FirstAsked(signals)
    case None => []
    case Some(c) => [c]
  }

  lemma {:induction false} FirstAskedAppend(signals: seq<Signal>, s: Signal)
    ensures FirstAsked(signals + [s]) == if FirstAsked(signals).Some? then FirstAsked(signals) else Asks(s)
  {
    if signals != [] && Asks(signals[0]).None? {
      FirstAskedAppend(signals[1..], s);
      assert (signals + [s])[1..] == signals[1..] + [s];
    }
  }

  /** A room-closed text frame, or one of the two codes. */
  predicate Ends(s: Signal) {
    s == TextFrame(true) || s == Closed(4001) || s == Closed(4003)
  }

  lemma {:induction false} FirstAskedAt(signals: seq<Signal>, i: nat)
    requires i < |signals| && (forall j :: 0 <= j < i ==> !Ends(signals[j])) && Ends(signals[i])
    ensures FirstAsked(signals) == Some(if signals[i] == Closed(4003) then OnAuthError else OnRoomClosed)
  {
    if i > 0 {
      FirstAskedAt(signals[1..], i - 1);
    }
  }

  lemma {:induction false} NoneAsked(signals: seq<Signal>)
    requires forall j :: 0 <= j < |signals| ==> !Ends(signals[j])
    ensures FirstAsked(signals) == None
  {
    if signals != [] {
      assert !Ends(signals[0]);
      NoneAsked(signals[1..]);
    }
  }

  /** The first end settles it: a room-closed frame or code 4001 is reported as the room being closed, code 4003 as
      failed authentication, and nothing else is ever reported. */
  lemma FirstEndSettles(signals: seq<Signal>, i: nat)
    requires i <= |signals| && forall j :: 0 <= j < i ==> !Ends(signals[j])
    ensures i == |signals| ==> Fired(signals) == []
    ensures i < |signals| && (signals[i] == TextFrame(true) || signals[i] == Closed(4001)) ==>
              Fired(signals) == [OnRoomClosed]
    ensures i < |signals| && signals[i] == Closed(4003) ==> Fired(signals) == [OnAuthError]
  {
    if i == |signals| {
      NoneAsked(signals);
    } else if Ends(signals[i]) {
      FirstAskedAt(signals, i);
    }
  }

  /** A session: the latch, the provider's connection, and the callbacks made so far. */
  class Session {
    var terminated: bool
    var connected: bool
    ghost var signals: seq<Signal>
    ghost var fired: seq<Callback>

    constructor ()
      ensures Valid() && signals == [] && connected
    {
      terminated, connected, signals, fired := false, true, [], [];
    }

    /** Whatever came in, exactly the first request was answered, and the provider no longer reconnects. */
    ghost predicate Valid()
      reads this
    {
      fired == Fired(signals) && terminated == FirstAsked(signals).Some? && connected == !terminated
    }

    method Terminate(notify: Callback)
      modifies this`terminated, this`connected, this`fired
      ensures terminated
      ensures if old(terminated) then connected == old(connected) && fired == old(fired)
              else !connected && fired == old(fired) + [notify]
    {
      if terminated { return; }
      terminated := true;
      connected := false; // provider.disconnect()
      fired := fired + [notify];
    }

    method OnTextMessage(isRoomClosed: bool)
      requires Valid()
      modifies this
      ensures Valid() && signals == old(signals) + [TextFrame(isRoomClosed)]
    {
      FirstAskedAppend(signals, TextFrame(isRoomClosed));
      signals := signals + [TextFrame(isRoomClosed)];
      if isRoomClosed { Terminate(OnRoomClosed); }
    }

    method OnClose(code: int)
      requires Valid()
      modifies this
      ensures Valid() && signals == old(signals) + [Closed(code)]
    {
      FirstAskedAppend(signals, Closed(code));
      signals := signals + [Closed(code)];
      if code == CLOSE_ROOM_CLOSED {
        Terminate(OnRoomClosed);
      } else if code == CLOSE_AUTH_FAILED {
        Terminate(OnAuthError);
      }
    }
  }

  // ---- with the relay at the other end --------------------------------------------------------------

  /** isRoomClosedMessage: which text payloads read as the control message. */
  type Reading = seq<bv8> -> bool

  /** The signals of the frames on a connection. Binary frames are Yjs traffic; a text frame relayed from another
      participant is looked at like the server's own. */
  function SignalsOf(wire: seq<Outgoing>, asClosed: Reading): seq<Signal> {
    if wire == [] then []
    else
      var last := wire[|wire| - 1];
      SignalsOf(wire[..|wire| - 1], asClosed) +
      match last
      case Relayed(_, Binary, _) => []
      case Relayed(_, Text, data) => [TextFrame(asClosed(data))]
      case RoomClosed => [TextFrame(true)]
      case Close(code) => [Closed(code)]
  }

  /** A text frame that reads as room-closed, whoever sent it. */
  predicate SaysClosed(m: Outgoing, asClosed: Reading) {
    m.RoomClosed? || (m.Relayed? && m.kind.Text? && asClosed(m.data))
  }

  ghost predicate Tells(wire: seq<Outgoing>, asClosed: Reading) {
    exists m :: m in wire && SaysClosed(m, asClosed)
  }

  lemma TellsMore(wire: seq<Outgoing>, m: Outgoing, asClosed: Reading)
    ensures Tells(wire + [m], asClosed) <==> Tells(wire, asClosed) || SaysClosed(m, asClosed)
  {
    if Tells(wire, asClosed) {
      var said :| said in wire && SaysClosed(said, asClosed);
      assert said in wire + [m];
    }
    assert m in wire + [m];
  }

  ghost predicate OnlyRoomCloses(wire: seq<Outgoing>) {
    forall i :: 0 <= i < |wire| && wire[i].Close? ==> wire[i].code == CLOSE_ROOM_CLOSED && RoomClosed in wire[..i]
  }

  lemma {:induction false} WireAsks(wire: seq<Outgoing>, asClosed: Reading)
    requires OnlyRoomCloses(wire)
    ensures FirstAsked(SignalsOf(wire, asClosed)) == if Tells(wire, asClosed) then Some(OnRoomClosed) else None
  {
    if wire != [] {
      var n := |wire| - 1;
      forall i | 0 <= i < n && wire[..n][i].Close?
        ensures wire[..n][i].code == CLOSE_ROOM_CLOSED && RoomClosed in wire[..n][..i]
      {
        assert wire[..n][..i] == wire[..i];
      }
      WireAsks(wire[..n], asClosed);
      assert wire == wire[..n] + [wire[n]];
      TellsMore(wire[..n], wire[n], asClosed);
      var before := SignalsOf(wire[..n], asClosed);
      match wire[n]
      case Relayed(_, Binary, _) => assert before + [] == before;
      case Relayed(_, Text, data) => FirstAskedAppend(before, TextFrame(asClosed(data)));
      case RoomClosed => FirstAskedAppend(before, TextFrame(true));
      case Close(code) =>
        FirstAskedAppend(before, Closed(code));
        assert RoomClosed in wire[..n] && SaysClosed(RoomClosed, asClosed);
    }
  }

  /** End to end: in every run of the relay, a client that has not torn down its side is told of a close exactly when
      a text frame that reads as room-closed has reached it, the server's or another participant's, and exactly
      once, however many close-alls overlap and whether or not the close code got through after the message. */
  lemma ToldOnce(rooms: seq<Room>, events: seq<Event>, k: nat, id: nat, asClosed: Reading)
    requires IsRun(rooms, events) && k < |rooms| && id in rooms[k].clients && !rooms[k].clients[id].done
    ensures var wire := rooms[k].clients[id].wire;
            Fired(SignalsOf(wire, asClosed)) == if Tells(wire, asClosed) then [OnRoomClosed] else []
  {
    var wire := rooms[k].clients[id].wire;
    forall i | 0 <= i < |wire| && wire[i].Close? ensures wire[i].code == CLOSE_ROOM_CLOSED && RoomClosed in wire[..i] {
      ClosePrecededByMessage(rooms, events, k, id, i);
    }
    WireAsks(wire, asClosed);
  }
}
