/** A run in which a call overflows and another overtakes it, so that the wire is no prefix of the calls. */
module RelayOvertaken {
  import opened RelaySpec
  import opened RelayCalls

  const SLOW := 3
  const FIRST := 1
  const SECOND := 2

  datatype History = History(rooms: seq<Room>, events: seq<Event>)
  {
    ghost predicate Valid() {
      IsRun(rooms, events)
    }

    function Last(): Room
      requires rooms != []
    {
      rooms[|rooms| - 1]
    }
  }

  /** One more step. */
  function Then(h: History, e: Event): History
    requires h.rooms != [] && Enabled(h.Last(), e)
  {
    History(h.rooms + [Step(h.Last(), e)], h.events + [e])
  }

  lemma ThenIsRun(h: History, e: Event)
    requires h.Valid() && Enabled(h.Last(), e)
    ensures Then(h, e).Valid() && Then(h, e).Last() == Step(h.Last(), e)
  {
  }

  lemma Started() returns (h: History)
    ensures h.Valid() && Filling(h.Last(), 0)
  {
    h := History([EMPTY], []);
    ThenIsRun(h, Connect(FIRST, true));
    h := Then(h, Connect(FIRST, true));
    ThenIsRun(h, Connect(SLOW, true));
    h := Then(h, Connect(SLOW, true));
  }

  /** The slow client, whose pump has written some frames and has some left. */
  ghost predicate Slow(c: Client, queued: nat, written: nat) {
    && c.open && !c.done && c.writer.Idle? && |c.queue| == queued && |c.wire| == written
    && forall i :: 0 <= i < |c.queue| ==> c.queue[i].Relayed?
  }

  ghost predicate Filling(r: Room, n: nat) {
    && r.clients.Keys == {FIRST, SLOW} && r.registered == {FIRST, SLOW}
    && r.clients[FIRST].reader == Reading
    && (forall i :: 0 <= i < |r.clients[FIRST].said| ==> r.clients[FIRST].said[i].Relayed?)
    && Slow(r.clients[SLOW], n, 0) && r.clients[SLOW].overflows == [] && |r.clients[SLOW].called| == n
  }

  lemma FillOne(h: History, n: nat) returns (h': History)
    requires h.Valid() && Filling(h.Last(), n) && n < SEND_BUFFER
    ensures h'.Valid() && Filling(h'.Last(), n + 1)
  {
    var read, relay, done := Read(FIRST, Text, []), Relay(FIRST, SLOW, Enqueue), EndBroadcast(FIRST);
    ThenIsRun(h, read);
    h' := Then(h, read);
    assert h'.Last().clients[FIRST].reader == Sending({SLOW});
    ThenIsRun(h', relay);
    h' := Then(h', relay);
    assert h'.Last().clients[FIRST].reader == Sending({});
    ThenIsRun(h', done);
    h' := Then(h', done);
  }

  lemma {:induction false} Filled(n: nat) returns (h: History)
    requires n <= SEND_BUFFER
    ensures h.Valid() && Filling(h.Last(), n)
  {
    if n == 0 {
      h := Started();
    } else {
      h := Filled(n - 1);
      h := FillOne(h, n - 1);
    }
  }

  /** The first sender is between its overflow and its hang-up. */
  ghost predicate Draining(r: Room, queued: nat) {
    && queued <= SEND_BUFFER && r.clients.Keys == {FIRST, SECOND, SLOW} && r.registered == {FIRST, SECOND, SLOW}
    && r.clients[FIRST].reader == Dropping({SECOND, SLOW}, SLOW) && r.clients[SECOND].reader == Reading
    && Slow(r.clients[SLOW], queued, SEND_BUFFER - queued) && r.clients[SLOW].overflows == [SEND_BUFFER]
  }

  lemma Overflowed() returns (h: History)
    ensures h.Valid() && Draining(h.Last(), SEND_BUFFER)
  {
    var join, read, overflow := Connect(SECOND, true), Read(FIRST, Text, []), Overflow(FIRST, SLOW);
    h := Filled(SEND_BUFFER);
    ThenIsRun(h, join);
    h := Then(h, join);
    assert h.Last().registered == {FIRST, SECOND, SLOW};
    ThenIsRun(h, read);
    h := Then(h, read);
    assert h.Last().clients[FIRST].reader == Sending({SECOND, SLOW});
    ThenIsRun(h, overflow);
    h := Then(h, overflow);
  }

  lemma WriteOne(h: History, queued: nat) returns (h': History)
    requires h.Valid() && 0 < queued && Draining(h.Last(), queued)
    ensures h'.Valid() && Draining(h'.Last(), queued - 1)
  {
    ThenIsRun(h, Take(SLOW));
    h' := Then(h, Take(SLOW));
    ThenIsRun(h', Write(SLOW, true));
    h' := Then(h', Write(SLOW, true));
  }

  lemma {:induction false} Drained(queued: nat) returns (h: History)
    requires queued <= SEND_BUFFER
    ensures h.Valid() && Draining(h.Last(), queued)
    decreases SEND_BUFFER - queued
  {
    if queued == SEND_BUFFER {
      h := Overflowed();
    } else {
      h := Drained(queued + 1);
      h := WriteOne(h, queued + 1);
    }
  }

  /** The second sender says a frame, and it is queued for the slow client. */
  lemma SecondSpeaks() returns (h: History)
    ensures h.Valid() && SLOW in h.Last().clients
    ensures Slow(h.Last().clients[SLOW], 1, SEND_BUFFER) && h.Last().clients[SLOW].overflows == [SEND_BUFFER]
  {
    var read, relay := Read(SECOND, Text, []), Relay(SECOND, SLOW, Enqueue);
    h := Drained(0);
    ThenIsRun(h, read);
    h := Then(h, read);
    assert h.Last().clients[SECOND].reader == Sending({FIRST, SLOW});
    ThenIsRun(h, relay);
    h := Then(h, relay);
  }

  /** The slow client is written a frame whose call came after one it has not been written, on an open connection. */
  lemma OverflowIsOvertaken() returns (h: History)
    ensures h.Valid() && SLOW in h.Last().clients
    ensures var c := h.Last().clients[SLOW]; c.open && !c.done && !(c.wire <= c.called)
  {
    h := SecondSpeaks();
    ThenIsRun(h, Take(SLOW));
    h := Then(h, Take(SLOW));
    ThenIsRun(h, Write(SLOW, true));
    h := Then(h, Write(SLOW, true));
    CallsArePrefixIff(h.rooms, h.events, |h.rooms| - 1, SLOW);
  }
}
