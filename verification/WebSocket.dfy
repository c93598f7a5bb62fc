/** The WebSocket handler object and the handshake state that it shares with middleware through
    the connection. Calls are sequential, sends do not fail, and the receive channel is a finite
    list of events: a call that would wait for one more is reported as `Blocked`. */
module WebSockets {
  import opened Options

  /** `close(code, reason or '')`. */
  function Closing(code: int, reason: Option<string>): (m: Message) {
    Close(code, if reason.Some? then reason.value else "")
  }

  datatype Data = Str(text: string) | Bytes(data: seq<bv8>)

  /** An event dictionary on the receive channel; an absent key is `None`. */
  datatype Event =
    | Connect
    | Receive(text: Option<string>, data: Option<seq<bv8>>)
    | Disconnect(code: Option<int>, reason: Option<string>)
    | OtherEvent

  datatype Message =
    | Accept(subprotocol: Option<string>, headers: Option<seq<(string, string)>>)
    | Send(payload: Data)
    | Close(code: int, reason: string)

  /** How a call ends: normally, with a message, by raising WebSocketDisconnect or RuntimeError,
      or not at all. */
  datatype Result = Done | Got(payload: Data) | Gone(code: int, reason: Option<string>) | Misuse | Blocked

  const NORMAL_CLOSURE := 1000
  const NO_STATUS := 1005

  // ---- The protocol, as an automaton over the messages sent ----------------------------------

  datatype Phase = Offered | Live | Ended | Broken

  function Next(p: Phase, m: Message): (q: Phase) {
    match (p, m)
    case (Offered, Accept(_, _)) => Live
    case (Offered, Close(_, _)) => Ended
    case (Live, Send(_)) => Live
    case (Live, Close(_, _)) => Ended
    case _ => Broken
  }

  function PhaseAfter(start: Phase, sent: seq<Message>): (p: Phase) {
    if sent == [] then start else Next(PhaseAfter(start, sent[..|sent| - 1]), sent[|sent| - 1])
  }

  ghost predicate AllSends(ms: seq<Message>) { forall i :: 0 <= i < |ms| ==> ms[i].Send? }

  /** Some sends, then at most one close. */
  ghost predicate SendsThenClose(ms: seq<Message>) {
    AllSends(ms) || (ms != [] && AllSends(ms[..|ms| - 1]) && ms[|ms| - 1].Close?)
  }

  /** A lone close, or an accept, sends and at most one close; without the accept when it was given before. */
  ghost predicate Legal(start: Phase, sent: seq<Message>) {
    match start
    case Offered => sent == [] || (|sent| == 1 && sent[0].Close?) || (sent[0].Accept? && SendsThenClose(sent[1..]))
    case _ => SendsThenClose(sent)
  }

  lemma LegalPrefix(start: Phase, sent: seq<Message>)
    requires Legal(start, sent) && sent != []
    ensures Legal(start, sent[..|sent| - 1])
  {
    var n := |sent| - 1;
    if start.Offered? && n > 0 {
      assert sent[1..][..n - 1] == sent[..n][1..];
    }
  }

  /** The automaton accepts exactly the legal conversations. */
  lemma {:induction false} UnbrokenShape(start: Phase, sent: seq<Message>)
    requires start.Offered? || start.Live?
    ensures !PhaseAfter(start, sent).Broken? <==> Legal(start, sent)
    ensures Legal(start, sent) ==> (PhaseAfter(start, sent).Ended? <==> sent != [] && sent[|sent| - 1].Close?)
    ensures PhaseAfter(start, sent).Offered? <==> start.Offered? && sent == []
  {
    if sent != [] {
      var n := |sent| - 1;
      var front := sent[..n];
      UnbrokenShape(start, front);
      if Legal(start, sent) {
        LegalPrefix(start, sent);
      }
      if start.Offered? && n > 0 {
        assert sent[1..][..n - 1] == front[1..];
      }
    }
  }

  lemma PhaseSnoc(start: Phase, sent: seq<Message>, m: Message)
    ensures PhaseAfter(start, sent + [m]) == Next(PhaseAfter(start, sent), m)
  {
    assert (sent + [m])[..|sent|] == sent;
  }

  lemma Reassociate<T>(a: seq<T>, b: seq<T>, c: seq<T>)
    ensures a + (b + c) == a + b + c
  {
  }

  // ---- The connection --------------------------------------------------------------------------

  class Connection {
    const events: seq<Event>
    var pos: nat
    var sent: seq<Message>
    var bagConsumed: bool
    var bagAccepted: bool
    var bagClosed: bool
    ghost var offersTaken: nat

    ghost predicate Valid()
      reads this
    {
      && pos <= |events| && (bagAccepted ==> bagConsumed)
      && offersTaken <= 1 && (!bagConsumed ==> offersTaken == 0)
    }

    constructor (events: seq<Event>)
      ensures Valid() && this.events == events && pos == 0 && sent == []
      ensures !bagConsumed && !bagAccepted && !bagClosed && offersTaken == 0
    {
      this.events := events;
      pos, sent, bagConsumed, bagAccepted, bagClosed, offersTaken := 0, [], false, false, false, 0;
    }

    method Take() returns (event: Option<Event>)
      requires Valid()
      modifies this`pos
      ensures Valid()
      ensures if old(pos) < |events| then event == Some(events[old(pos)]) && pos == old(pos) + 1
              else event.None? && pos == old(pos)
    {
      if pos == |events| {
        return None;
      }
      event := Some(events[pos]);
      pos := pos + 1;
    }

    method Put(m: Message)
      modifies this`sent
      ensures sent == old(sent) + [m]
    {
      sent := sent + [m];
    }
  }

  // ---- The object ------------------------------------------------------------------------------

  class WebSocket {
    const conn: Connection
    var connectSeen: bool
    var accepted: bool
    var acceptedElsewhere: bool
    var closed: bool
    var disconnected: bool
    var closeCode: Option<int>
    var closeReason: Option<string>
    ghost const start: Phase
    ghost const earlier: seq<Message>
    ghost const shut: bool           // some other layer had closed before
    ghost var own: seq<Message>      // what this object has sent
    ghost var ended: bool            // a close is among it
    ghost var leftAt: nat            // how much was on the wire when the peer was seen to leave

    /** Where the flags say the protocol is. */
    ghost function Phase(): (p: Phase)
      reads this`accepted, this`ended
    {
      if ended then Ended else if accepted then Live else Offered
    }

    /** The wire carries what this object sent, which leads to that phase, and nothing followed an
        observed disconnect. */
    ghost predicate Traced()
      reads this`own, this`accepted, this`ended, this`disconnected, this`leftAt, conn`sent
    {
      && conn.sent == earlier + own && PhaseAfter(start, own) == Phase()
      && (disconnected ==> leftAt == |conn.sent|)
    }

    /** The flags agree with each other and with the connection's. */
    ghost predicate Flagged()
      reads this`connectSeen, this`accepted, this`acceptedElsewhere, this`closed, this`disconnected, this`ended, conn
    {
      && conn.Valid() && connectSeen == conn.bagConsumed && accepted == conn.bagAccepted
      && (acceptedElsewhere ==> accepted) && (disconnected ==> connectSeen)
      && (conn.bagClosed <==> ended || shut) && (ended ==> closed) && (closed ==> ended || disconnected)
    }

    ghost predicate Valid()
      reads this, conn
    {
      (start.Offered? || start.Live?) && Traced() && Flagged()
    }

    constructor (conn: Connection)
      requires conn.Valid()
      ensures Valid() && this.conn == conn && own == [] && earlier == conn.sent && shut == conn.bagClosed
      ensures start == if conn.bagAccepted then Live else Offered
      ensures connectSeen == conn.bagConsumed && accepted == acceptedElsewhere == conn.bagAccepted
      ensures !closed && !disconnected
    {
      this.conn := conn;
      accepted, acceptedElsewhere := conn.bagAccepted, conn.bagAccepted;
      connectSeen := conn.bagConsumed || conn.bagAccepted;
      closed, disconnected, closeCode, closeReason := false, false, None, None;
      earlier, own, shut, leftAt, ended := conn.sent, [], conn.bagClosed, 0, false;
      start := if conn.bagAccepted then Live else Offered;
    }

    /** `WebSocketDisconnect(self._close_code or 1005, self._close_reason)`. */
    function GoneNow(): (r: Result)
      reads this
    {
      Gone(if closeCode.Some? && closeCode.value != 0 then closeCode.value else NO_STATUS, closeReason)
    }

    /** The close code and reason are those of a disconnect event. */
    ghost predicate NotedFrom(e: Event)
      requires e.Disconnect?
      reads this
    {
      closeCode == Some(if e.code.Some? then e.code.value else NO_STATUS) && closeReason == e.reason
    }

    method NoteDisconnect(code: Option<int>, reason: Option<string>)
      modifies this`disconnected, this`closeCode, this`closeReason, this`leftAt
      ensures disconnected && leftAt == |conn.sent| && closeReason == reason
      ensures closeCode == Some(if code.Some? then code.value else NO_STATUS)
    {
      disconnected, leftAt := true, |conn.sent|;
      closeCode := Some(if code.Some? then code.value else NO_STATUS);
      closeReason := reason;
    }

    /** The handshake offer has been taken, or is the next event. */
    ghost predicate OfferAhead()
      reads this, conn
    {
      connectSeen || (conn.pos < |conn.events| && conn.events[conn.pos].Connect?)
    }

    /** Pop the handshake offer, once. Any event but an offer or a disconnect is an error. */
    method ConsumeConnect() returns (r: Result)
      requires Valid()
      modifies this`connectSeen, this`disconnected, this`closeCode, this`closeReason, this`leftAt
      modifies conn`bagConsumed, conn`pos, conn`offersTaken
      ensures Valid() && connectSeen && (r.Done? || ((r.Misuse? || r.Blocked?) && !disconnected))
      ensures old(connectSeen) ==> r.Done? && conn.pos == old(conn.pos) && disconnected == old(disconnected)
      ensures !old(connectSeen) && r.Blocked? ==> conn.pos == old(conn.pos) == |conn.events|
      ensures !old(connectSeen) && !r.Blocked? ==>
                && old(conn.pos) < |conn.events| && conn.pos == old(conn.pos) + 1
                && (r.Done? <==> conn.events[old(conn.pos)].Connect? || conn.events[old(conn.pos)].Disconnect?)
                && (disconnected <==> conn.events[old(conn.pos)].Disconnect?)
                && (disconnected ==> NotedFrom(conn.events[old(conn.pos)]))
      ensures conn.offersTaken == old(conn.offersTaken) +
                (if !old(connectSeen) && r.Done? && !disconnected then 1 else 0)
    {
      if connectSeen {
        return Done;
      }
      connectSeen := true;
      conn.bagConsumed := true;
      var event := conn.Take();
      if event.None? {
        return Blocked;
      }
      match event.value {
        case Disconnect(code, reason) =>
          NoteDisconnect(code, reason);
          r := Done;
        case Connect =>
          conn.offersTaken := conn.offersTaken + 1;
          r := Done;
        case _ =>
          r := Misuse;
      }
    }

    /** Hand a message to the channel and record it. */
    method Transmit(m: Message)
      requires conn.sent == earlier + own
      modifies conn`sent, this`own
      ensures conn.sent == earlier + own && own == old(own) + [m]
      ensures PhaseAfter(start, own) == Next(PhaseAfter(start, old(own)), m)
    {
      Reassociate(earlier, own, [m]);
      PhaseSnoc(start, own, m);
      conn.Put(m);
      own := own + [m];
    }

    method AcceptCall(subprotocol: Option<string>, headers: Option<seq<(string, string)>>) returns (r: Result)
      requires Valid()
      modifies this`connectSeen, this`accepted, this`acceptedElsewhere, this`own
      modifies this`disconnected, this`closeCode, this`closeReason, this`leftAt
      modifies conn`pos, conn`sent, conn`bagConsumed, conn`bagAccepted, conn`offersTaken
      ensures Valid() && (old(disconnected) ==> disconnected)
      ensures if accepted && !old(accepted) then own == old(own) + [Accept(subprotocol, headers)] else own == old(own)
      ensures accepted && !old(accepted) ==> r.Done? && !old(closed) && !old(disconnected) && !disconnected
      ensures old(accepted) ==> accepted && conn.pos == old(conn.pos) && disconnected == old(disconnected)
      ensures old(acceptedElsewhere) ==> !acceptedElsewhere && r == if subprotocol.None? && headers.None? then Done else Misuse
      ensures !old(acceptedElsewhere) ==> (r.Done? <==> accepted && !old(accepted))
      ensures !old(acceptedElsewhere) && (old(accepted) || old(closed)) ==> r.Misuse? && conn.pos == old(conn.pos)
      ensures !old(acceptedElsewhere) && !old(accepted) && !old(closed) && disconnected ==> r == GoneNow()
      ensures !old(connectSeen) && disconnected && !old(disconnected) ==>
                && old(conn.pos) < |conn.events|
                && var e := conn.events[old(conn.pos)];
                   e.Disconnect? && r == Gone(if e.code.None? || e.code.value == 0 then 1005 else e.code.value, e.reason)
      ensures !old(accepted) && !old(closed) && !old(disconnected) && old(OfferAhead()) ==> r.Done?
      ensures r.Blocked? ==> conn.pos == |conn.events|
    {
      if acceptedElsewhere {
        acceptedElsewhere := false;
        return if subprotocol.None? && headers.None? then Done else Misuse;
      }
      if accepted {
        return Misuse;
      }
      if closed {
        return Misuse;
      }
      r := ConsumeConnect();
      if !r.Done? {
        return;
      }
      if disconnected {
        return GoneNow();
      }
      SendAccept(subprotocol, headers);
    }

    method SendAccept(subprotocol: Option<string>, headers: Option<seq<(string, string)>>)
      requires Valid() && !accepted && !closed && !disconnected && connectSeen
      modifies this`accepted, this`own, conn`sent, conn`bagAccepted
      ensures Valid() && accepted && own == old(own) + [Accept(subprotocol, headers)]
    {
      Transmit(Accept(subprotocol, headers));
      accepted := true;
      conn.bagAccepted := true;
    }

    method CloseCall(code: int, reason: Option<string>) returns (r: Result)
      requires Valid()
      modifies this`connectSeen, this`closed, this`own, this`ended, this`disconnected, this`closeCode, this`closeReason
      modifies this`leftAt, conn`pos, conn`sent, conn`bagConsumed, conn`bagClosed, conn`offersTaken
      ensures Valid() && (old(disconnected) ==> disconnected)
      ensures r.Done? || r.Misuse? || r.Blocked?
      ensures r.Done? <==> closed
      ensures old(closed) || old(disconnected) ==> r.Done? && conn.pos == old(conn.pos)
      ensures if r.Done? && !old(closed) && !disconnected
              then own == old(own) + [if reason.Some? then Close(code, reason.value) else Close(code, "")] else own == old(own)
      ensures old(accepted) ==> r.Done? && conn.pos == old(conn.pos) && disconnected == old(disconnected)
      ensures old(OfferAhead()) ==> r.Done?
      ensures r.Blocked? ==> conn.pos == |conn.events|
      ensures own != old(own) ==> closeCode == Some(code) && closeReason == reason
      ensures old(closed) || old(disconnected) ==> closeCode == old(closeCode) && closeReason == old(closeReason)
    {
      if closed || disconnected {
        closed := true;
        return Done;
      }
      if !accepted {
        r := ConsumeConnect();
        if !r.Done? {
          return;
        }
        if disconnected {
          closed := true;
          return;
        }
      }
      SendClose(code, reason);
      r := Done;
    }

    method SendClose(code: int, reason: Option<string>)
      requires Valid() && !closed && !disconnected
      modifies this`closed, this`own, this`ended, this`closeCode, this`closeReason, conn`sent, conn`bagClosed
      ensures Valid() && closed && closeCode == Some(code) && closeReason == reason
      ensures own == old(own) + [Closing(code, reason)]
    {
      closed := true;
      Transmit(Closing(code, reason));
      ended, conn.bagClosed := true, true;
      closeCode, closeReason := Some(code), reason;
    }

    /** `_check_sendable`: not before accept, not after a disconnect, not after close. */
    function Refusal(): (why: Option<Result>)
      reads this
    {
      if !accepted then Some(Misuse)
      else if disconnected then Some(GoneNow())
      else if closed then Some(Misuse)
      else None
    }

    method SendCall(payload: Data) returns (r: Result)
      requires Valid()
      modifies this`own, conn`sent
      ensures Valid()
      ensures !accepted ==> r.Misuse? && own == old(own)
      ensures accepted && disconnected ==> r == GoneNow() && own == old(own)
      ensures accepted && !disconnected && closed ==> r.Misuse? && own == old(own)
      ensures accepted && !disconnected && !closed ==> r.Done? && own == old(own) + [Send(payload)]
    {
      if Refusal().Some? {
        return Refusal().value;
      }
      Transmit(Send(payload));
      r := Done;
    }

    /** One whole message: other events are skipped, a disconnect is recorded and raised. */
    method ReceiveCall() returns (r: Result)
      requires Valid()
      modifies this`disconnected, this`closeCode, this`closeReason, this`leftAt, conn`pos
      ensures Valid() && old(conn.pos) <= conn.pos
      ensures old(disconnected) ==> disconnected && r == old(GoneNow()) && conn.pos == old(conn.pos)
      ensures !old(disconnected) && !accepted ==> !disconnected && r.Misuse? && conn.pos == old(conn.pos)
      ensures !old(disconnected) && accepted ==>
                match NextMessage(conn.events, old(conn.pos))
                case Nothing(n) => r.Blocked? && conn.pos == n && !disconnected
                case Message(n, payload) => r == Got(payload) && conn.pos == n && !disconnected
                case Leaves(n, e) =>
                  && r == Gone(if e.code.None? || e.code.value == 0 then 1005 else e.code.value, e.reason)
                  && r == GoneNow() && conn.pos == n && disconnected && NotedFrom(e)
    {
      if disconnected {
        return GoneNow();
      }
      if !accepted {
        return Misuse;
      }
      while true
        invariant Valid() && !disconnected && old(conn.pos) <= conn.pos
        invariant NextMessage(conn.events, old(conn.pos)) == NextMessage(conn.events, conn.pos)
        decreases |conn.events| - conn.pos
      {
        var event := conn.Take();
        if event.None? {
          return Blocked;
        }
        match event.value {
          case Receive(text, data) =>
            return Got(PayloadOf(text, data));
          case Disconnect(code, reason) =>
            NoteDisconnect(code, reason);
            return GoneNow();
          case _ =>
        }
      }
    }
  }

  /** Text if present, else bytes, else the empty text message. */
  function PayloadOf(text: Option<string>, data: Option<seq<bv8>>): (payload: Data) {
    if text.Some? then Str(text.value) else if data.Some? then Bytes(data.value) else Str("")
  }

  type Departure = e: Event | e.Disconnect? witness Disconnect(None, None)

  /** What comes next on a channel, and where the channel then stands. */
  datatype Upcoming = Nothing(n: nat) | Message(n: nat, payload: Data) | Leaves(n: nat, e: Departure)

  function NextMessage(events: seq<Event>, i: nat): (u: Upcoming)
    decreases |events| - i
  {
    if i >= |events| then Nothing(i)
    else match events[i]
      case Receive(text, data) => Message(i + 1, PayloadOf(text, data))
      case Disconnect(_, _) => Leaves(i + 1, events[i])
      case _ => NextMessage(events, i + 1)
  }

  // ---- Iteration -----------------------------------------------------------------------------------

  /** The messages from `i` on that come before the first disconnect, in order. */
  function MessagesFrom(events: seq<Event>, i: nat): (ms: seq<Data>)
    decreases |events| - i
  {
    if i >= |events| then []
    else match events[i]
      case Receive(text, data) => [PayloadOf(text, data)] + MessagesFrom(events, i + 1)
      case Disconnect(_, _) => []
      case _ => MessagesFrom(events, i + 1)
  }

  /** The peer leaves at `i` or later. */
  predicate LeavesFrom(events: seq<Event>, i: nat)
    decreases |events| - i
  {
    i < |events| && (events[i].Disconnect? || LeavesFrom(events, i + 1))
  }

  lemma {:induction false} NextMessageSplits(events: seq<Event>, i: nat)
    requires i <= |events|
    ensures var u := NextMessage(events, i);
            && i <= u.n <= |events|
            && match u
               case Nothing(_) => MessagesFrom(events, i) == [] && !LeavesFrom(events, i) && u.n == |events|
               case Leaves(_, _) => MessagesFrom(events, i) == [] && LeavesFrom(events, i) && i < u.n
               case Message(n, m) =>
                 && MessagesFrom(events, i) == [m] + MessagesFrom(events, n) && i < n
                 && (LeavesFrom(events, i) <==> LeavesFrom(events, n))
    decreases |events| - i
  {
    if i < |events| && !events[i].Receive? && !events[i].Disconnect? {
      NextMessageSplits(events, i + 1);
    }
  }

  /** `async for message in ws`: it yields exactly the messages before the first disconnect, in
      order, and ends there. */
  method Iterate(ws: WebSocket) returns (yielded: seq<Data>, r: Result)
    requires ws.Valid()
    modifies ws`disconnected, ws`closeCode, ws`closeReason, ws`leftAt, ws.conn`pos
    ensures ws.Valid()
    ensures old(ws.disconnected) || !ws.accepted ==> yielded == [] && (r.Gone? <==> old(ws.disconnected))
    ensures !old(ws.disconnected) && ws.accepted ==>
              && yielded == MessagesFrom(ws.conn.events, old(ws.conn.pos))
              && (if LeavesFrom(ws.conn.events, old(ws.conn.pos)) then r.Gone? && ws.disconnected
                  else r.Blocked? && !ws.disconnected)
  {
    yielded := [];
    var conn := ws.conn;
    ghost var events, start := conn.events, conn.pos;
    while true
      invariant ws.Valid() && ws.disconnected == old(ws.disconnected)
      invariant ws.disconnected || !ws.accepted ==> yielded == []
      invariant !ws.disconnected && ws.accepted ==>
                  && MessagesFrom(events, start) == yielded + MessagesFrom(events, conn.pos)
                  && (LeavesFrom(events, start) <==> LeavesFrom(events, conn.pos))
      decreases |conn.events| - conn.pos
    {
      NextMessageSplits(events, conn.pos);
      r := ws.ReceiveCall();
      if !r.Got? {
        return;
      }
      Reassociate(yielded, [r.payload], MessagesFrom(events, conn.pos));
      yielded := yielded + [r.payload];
    }
  }

  /** What a peer can send: a text message (the other key may be set as well), a binary message, an event
      with neither, which is the empty text; and events that are none of the handler's business. */
  datatype Sent = SentText(text: string, also: Option<seq<bv8>>) | SentBytes(data: seq<bv8>) | SentEmpty | Stray(again: bool)

  function EventOf(s: Sent): (e: Event) {
    match s
    case SentText(text, also) => Receive(Some(text), also)
    case SentBytes(data) => Receive(None, Some(data))
    case SentEmpty => Receive(None, None)
    case Stray(again) => if again then Connect else OtherEvent
  }

  /** The messages of what was sent, in order. */
  function MessagesOf(sent: seq<Sent>): (ms: seq<Data>) {
    if sent == [] then []
    else match sent[0]
      case SentText(text, _) => [Str(text)] + MessagesOf(sent[1..])
      case SentBytes(data) => [Bytes(data)] + MessagesOf(sent[1..])
      case SentEmpty => [Str("")] + MessagesOf(sent[1..])
      case Stray(_) => MessagesOf(sent[1..])
  }

  /** From `i` on the channel carries what was sent, and then ends or the peer leaves. */
  ghost predicate Carrying(events: seq<Event>, i: nat, sent: seq<Sent>) {
    && i + |sent| <= |events| && (i + |sent| < |events| ==> events[i + |sent|].Disconnect?)
    && forall k :: i <= k < i + |sent| ==> events[k] == EventOf(sent[k - i])
  }

  /** Everything sent before the peer leaves is read, as it was sent. */
  lemma {:induction false} SentIsRead(events: seq<Event>, i: nat, sent: seq<Sent>)
    requires Carrying(events, i, sent)
    ensures MessagesFrom(events, i) == MessagesOf(sent)
    decreases |sent|
  {
    if sent != [] {
      assert events[i] == EventOf(sent[0]);
      SentIsRead(events, i + 1, sent[1..]);
    }
  }

  /** Iterating over an accepted connection yields exactly what the peer sent before it left. */
  method IterateSent(ws: WebSocket, ghost sent: seq<Sent>) returns (yielded: seq<Data>)
    requires ws.Valid() && ws.accepted && !ws.disconnected && Carrying(ws.conn.events, ws.conn.pos, sent)
    modifies ws`disconnected, ws`closeCode, ws`closeReason, ws`leftAt, ws.conn`pos
    ensures ws.Valid() && yielded == MessagesOf(sent)
  {
    SentIsRead(ws.conn.events, ws.conn.pos, sent);
    var r;
    yielded, r := Iterate(ws);
  }

  // ---- Whole runs ----------------------------------------------------------------------------------

  datatype Call =
    | DoAccept(subprotocol: Option<string>, headers: Option<seq<(string, string)>>)
    | DoClose(code: int, reason: Option<string>)
    | DoSend(payload: Data)
    | DoReceive

  /** What has been said after one more call on an accepted connection; nothing is added after a close or
      a disconnect. */
  function Saying(said: seq<Message>, call: Call, mute: bool): (ms: seq<Message>) {
    if mute then said
    else match call
      case DoSend(payload) => said + [Send(payload)]
      case DoClose(code, reason) => said + [Closing(code, reason)]
      case _ => said
  }

  /** Where a handler stands: what it has said, how far it has read, whether it has closed, and whether it
      has seen the peer leave. */
  datatype Standing = Standing(said: seq<Message>, pos: nat, closed: bool, left: bool)

  ghost function StandingOf(ws: WebSocket): (s: Standing)
    requires ws.Valid()
    reads ws, ws.conn
  {
    Standing(ws.own, ws.conn.pos, ws.closed, ws.disconnected)
  }

  /** Where it stands after a call; `None` if the call does not end. */
  function Onward(events: seq<Event>, s: Standing, call: Call): (t: Option<Standing>) {
    if call.DoReceive? && !s.left then
      var u := NextMessage(events, s.pos);
      if u.Nothing? then None else Some(s.(pos := u.n, left := u.Leaves?))
    else
      Some(Standing(Saying(s.said, call, s.closed || s.left), s.pos, s.closed || call.DoClose?, s.left))
  }

  ghost predicate Moved(events: seq<Event>, s: Standing, call: Call, waiting: bool, t: Standing) {
    && (waiting <==> Onward(events, s, call).None?)
    && (if waiting then t.said == s.said && !t.left else Onward(events, s, call) == Some(t))
  }

  method Perform(ws: WebSocket, call: Call) returns (r: Result)
    requires ws.Valid()
    modifies ws, ws.conn
    ensures ws.Valid() && (old(ws.disconnected) ==> ws.disconnected) && (old(ws.closed) ==> ws.closed)
    ensures old(ws.own) <= ws.own
    ensures old(ws.disconnected) || old(ws.closed) ==> ws.own == old(ws.own)
    ensures old(ws.accepted) ==> ws.accepted && Moved(ws.conn.events, old(StandingOf(ws)), call, r.Blocked?, StandingOf(ws))
  {
    match call {
      case DoAccept(subprotocol, headers) => r := ws.AcceptCall(subprotocol, headers);
      case DoClose(code, reason) => r := ws.CloseCall(code, reason);
      case DoSend(payload) => r := ws.SendCall(payload);
      case DoReceive => r := ws.ReceiveCall();
    }
  }

  /** Over every run of calls the messages are an accept, then sends, then at most one close; or a
      lone close; or nothing; without the accept when middleware had accepted. The handshake offer
      is taken at most once, and nothing is sent after close or an observed disconnect. */
  method Drive(ws: WebSocket, calls: seq<Call>) returns (results: seq<Result>)
    requires ws.Valid()
    modifies ws, ws.conn
    ensures ws.Valid() && ws.conn.offersTaken <= 1
    ensures Legal(ws.start, ws.own)
    ensures old(ws.disconnected) || old(ws.closed) ==> ws.own == old(ws.own)
    ensures ws.disconnected ==> ws.leftAt == |ws.conn.sent|
  {
    results := [];
    for i := 0 to |calls|
      invariant ws.Valid() && (old(ws.disconnected) ==> ws.disconnected) && (old(ws.closed) ==> ws.closed)
      invariant old(ws.disconnected) || old(ws.closed) ==> ws.own == old(ws.own)
    {
      var r := Perform(ws, calls[i]);
      results := results + [r];
      if r.Blocked? {
        break;
      }
    }
    UnbrokenShape(ws.start, ws.own);
  }

  // ---- An accepted connection ----------------------------------------------------------------------

  /** How often the calls from `i` on receive. */
  function Receives(calls: seq<Call>, i: nat): (n: nat)
    decreases |calls| - i
  {
    if i >= |calls| then 0 else Receives(calls, i + 1) + (if calls[i].DoReceive? then 1 else 0)
  }

  /** What the calls from `i` on put on the wire when `heard` messages arrive before the peer leaves or
      falls silent: the sends up to the first close, and up to the first receive that finds no message. */
  function Spoken(calls: seq<Call>, i: nat, heard: nat): (ms: seq<Message>)
    decreases |calls| - i
  {
    if i >= |calls| then []
    else match calls[i]
      case DoClose(code, reason) => [Closing(code, reason)]
      case DoReceive => if heard == 0 then [] else Spoken(calls, i + 1, heard - 1)
      case DoSend(payload) => [Send(payload)] + Spoken(calls, i + 1, heard)
      case DoAccept(_, _) => Spoken(calls, i + 1, heard)
  }

  /** After `i` calls the standing agrees with the whole run that starts to read at `from`. */
  ghost predicate OnCourse(calls: seq<Call>, events: seq<Event>, from: nat, i: nat, s: Standing) {
    var heard, ahead := |MessagesFrom(events, from)|, |MessagesFrom(events, s.pos)|;
    && s.pos <= |events|
    && Spoken(calls, 0, heard) == s.said + (if s.closed || s.left then [] else Spoken(calls, i, ahead))
    && (if s.left then LeavesFrom(events, from) && heard + Receives(calls, i) < Receives(calls, 0)
        else heard + Receives(calls, i) == ahead + Receives(calls, 0)
             && (LeavesFrom(events, from) <==> LeavesFrom(events, s.pos)))
  }

  /** One more call keeps the course, or is the one that never ends. */
  lemma GoOn(calls: seq<Call>, events: seq<Event>, from: nat, i: nat, s: Standing)
    requires i < |calls| && OnCourse(calls, events, from, i, s)
    ensures match Onward(events, s, calls[i])
            case Some(t) => OnCourse(calls, events, from, i + 1, t)
            case None => && !LeavesFrom(events, from) && |MessagesFrom(events, from)| < Receives(calls, 0)
                         && s.said == Spoken(calls, 0, |MessagesFrom(events, from)|)
  {
    if calls[i].DoReceive? && !s.left {
      NextMessageSplits(events, s.pos);
    } else {
      SpeakOn(calls, events, from, i, s);
    }
  }

  lemma SpeakOn(calls: seq<Call>, events: seq<Event>, from: nat, i: nat, s: Standing)
    requires i < |calls| && OnCourse(calls, events, from, i, s) && !(calls[i].DoReceive? && !s.left)
    ensures OnCourse(calls, events, from, i + 1, Onward(events, s, calls[i]).value)
  {
    var ahead := |MessagesFrom(events, s.pos)|;
    if !s.closed && !s.left && calls[i].DoSend? {
      Reassociate(s.said, [Send(calls[i].payload)], Spoken(calls, i + 1, ahead));
    }
  }

  /** A handler on an accepted connection. Whether it comes to an end, whether it sees the peer leave, and
      what it puts on the wire are read off its calls and the events to come. */
  method Converse(ws: WebSocket, calls: seq<Call>) returns (waiting: bool)
    requires ws.Valid() && ws.accepted && !ws.closed && !ws.disconnected && ws.own == []
    modifies ws, ws.conn
    ensures ws.Valid()
    ensures ws.own == Spoken(calls, 0, |MessagesFrom(ws.conn.events, old(ws.conn.pos))|)
    ensures waiting <==> Starves(calls, ws.conn.events, old(ws.conn.pos)) && !LeavesFrom(ws.conn.events, old(ws.conn.pos))
    ensures ws.disconnected <==> Starves(calls, ws.conn.events, old(ws.conn.pos)) && LeavesFrom(ws.conn.events, old(ws.conn.pos))
  {
    ghost var from := ws.conn.pos;
    for i := 0 to |calls|
      invariant ws.Valid() && ws.accepted && OnCourse(calls, ws.conn.events, from, i, StandingOf(ws))
    {
      GoOn(calls, ws.conn.events, from, i, StandingOf(ws));
      var r := Perform(ws, calls[i]);
      if r.Blocked? {
        return true;
      }
    }
    waiting := false;
  }

  /** There are more receives than messages to come. */
  predicate Starves(calls: seq<Call>, events: seq<Event>, from: nat) {
    |MessagesFrom(events, from)| < Receives(calls, 0)
  }

  predicate EndsInClose(ms: seq<Message>) { ms != [] && ms[|ms| - 1].Close? }

  /** How the middleware ends: a first event that is no offer, a handler that raises, one that returns; or
      it is still waiting, for an offer or for its handler. */
  datatype Outcome = Refused | Waiting | Raised | Returned

  /** How it ends once the offer is taken, and what the connection then carries. */
  function Carried(calls: seq<Call>, raises: bool, events: seq<Event>, from: nat): (r: (Outcome, seq<Message>)) {
    var said := Spoken(calls, 0, |MessagesFrom(events, from)|);
    if Starves(calls, events, from) && !LeavesFrom(events, from) then (Waiting, [Accept(None, None)] + said)
    else if raises then (Raised, [Accept(None, None)] + said)
    else (Returned, [Accept(None, None)] + said + (if EndsInClose(said) then [] else [Close(NORMAL_CLOSURE, "")]))
  }

  /** The handshake middleware around a handler that uses the object: it takes the offer, accepts,
      runs the handler, and closes unless the handler did. */
  method Middleware(conn: Connection, calls: seq<Call>, raises: bool) returns (outcome: Outcome, ghost ws: WebSocket?)
    requires conn.Valid() && conn.sent == [] && !conn.bagConsumed && !conn.bagAccepted && !conn.bagClosed
    modifies conn
    ensures conn.Valid() && conn.offersTaken <= 1
    ensures old(conn.pos) == |conn.events| ==> outcome.Waiting? && conn.sent == []
    ensures old(conn.pos) < |conn.events| && !conn.events[old(conn.pos)].Connect? ==> outcome.Refused? && conn.sent == []
    ensures old(conn.pos) < |conn.events| && conn.events[old(conn.pos)].Connect? ==>
              var from := old(conn.pos) + 1;
              && (outcome, conn.sent) == Carried(calls, raises, conn.events, from)
              && ws != null && (ws.disconnected <==> Starves(calls, conn.events, from) && LeavesFrom(conn.events, from))
              && (ws.disconnected && ws.leftAt < |conn.sent| <==> LateClose(calls, raises, conn.events, from))
  {
    ws := null;
    var event := conn.Take();
    if event.None? {
      return Waiting, null;
    }
    if !event.value.Connect? {
      return Refused, null;
    }
    Greet(conn);
    var handler := new WebSocket(conn);
    var waiting := Converse(handler, calls);
    ws := handler;
    if waiting {
      return Waiting, ws;
    }
    if raises {
      return Raised, ws;
    }
    UnbrokenShape(Live, ws.own);
    CloseUnlessClosed(conn);
    outcome := Returned;
  }

  method Greet(conn: Connection)
    requires conn.Valid() && conn.sent == [] && conn.offersTaken == 0
    modifies conn`sent, conn`bagAccepted, conn`bagConsumed, conn`offersTaken
    ensures conn.Valid() && conn.sent == [Accept(None, None)] && conn.bagAccepted && conn.bagConsumed
  {
    conn.offersTaken := 1;
    conn.Put(Accept(None, None));
    conn.bagAccepted, conn.bagConsumed := true, true;
  }

  method CloseUnlessClosed(conn: Connection)
    modifies conn`sent, conn`bagClosed
    ensures conn.sent == old(conn.sent) + (if old(conn.bagClosed) then [] else [Close(NORMAL_CLOSURE, "")])
    ensures conn.bagClosed
  {
    if !conn.bagClosed {
      conn.Put(Close(NORMAL_CLOSURE, ""));
      conn.bagClosed := true;
    }
  }

  /** A handler that returns leaves one accept, sends, and exactly one close on the connection. */
  lemma ReturnedShape(calls: seq<Call>, events: seq<Event>, from: nat)
    requires Carried(calls, false, events, from).0.Returned?
    ensures var sent := Carried(calls, false, events, from).1;
            && |sent| >= 2 && sent[0] == Accept(None, None) && SendsThenClose(sent[1..]) && EndsInClose(sent)
            && (sent[|sent| - 1] == Close(1000, "") || OwnClose(calls, 0, sent[|sent| - 1]))
  {
    var said := Spoken(calls, 0, |MessagesFrom(events, from)|);
    SpokenShape(calls, 0, |MessagesFrom(events, from)|);
    var sent := Carried(calls, false, events, from).1;
    if EndsInClose(said) {
      assert sent[1..] == said;
    } else {
      assert sent[1..] == said + [Close(NORMAL_CLOSURE, "")];
      assert sent[1..][..|said|] == said;
    }
  }

  /** One of the calls from `i` on closes with this message. */
  ghost predicate OwnClose(calls: seq<Call>, i: nat, m: Message) {
    exists k :: i <= k < |calls| && calls[k].DoClose? && m.Close? && m.code == calls[k].code
                && m.reason == if calls[k].reason.None? then "" else calls[k].reason.value
  }

  lemma {:induction false} SpokenShape(calls: seq<Call>, i: nat, heard: nat)
    ensures var said := Spoken(calls, i, heard); SendsThenClose(said) && (EndsInClose(said) || AllSends(said))
    ensures var said := Spoken(calls, i, heard); EndsInClose(said) ==> OwnClose(calls, i, said[|said| - 1])
    decreases |calls| - i
  {
    if i < |calls| && !calls[i].DoClose? && !(calls[i].DoReceive? && heard == 0) {
      var left := if calls[i].DoReceive? then heard - 1 else heard;
      var head := if calls[i].DoSend? then [Send(calls[i].payload)] else [];
      var rest := Spoken(calls, i + 1, left);
      SpokenShape(calls, i + 1, left);
      assert Spoken(calls, i, heard) == head + rest;
      if rest != [] {
        assert (head + rest)[..|head + rest| - 1] == head + rest[..|rest| - 1];
      }
    }
  }

  /** The middleware sends its close although the handler has seen the peer leave: the handler returns
      after more receives than messages arrived, and had sent no close of its own. */
  predicate LateClose(calls: seq<Call>, raises: bool, events: seq<Event>, from: nat) {
    && !raises && Starves(calls, events, from) && LeavesFrom(events, from)
    && !EndsInClose(Spoken(calls, 0, |MessagesFrom(events, from)|))
  }

  /** It happens, and a `close()` after the disconnect does not prevent it. */
  lemma LateCloseHappens()
    ensures LateClose([DoReceive], false, [Connect, Disconnect(None, None)], 1)
    ensures LateClose([DoReceive, DoClose(NORMAL_CLOSURE, None)], false, [Connect, Disconnect(None, None)], 1)
    ensures !LateClose([DoClose(NORMAL_CLOSURE, None), DoReceive], false, [Connect, Disconnect(None, None)], 1)
  {
  }
}
