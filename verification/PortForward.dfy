/** One forwarded connection: logging in to the peer while the local side may already
    talk, then passing bytes both ways (`connect_and_login` and `run_forward` in
    src/port_forward.rs). */
module PortForward {
  import opened Common

  /** What goes to the peer: protocol messages first, raw bytes after the switch. */
  datatype Item = Packet(message: Bytes) | Raw(data: Bytes)

  /** `Flushing` is the moment between the login and the first send of what was buffered. */
  datatype Phase = LoggingIn | Flushing | Forwarding | Closed

  /** `buffer` holds local bytes not sent yet; `read` everything read locally, `wire`
      everything sent to the peer; `heard` and `delivered` are the raw bytes from the peer
      and what of them was passed on; `lost` counts failed sends of something. */
  datatype Conn = Conn(phase: Phase, buffer: Bytes, read: Bytes, wire: seq<Item>,
                       heard: Bytes, delivered: Bytes, lost: nat, lostBack: nat)

  function Start(): Conn {
    Conn(LoggingIn, [], [], [], [], [], 0, 0)
  }

  datatype Event =
    /** A message of the peer during login that is answered by `replies` (a hash, a delay
        test, a login error worth retrying, anything else). */
    | PeerMessage(replies: seq<Bytes>)
    /** A login error that ends the attempt. */
    | PeerRefusal
    | PeerInfo
    /** The user logs in or sends a message. */
    | UiMessage(messages: seq<Bytes>)
    | LocalBytes(data: Bytes)
    /** The send of the buffered bytes finishes. */
    | SendDone(ok: bool)
    | PeerBytes(data: Bytes, ok: bool)
    /** Either side closes, fails or times out. */
    | Ended

  predicate Enabled(c: Conn, e: Event) {
    match e
    case PeerMessage(_) => c.phase == LoggingIn
    case PeerRefusal => c.phase == LoggingIn
    case PeerInfo => c.phase == LoggingIn
    case UiMessage(_) => c.phase == LoggingIn
    case LocalBytes(_) => c.phase == LoggingIn || c.phase == Forwarding
    case SendDone(_) => c.phase == Flushing
    case PeerBytes(_, _) => c.phase == Forwarding
    case Ended => c.phase == LoggingIn || c.phase == Forwarding
  }

  function Packets(messages: seq<Bytes>): seq<Item> {
    seq(|messages|, i requires 0 <= i < |messages| => Packet(messages[i]))
  }

  function Next(c: Conn, e: Event): Conn
    requires Enabled(c, e)
  {
    match e
    case PeerMessage(replies) => c.(wire := c.wire + Packets(replies))
    case PeerRefusal => c.(phase := Closed)
    case PeerInfo => c.(phase := if c.buffer == [] then Forwarding else Flushing)
    case UiMessage(messages) => c.(wire := c.wire + Packets(messages))
    case LocalBytes(data) =>
      if c.phase == LoggingIn then c.(buffer := c.buffer + data, read := c.read + data)
      else c.(phase := Flushing, buffer := data, read := c.read + data)
    case SendDone(ok) =>
      c.(phase := Forwarding, buffer := [], wire := if ok then c.wire + [Raw(c.buffer)] else c.wire,
         lost := if ok || c.buffer == [] then c.lost else c.lost + 1)
    case PeerBytes(data, ok) =>
      c.(heard := c.heard + data, delivered := if ok then c.delivered + data else c.delivered,
         lostBack := if ok || data == [] then c.lostBack else c.lostBack + 1)
    case Ended => c.(phase := Closed)
  }

  // ----- what the peer receives -----

  /** The raw bytes of what was sent, in order. */
  function RawBytes(wire: seq<Item>): Bytes {
    if wire == [] then []
    else RawBytes(wire[..|wire| - 1]) +
         match wire[|wire| - 1] { case Packet(_) => [] case Raw(data) => data }
  }

  lemma {:induction false} RawBytesPackets(wire: seq<Item>, messages: seq<Bytes>)
    ensures RawBytes(wire + Packets(messages)) == RawBytes(wire)
  {
    if messages == [] {
      assert wire + Packets(messages) == wire;
    } else {
      var last := |messages| - 1;
      var all := wire + Packets(messages);
      assert all[..|all| - 1] == wire + Packets(messages[..last]);
      RawBytesPackets(wire, messages[..last]);
    }
  }

  lemma RawBytesRaw(wire: seq<Item>, data: Bytes)
    ensures RawBytes(wire + [Raw(data)]) == RawBytes(wire) + data
  {
    assert (wire + [Raw(data)])[..|wire|] == wire;
  }

  /** No message follows raw bytes. */
  ghost predicate MessagesFirst(wire: seq<Item>) {
    forall i, j :: 0 <= i < j < |wire| && wire[i].Raw? ==> wire[j].Raw?
  }

  ghost predicate NoRaw(wire: seq<Item>) {
    forall i :: 0 <= i < |wire| ==> wire[i].Packet?
  }

  ghost predicate Inv(c: Conn) {
    && MessagesFirst(c.wire)
    && (c.phase == LoggingIn ==> NoRaw(c.wire) && c.buffer == c.read && c.lost == 0)
    && (c.phase == Forwarding ==> c.buffer == [])
    && (c.lost == 0 ==> RawBytes(c.wire) + c.buffer == c.read)
    && (c.lost > 0 ==> |RawBytes(c.wire)| + |c.buffer| < |c.read|)
    && (c.lostBack == 0 ==> c.delivered == c.heard)
    && (c.lostBack > 0 ==> |c.delivered| < |c.heard|)
  }

  lemma NoRawBytes(wire: seq<Item>)
    requires NoRaw(wire)
    ensures RawBytes(wire) == []
  {
    if wire != [] {
      NoRawBytes(wire[..|wire| - 1]);
    }
  }

  lemma MessagesThenRaw(wire: seq<Item>, data: Bytes)
    requires MessagesFirst(wire)
    ensures MessagesFirst(wire + [Raw(data)])
  {}

  lemma SendKeepsInv(c: Conn, ok: bool)
    requires Inv(c) && c.phase == Flushing
    ensures Inv(Next(c, SendDone(ok)))
  {
    var raw := RawBytes(c.wire);
    if ok {
      RawBytesRaw(c.wire, c.buffer);
      MessagesThenRaw(c.wire, c.buffer);
      assert (raw + c.buffer) + [] == raw + c.buffer;
    } else {
      assert raw + [] == raw;
    }
  }

  lemma LocalKeepsInv(c: Conn, data: Bytes)
    requires Inv(c) && Enabled(c, LocalBytes(data))
    ensures Inv(Next(c, LocalBytes(data)))
  {
    var raw := RawBytes(c.wire);
    if c.phase == LoggingIn {
      NoRawBytes(c.wire);
      assert [] + (c.buffer + data) == c.read + data;
    } else {
      assert raw + [] == raw;
    }
  }

  lemma NextInv(c: Conn, e: Event)
    requires Inv(c) && Enabled(c, e)
    ensures Inv(Next(c, e))
  {
    match e {
      case PeerMessage(replies) => RawBytesPackets(c.wire, replies);
      case UiMessage(messages) => RawBytesPackets(c.wire, messages);
      case LocalBytes(data) => LocalKeepsInv(c, data);
      case SendDone(ok) => SendKeepsInv(c, ok);
      case _ =>
    }
  }

  ghost predicate IsRun(events: seq<Event>, c: Conn) {
    if events == [] then c == Start()
    else
      var last := |events| - 1;
      exists c0 :: IsRun(events[..last], c0) && Enabled(c0, events[last]) && c == Next(c0, events[last])
  }

  lemma {:induction false} RunInv(events: seq<Event>, c: Conn)
    requires IsRun(events, c)
    ensures Inv(c)
  {
    if events != [] {
      var last := |events| - 1;
      var c0 :| IsRun(events[..last], c0) && Enabled(c0, events[last]) && c == Next(c0, events[last]);
      RunInv(events[..last], c0);
      NextInv(c0, events[last]);
    }
  }

  /** Every run: what the peer has received raw is a prefix of what was read locally, and
      all of it between two turns of the forwarding loop, if and only if no send of
      anything failed. */
  lemma OrderIsPreserved(events: seq<Event>, c: Conn)
    requires IsRun(events, c)
    ensures c.lost == 0 <==> RawBytes(c.wire) + c.buffer == c.read
    ensures c.lost == 0 ==> RawBytes(c.wire) <= c.read
    ensures c.phase == Forwarding ==> (c.lost == 0 <==> RawBytes(c.wire) == c.read)
    ensures c.lostBack == 0 <==> c.delivered == c.heard
    ensures MessagesFirst(c.wire)
  {
    RunInv(events, c);
    assert RawBytes(c.wire) + [] == RawBytes(c.wire);
  }

  // ----- what a run sends, reads and ends in, by its events -----

  ghost function MessagesOf(e: Event): seq<Bytes> {
    if e.PeerMessage? then e.replies else if e.UiMessage? then e.messages else []
  }

  /** All replies to the peer and messages of the user, in order. */
  ghost function AllMessages(events: seq<Event>): seq<Bytes> {
    if events == [] then [] else AllMessages(events[..|events| - 1]) + MessagesOf(events[|events| - 1])
  }

  ghost function AllLocal(events: seq<Event>): Bytes {
    if events == [] then []
    else AllLocal(events[..|events| - 1]) + var e := events[|events| - 1]; if e.LocalBytes? then e.data else []
  }

  ghost function AllFromPeer(events: seq<Event>): Bytes {
    if events == [] then []
    else AllFromPeer(events[..|events| - 1]) + var e := events[|events| - 1]; if e.PeerBytes? then e.data else []
  }

  /** The messages of what was sent, in order. */
  ghost function MessagesSent(wire: seq<Item>): seq<Bytes> {
    if wire == [] then []
    else
      MessagesSent(wire[..|wire| - 1]) +
      match wire[|wire| - 1] { case Packet(message) => [message] case Raw(_) => [] }
  }

  lemma {:induction false} MessagesSentPackets(wire: seq<Item>, messages: seq<Bytes>)
    ensures MessagesSent(wire + Packets(messages)) == MessagesSent(wire) + messages
  {
    if messages == [] {
      assert wire + Packets(messages) == wire;
    } else {
      var last := |messages| - 1;
      var all := wire + Packets(messages);
      assert all[..|all| - 1] == wire + Packets(messages[..last]);
      MessagesSentPackets(wire, messages[..last]);
      assert messages[..last] + [messages[last]] == messages;
    }
  }

  lemma MessagesSentRaw(wire: seq<Item>, data: Bytes)
    ensures MessagesSent(wire + [Raw(data)]) == MessagesSent(wire)
  {
    assert (wire + [Raw(data)])[..|wire|] == wire;
    assert MessagesSent(wire) + [] == MessagesSent(wire);
  }

  ghost predicate Closes(e: Event) {
    e.PeerRefusal? || e.Ended?
  }

  ghost predicate SomeCloses(events: seq<Event>) {
    exists i :: 0 <= i < |events| && Closes(events[i])
  }

  ghost predicate SomeConfirms(events: seq<Event>) {
    exists i :: 0 <= i < |events| && events[i].PeerInfo?
  }

  ghost predicate BytesAccounted(events: seq<Event>, c: Conn) {
    MessagesSent(c.wire) == AllMessages(events) && c.read == AllLocal(events) && c.heard == AllFromPeer(events)
  }

  ghost predicate PhaseAccounted(events: seq<Event>, c: Conn) {
    && (c.phase == LoggingIn <==> !SomeConfirms(events) && !SomeCloses(events))
    && (c.phase == Closed <==> SomeCloses(events))
  }

  lemma OneMore(events: seq<Event>, e: Event)
    ensures AllMessages(events + [e]) == AllMessages(events) + MessagesOf(e)
    ensures AllLocal(events + [e]) == AllLocal(events) + if e.LocalBytes? then e.data else []
    ensures AllFromPeer(events + [e]) == AllFromPeer(events) + if e.PeerBytes? then e.data else []
  {
    assert (events + [e])[..|events|] == events;
  }

  lemma OneMoreEvent(events: seq<Event>, e: Event)
    ensures SomeCloses(events + [e]) <==> SomeCloses(events) || Closes(e)
    ensures SomeConfirms(events + [e]) <==> SomeConfirms(events) || e.PeerInfo?
  {
    var longer := events + [e];
    assert longer[|events|] == e;
    if i :| 0 <= i < |events| && Closes(events[i]) {
      assert Closes(longer[i]);
    }
    if i :| 0 <= i < |events| && events[i].PeerInfo? {
      assert longer[i].PeerInfo?;
    }
  }

  lemma SentAccounted(c: Conn, e: Event)
    requires Enabled(c, e)
    ensures MessagesSent(Next(c, e).wire) == MessagesSent(c.wire) + MessagesOf(e)
  {
    match e {
      case PeerMessage(replies) => MessagesSentPackets(c.wire, replies);
      case UiMessage(messages) => MessagesSentPackets(c.wire, messages);
      case SendDone(ok) => MessagesSentRaw(c.wire, c.buffer);
      case _ =>
    }
    assert MessagesSent(c.wire) + [] == MessagesSent(c.wire);
  }

  lemma ReadAccounted(c: Conn, e: Event)
    requires Enabled(c, e)
    ensures Next(c, e).read == c.read + if e.LocalBytes? then e.data else []
    ensures Next(c, e).heard == c.heard + if e.PeerBytes? then e.data else []
  {
    assert c.read + [] == c.read && c.heard + [] == c.heard;
  }

  lemma PhaseStep(c: Conn, e: Event)
    requires Enabled(c, e)
    ensures Next(c, e).phase == Closed <==> c.phase == Closed || Closes(e)
    ensures Next(c, e).phase == LoggingIn <==> c.phase == LoggingIn && !Closes(e) && !e.PeerInfo?
  {}

  /** Every run: the peer has been sent exactly the replies and the user's messages, in order;
      everything read and heard is counted; and the connection is closed exactly when it was
      refused or ended, and logging in exactly until then or the confirmation. */
  lemma {:induction false} RunIsAccounted(events: seq<Event>, c: Conn)
    requires IsRun(events, c)
    ensures BytesAccounted(events, c) && PhaseAccounted(events, c)
  {
    if events != [] {
      var last := |events| - 1;
      var c0 :| IsRun(events[..last], c0) && Enabled(c0, events[last]) && c == Next(c0, events[last]);
      RunIsAccounted(events[..last], c0);
      assert events == events[..last] + [events[last]];
      OneMore(events[..last], events[last]);
      OneMoreEvent(events[..last], events[last]);
      SentAccounted(c0, events[last]);
      ReadAccounted(c0, events[last]);
      PhaseStep(c0, events[last]);
    }
  }

  /** When the peer confirms the login, forwarding starts at once if nothing was read yet; else
      what was read, all of it, is sent first. */
  lemma LoginIsConfirmed(events: seq<Event>, c: Conn)
    requires IsRun(events, c) && c.phase == LoggingIn
    ensures var c' := Next(c, PeerInfo);
            && (AllLocal(events) == [] ==> c'.phase == Forwarding)
            && (AllLocal(events) != [] ==> c'.phase == Flushing && c'.buffer == AllLocal(events))
            && c'.wire == c.wire
  {
    RunInv(events, c);
    RunIsAccounted(events, c);
  }

  /** No run sends a local byte before the peer has confirmed the login. */
  lemma {:induction false} NothingBeforeLogin(events: seq<Event>, c: Conn)
    requires IsRun(events, c)
    requires forall i :: 0 <= i < |events| ==> !events[i].PeerInfo?
    ensures (c.phase == LoggingIn || c.phase == Closed) && NoRaw(c.wire) && RawBytes(c.wire) == []
  {
    if events != [] {
      var last := |events| - 1;
      var c0 :| IsRun(events[..last], c0) && Enabled(c0, events[last]) && c == Next(c0, events[last]);
      NothingBeforeLogin(events[..last], c0);
    }
    NoRawBytes(c.wire);
  }

  lemma RunStep(events: seq<Event>, c: Conn, e: Event)
    requires IsRun(events, c) && Enabled(c, e)
    ensures IsRun(events + [e], Next(c, e))
  {
    assert (events + [e])[..|events|] == events;
  }

  // ----- the two loops -----

  /** What the login loop can receive. */
  predicate IsLoginEvent(e: Event) {
    e.PeerMessage? || e.PeerRefusal? || e.PeerInfo? || e.UiMessage? || e.LocalBytes? || e.Ended?
  }

  /** The login loop over what it receives, and the flush after it.  `trace` is the run it
      performs: the events it takes, then the flush if there is something buffered. */
  method ConnectAndLogin(events: seq<Event>, flushOk: bool) returns (c: Conn, ghost trace: seq<Event>)
    requires forall i :: 0 <= i < |events| ==> IsLoginEvent(events[i])
    ensures IsRun(trace, c)
    ensures trace <= events
         || (|trace| > 0 && trace[..|trace| - 1] <= events && trace[|trace| - 1] == SendDone(flushOk))
    ensures c.phase == LoggingIn ==> trace == events
    ensures c.phase != Flushing
  {
    var buffer: Bytes := [];
    var wire: seq<Item> := [];
    ghost var read: Bytes := [];
    trace := [];
    for i := 0 to |events|
      invariant IsRun(trace, Conn(LoggingIn, buffer, read, wire, [], [], 0, 0))
      invariant trace == events[..i]
    {
      ghost var now := Conn(LoggingIn, buffer, read, wire, [], [], 0, 0);
      var e := events[i];
      RunStep(trace, now, e);
      trace := trace + [e];
      assert trace == events[..i + 1];
      if e.PeerMessage? {
        wire := wire + Packets(e.replies);
      } else if e.UiMessage? {
        wire := wire + Packets(e.messages);
      } else if e.LocalBytes? {
        buffer := buffer + e.data;
        read := read + e.data;
      } else if e.PeerInfo? {
        RunInv(events[..i], now);
        if buffer == [] {
          return Conn(Forwarding, [], buffer, wire, [], [], 0, 0), trace;
        }
        RunStep(trace, Next(now, e), SendDone(flushOk));
        trace := trace + [SendDone(flushOk)];
        c := Conn(Forwarding, [], buffer, if flushOk then wire + [Raw(buffer)] else wire,
                  [], [], if flushOk then 0 else 1, 0);
        return;
      } else {
        RunInv(events[..i], now);
        return Conn(Closed, buffer, buffer, wire, [], [], 0, 0), trace;
      }
    }
    RunInv(trace, Conn(LoggingIn, buffer, read, wire, [], [], 0, 0));
    assert events[..|events|] == events;
    c := Conn(LoggingIn, buffer, buffer, wire, [], [], 0, 0);
  }

  /** One arrival in the forwarding loop, with whether passing it on succeeds. */
  datatype Arrival = FromLocal(data: Bytes, ok: bool) | FromPeer(data: Bytes, ok: bool) | End

  /** A turn of the loop that forwards local bytes, as two events of the run. */
  lemma ForwardLocal(trace: seq<Event>, now: Conn, data: Bytes, ok: bool)
    requires IsRun(trace, now) && now.phase == Forwarding && now.buffer == []
    ensures IsRun(trace + [LocalBytes(data)] + [SendDone(ok)],
                  now.(read := now.read + data, wire := if ok then now.wire + [Raw(data)] else now.wire,
                       lost := if ok || data == [] then now.lost else now.lost + 1))
  {
    RunStep(trace, now, LocalBytes(data));
    RunStep(trace + [LocalBytes(data)], Next(now, LocalBytes(data)), SendDone(ok));
  }

  /** The forwarding loop: continues a run that has logged in. */
  method RunForward(start: Conn, ghost before: seq<Event>, arrivals: seq<Arrival>)
    returns (c: Conn, ghost trace: seq<Event>)
    requires IsRun(before, start) && start.phase == Forwarding
    ensures IsRun(trace, c) && before <= trace
    ensures c.phase == Forwarding || c.phase == Closed
    ensures start.lost == 0 && (forall i :: 0 <= i < |arrivals| && arrivals[i].FromLocal? ==> arrivals[i].ok)
            ==> RawBytes(c.wire) == c.read
  {
    var wire, delivered := start.wire, start.delivered;
    var read, heard, lost, lostBack := start.read, start.heard, start.lost, start.lostBack;
    trace := before;
    RunInv(before, start);
    for i := 0 to |arrivals|
      invariant IsRun(trace, Conn(Forwarding, [], read, wire, heard, delivered, lost, lostBack)) && before <= trace
      invariant start.lost == 0 && (forall j :: 0 <= j < i && arrivals[j].FromLocal? ==> arrivals[j].ok) ==> lost == 0
    {
      ghost var now := Conn(Forwarding, [], read, wire, heard, delivered, lost, lostBack);
      match arrivals[i] {
        case FromLocal(data, ok) =>
          ForwardLocal(trace, now, data, ok);
          trace := trace + [LocalBytes(data)] + [SendDone(ok)];
          read := read + data;
          if ok {
            wire := wire + [Raw(data)];
          } else {
            lost := if data == [] then lost else lost + 1;
          }
        case FromPeer(data, ok) =>
          RunStep(trace, now, PeerBytes(data, ok));
          trace := trace + [PeerBytes(data, ok)];
          heard := heard + data;
          if ok {
            delivered := delivered + data;
          } else {
            lostBack := if data == [] then lostBack else lostBack + 1;
          }
        case End =>
          OrderIsPreserved(trace, now);
          RunStep(trace, now, Ended);
          trace := trace + [Ended];
          c := Conn(Closed, [], read, wire, heard, delivered, lost, lostBack);
          return;
      }
    }
    c := Conn(Forwarding, [], read, wire, heard, delivered, lost, lostBack);
    OrderIsPreserved(trace, c);
  }
}
