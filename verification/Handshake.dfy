/** The handshake state machine of `src/mmedia/rtmp/RtmpHandshake.cpp` on a `TcpConnection`, driven by
    bytes arriving and by the write-complete callback, wired as `src/mmedia/tests/RtmpServer.cpp`
    wires it. The callback may run inside a send, so sending and completing call each other. */
module Handshakes {
  import opened Bytes
  import opened SendQueue
  import opened Digests

  datatype HsState =
    | Init
    | PostC0C1 | WaitS0S1 | PostC2 | WaitS2 | Doing       // client
    | WaitC0C1 | PostS0S1 | PostS2 | WaitC2               // server
    | Done

  type Time = t: nat | t < 0x1_0000_0000

  /** What a run takes from outside: the MAC, the two random fills, and the clock. */
  datatype World = World(hmac: Hmac, helloFill: Hello, echoFill: Packet, time: Time)

  datatype Handshake = Handshake(isClient: bool, isComplex: bool, digest: Digest, c1s1: Hello, c2s2: Packet,
                                 state: HsState)

  /** A connection, its message buffer and its handshake; `received` is every byte that came in, and
      `consumed` how many of them the handshake has retrieved. */
  datatype Session = Session(conn: Conn, input: seq<Byte>, hs: Handshake, received: seq<Byte>, consumed: nat)

  function NewSession(kernel: seq<Reply>, isClient: bool): Session {
    Session(Accepted(kernel), [],
            Handshake(isClient, true, Zeros(DIGEST_LENGTH), Zeros(HELLO_SIZE), Zeros(PACKET_SIZE), Init), [], 0)
  }

  /** How many more sends the write-complete callback can make from this state. */
  function Rank(st: HsState): nat {
    match st
    case PostS0S1 => 2
    case PostS2 => 1
    case _ => 0
  }

  /** `conn->send`, with the write-complete callback run at its end when it is due. */
  function Send(s: Session, buf: seq<Byte>): Session
    decreases Rank(s.hs.state), 1
  {
    var r := SendBuffer(s.conn, buf);
    if r.complete then WriteComplete(s.(conn := r.conn)) else s.(conn := r.conn)
  }

  function WriteComplete(s: Session): Session
    decreases Rank(s.hs.state), 0
  {
    match s.hs.state
    case PostS0S1 => Send(s.(hs := s.hs.(state := PostS2)), s.hs.c2s2)
    case PostS2 => s.(hs := s.hs.(state := WaitC2))
    case PostC0C1 => s.(hs := s.hs.(state := WaitS0S1))
    case PostC2 => s.(hs := s.hs.(state := Done))
    case Doing => s.(hs := s.hs.(state := Done))
    case _ => s
  }

  function Start(w: World, s: Session): Session {
    var g := CreateC1S1(w.hmac, s.hs.isClient, s.hs.isComplex, w.helloFill, s.hs.digest);
    var hs := s.hs.(c1s1 := g.bytes, digest := g.digest);
    if hs.isClient then Send(s.(hs := hs.(state := WaitS0S1)), hs.c1s1)
    else s.(hs := hs.(state := WaitC0C1))
  }

  function Retrieve(s: Session, n: nat): Session
    requires n <= |s.input|
  {
    s.(input := s.input[n..], consumed := s.consumed + n)
  }

  /** The part of `handshake` that C0C1 and S0S1 share: check, create the answer, consume. */
  function Greet(w: World, s: Session): (r: Option<Session>)
    requires |s.input| >= HELLO_SIZE
  {
    var data := s.input[..HELLO_SIZE];
    var check := CheckC1S1(w.hmac, s.hs.isClient, s.hs.isComplex, data);
    if check.offset < 0 then None
    else
      var echo := CreateC2S2(w.hmac, s.hs.isClient, check.isComplex, s.hs.digest, data[1..], w.echoFill, w.time);
      Some(Retrieve(s.(hs := s.hs.(isComplex := check.isComplex, c2s2 := echo)), HELLO_SIZE))
  }

  datatype Answer = Answer(session: Session, ret: int)

  /** `handshake(buf)`: 1 asks for more bytes, -1 refuses, 2 is the client's early success. */
  function OnHandshake(w: World, s: Session): Answer {
    match s.hs.state
    case WaitC0C1 =>
      if |s.input| < HELLO_SIZE then Answer(s, 1)
      else (match Greet(w, s)
        case None => Answer(s, -1)
        case Some(s') => Answer(Send(s'.(hs := s'.hs.(state := PostS0S1)), s'.hs.c1s1), 0))
    case WaitC2 =>
      if |s.input| < PACKET_SIZE then Answer(s, 1)
      else Answer(Retrieve(s.(hs := s.hs.(state := Done)), PACKET_SIZE), 0)
    case WaitS0S1 =>
      if |s.input| < HELLO_SIZE then Answer(s, 1)
      else (match Greet(w, s)
        case None => Answer(s, -1)
        case Some(s') =>
          if |s'.input| >= PACKET_SIZE then Answer(Send(s'.(hs := s'.hs.(state := Doing)), s'.hs.c2s2), 2)
          else
            var s'' := Send(s'.(hs := s'.hs.(state := PostC2)), s'.hs.c2s2);
            Answer(Send(s''.(hs := s''.hs.(state := PostS0S1)), s''.hs.c1s1), 0))
    case _ => Answer(s, 0)
  }

  /** The server's message callback: anything but 0 or 1 closes the connection. */
  function OnMessage(w: World, s: Session): Session {
    var a := OnHandshake(w, s);
    if a.ret == 0 || a.ret == 1 then a.session else a.session.(conn := OnClose(a.session.conn))
  }

  datatype NetEvent =
    | Recv(chunk: seq<Byte>)  // one readFd; no bytes means the peer closed
    | Drained                 // the descriptor is writable: onWrite
    | Hangup                  // onClose for any other reason

  function NetStep(w: World, s: Session, e: NetEvent): Session {
    match e
    case Recv(chunk) =>
      if s.conn.closed then s
      else if chunk == [] then s.(conn := OnClose(s.conn))
      else OnMessage(w, s.(input := s.input + chunk, received := s.received + chunk))
    case Drained =>
      var r := OnWrite(s.conn);
      if r.complete then WriteComplete(s.(conn := r.conn)) else s.(conn := r.conn)
    case Hangup => s.(conn := OnClose(s.conn))
  }

  function NetRun(w: World, s: Session, es: seq<NetEvent>): Session
    decreases |es|
  {
    if es == [] then s else NetRun(w, NetStep(w, s, es[0]), es[1..])
  }

  /** What ends a read loop. */
  datatype Ending = WouldBlock | PeerClosed | ReadError

  /** The events of one read loop: what each read gave, and why it stopped. */
  function Reads(chunks: seq<seq<Byte>>, ending: Ending): seq<NetEvent> {
    seq(|chunks|, i requires 0 <= i < |chunks| => Recv(chunks[i]))
    + match ending case WouldBlock => [] case PeerClosed => [Recv([])] case ReadError => [Hangup]
  }

  function Server(w: World, kernel: seq<Reply>): Session { Start(w, NewSession(kernel, false)) }
}

/** Safety and determinism of the server's side over whole runs. */
module HandshakeRuns {
  import opened Bytes
  import opened SendQueue
  import opened Digests
  import opened Handshakes

  /** S0 and S1. */
  function Greets(w: World): Greeting {
    CreateC1S1(w.hmac, false, true, w.helloFill, Zeros(DIGEST_LENGTH))
  }

  function CheckOf(w: World, received: seq<Byte>): Check
    requires |received| >= HELLO_SIZE
  {
    CheckC1S1(w.hmac, false, true, received[..HELLO_SIZE])
  }

  /** The client's first message has arrived and is one the server accepts. */
  predicate Greeted(w: World, received: seq<Byte>) {
    |received| >= HELLO_SIZE && CheckOf(w, received).offset >= 0
  }

  /** S2, as the first message determines it. */
  function EchoTo(w: World, received: seq<Byte>): Packet
    requires |received| >= HELLO_SIZE
  {
    CreateC2S2(w.hmac, false, CheckOf(w, received).isComplex, Greets(w).digest,
               received[..HELLO_SIZE][1..], w.echoFill, w.time)
  }

  /** What the server should send, given what it has received. */
  function Expected(w: World, received: seq<Byte>): seq<Byte> {
    if Greeted(w, received) then Greets(w).bytes + EchoTo(w, received) else []
  }

  /** The handshake fields after the first message, but for the state. */
  predicate Answering(w: World, s: Session) {
    && Greeted(w, s.received)
    && s.hs == Handshake(false, CheckOf(w, s.received).isComplex, Greets(w).digest, Greets(w).bytes,
                         EchoTo(w, s.received), s.hs.state)
  }

  predicate StateInv(w: World, s: Session) {
    match s.hs.state
    case WaitC0C1 =>
      && s.conn.submitted == [] && s.conn.queue == [] && s.consumed == 0
      && s.hs == Start(w, NewSession([], false)).hs
      && (!s.conn.closed ==> |s.received| < HELLO_SIZE)
    case PostS0S1 =>
      && Answering(w, s) && s.consumed == HELLO_SIZE
      && s.conn.queue != [] && s.conn.submitted == Greets(w).bytes
    case PostS2 =>
      && Answering(w, s) && s.consumed == HELLO_SIZE
      && s.conn.queue != [] && s.conn.submitted == Expected(w, s.received)
    case WaitC2 =>
      && Answering(w, s) && s.consumed == HELLO_SIZE
      && s.conn.queue == [] && s.conn.submitted == Expected(w, s.received)
    case Done =>
      && Answering(w, s) && s.consumed == HELLO_SIZE + PACKET_SIZE
      && s.conn.queue == [] && s.conn.submitted == Expected(w, s.received)
    case _ => false
  }

  ghost predicate ServerInv(w: World, s: Session) {
    && Inv(s.conn) && (s.conn.closed || s.conn.registered)
    && s.consumed <= |s.received| && s.input == s.received[s.consumed..]
    && StateInv(w, s)
  }

  /** The first message fixes everything that depends on it. */
  lemma GreetingIsFixed(w: World, a: seq<Byte>, b: seq<Byte>)
    requires |a| >= HELLO_SIZE
    ensures Greeted(w, a + b) == Greeted(w, a) && EchoTo(w, a + b) == EchoTo(w, a)
    ensures CheckOf(w, a + b) == CheckOf(w, a) && Expected(w, a + b) == Expected(w, a)
  {
    assert (a + b)[..HELLO_SIZE] == a[..HELLO_SIZE];
  }

  lemma StartInv(w: World, kernel: seq<Reply>)
    ensures ServerInv(w, Server(w, kernel))
  {
  }

  /** Once S0S1 is out, S2 follows, at once or when the queue drains. */
  lemma S0S1Sent(w: World, s: Session)
    requires Inv(s.conn) && !s.conn.closed && s.conn.registered && s.conn.queue == []
    requires s.consumed <= |s.received| && s.input == s.received[s.consumed..] && s.consumed == HELLO_SIZE
    requires s.hs.state == PostS0S1 && Answering(w, s) && s.conn.submitted == Greets(w).bytes
    ensures ServerInv(w, WriteComplete(s))
    ensures var t := WriteComplete(s);
            !t.conn.closed && t.received == s.received && t.input == s.input && t.consumed == s.consumed
  {
    var s2 := s.(hs := s.hs.(state := PostS2));
    assert WriteComplete(s) == Send(s2, s2.hs.c2s2);
    hide Inv, CheckC1S1, CreateC1S1, CreateC2S2, SendBuffer;
    SendBufferInv(s2.conn, s2.hs.c2s2);
    var r := SendBuffer(s2.conn, s2.hs.c2s2);
    assert r.conn.submitted == Expected(w, s.received);
    var s3 := s2.(conn := r.conn);
    assert Send(s2, s2.hs.c2s2) == if r.complete then s3.(hs := s3.hs.(state := WaitC2)) else s3;
  }

  lemma SendS0S1(w: World, s: Session)
    requires Inv(s.conn) && !s.conn.closed && s.conn.registered && s.conn.queue == [] && s.conn.submitted == []
    requires s.consumed <= |s.received| && s.input == s.received[s.consumed..] && s.consumed == HELLO_SIZE
    requires s.hs.state == PostS0S1 && Answering(w, s)
    ensures ServerInv(w, Send(s, s.hs.c1s1))
    ensures var t := Send(s, s.hs.c1s1);
            !t.conn.closed && t.received == s.received && t.input == s.input && t.consumed == s.consumed
  {
    hide Inv, CheckC1S1, CreateC1S1, CreateC2S2, SendBuffer, WriteComplete;
    SendBufferInv(s.conn, s.hs.c1s1);
    var r := SendBuffer(s.conn, s.hs.c1s1);
    assert [] + s.hs.c1s1 == s.hs.c1s1;
    if r.complete { S0S1Sent(w, s.(conn := r.conn)); }
  }

  lemma MessageInv(w: World, s: Session)
    requires Inv(s.conn) && !s.conn.closed && s.conn.registered
    requires s.consumed <= |s.received| && s.input == s.received[s.consumed..]
    requires StateInv(w, s) || (s.hs.state == WaitC0C1 && StateInv(w, s.(received := [])))
    ensures ServerInv(w, OnMessage(w, s))
    ensures OnMessage(w, s).received == s.received
  {
    hide Inv, CheckC1S1, CreateC1S1, CreateC2S2, Send, WriteComplete;
    if s.hs.state == WaitC0C1 && |s.input| >= HELLO_SIZE {
      assert s.input == s.received;
      match Greet(w, s) {
        case None => CloseInv(s.conn);
        case Some(s') => SendS0S1(w, s'.(hs := s'.hs.(state := PostS0S1)));
      }
    }
  }

  lemma CloseInv(c: Conn)
    requires Inv(c)
    ensures Inv(OnClose(c))
  {
  }

  lemma NetStepInv(w: World, s: Session, e: NetEvent)
    requires ServerInv(w, s)
    ensures ServerInv(w, NetStep(w, s, e))
    ensures NetStep(w, s, e).received == if e.Recv? && !s.conn.closed then s.received + e.chunk else s.received
  {
    hide Inv, CheckC1S1, CreateC1S1, CreateC2S2, OnMessage, OnWrite, Send;
    match e {
      case Recv(chunk) =>
        if !s.conn.closed {
          if chunk == [] {
            CloseInv(s.conn);
            assert s.received + chunk == s.received;
          } else {
            var t := s.(input := s.input + chunk, received := s.received + chunk);
            assert t.input == t.received[t.consumed..];
            if |s.received| >= HELLO_SIZE { GreetingIsFixed(w, s.received, chunk); }
            MessageInv(w, t);
          }
        }
      case Drained =>
        OnWriteInv(s.conn);
        var r := OnWrite(s.conn);
        if r.complete && s.hs.state == PostS0S1 { S0S1Sent(w, s.(conn := r.conn)); }
      case Hangup => CloseInv(s.conn);
    }
  }

  lemma {:induction false} NetRunInv(w: World, s: Session, es: seq<NetEvent>)
    requires ServerInv(w, s)
    ensures ServerInv(w, NetRun(w, s, es))
    decreases |es|
  {
    hide ServerInv, NetStep;
    if es != [] {
      NetStepInv(w, s, es[0]);
      NetRunInv(w, NetStep(w, s, es[0]), es[1..]);
    }
  }

  /** In every run, under any fragmentation of the input, any kernel replies and any mix of completions
      inside and after a send: the socket has taken a prefix of S0S1 ++ S2 and nothing before a valid
      first message; WaitC2 means it has taken all 3073 bytes, Done also that 3073 were consumed; and
      whole messages are consumed, the rest of the input staying as it came. */
  lemma ServerIsSafe(w: World, kernel: seq<Reply>, es: seq<NetEvent>)
    ensures var s := NetRun(w, Server(w, kernel), es);
            && s.conn.accepted <= Expected(w, s.received)
            && (s.conn.accepted != [] ==> Greeted(w, s.received))
            && (s.hs.state.WaitC2? || s.hs.state.Done? ==>
                  s.conn.accepted == Expected(w, s.received) && |s.conn.accepted| == 3073)
            && (s.hs.state.Done? ==> s.consumed == 3073)
            && s.consumed in {0, 1537, 3073} && s.consumed <= |s.received|
            && s.received[..s.consumed] + s.input == s.received
  {
    hide CheckC1S1, CreateC1S1, CreateC2S2;
    StartInv(w, kernel);
    NetRunInv(w, Server(w, kernel), es);
    var s := NetRun(w, Server(w, kernel), es);
    hide NetRun, Server;
    if s.hs.state.PostS0S1? {
      assert Greets(w).bytes <= Expected(w, s.received);
    }
    if s.conn.queue == [] { NonePending(s.conn.accepted); }
  }

  /** Synchronous, deferred and mixed completion, and any chunking: a server that is open with an empty
      queue has sent exactly what its input determines, and stands where its input determines, up to
      whether the second message was examined. */
  lemma DrainedServerIsDetermined(w: World, kernel: seq<Reply>, es: seq<NetEvent>)
    ensures var s := NetRun(w, Server(w, kernel), es);
            !s.conn.closed && s.conn.queue == [] ==>
              && s.conn.accepted == Expected(w, s.received)
              && (if Greeted(w, s.received) then s.hs.state.WaitC2? || s.hs.state.Done?
                  else s.hs.state.WaitC0C1? && |s.received| < HELLO_SIZE)
  {
    hide CheckC1S1, CreateC1S1, CreateC2S2;
    StartInv(w, kernel);
    NetRunInv(w, Server(w, kernel), es);
    var s := NetRun(w, Server(w, kernel), es);
    hide NetRun, Server;
    if s.conn.queue == [] { NonePending(s.conn.accepted); }
  }

  /** At some event of the run, in the state that it finds, this holds. */
  ghost predicate Ever(w: World, s: Session, es: seq<NetEvent>, p: (Session, NetEvent) -> bool) {
    exists i :: 0 <= i < |es| && p(NetRun(w, s, es[..i]), es[i])
  }

  lemma FirstOrLater(w: World, s: Session, es: seq<NetEvent>, p: (Session, NetEvent) -> bool)
    requires es != []
    ensures Ever(w, s, es, p) <==> p(s, es[0]) || Ever(w, NetStep(w, s, es[0]), es[1..], p)
  {
    hide NetStep;
    var s' := NetStep(w, s, es[0]);
    forall i | 0 < i < |es| ensures NetRun(w, s, es[..i]) == NetRun(w, s', es[1..][..i - 1]) {
      assert es[..i][1..] == es[1..][..i - 1];
    }
    if Ever(w, s, es, p) {
      var i :| 0 <= i < |es| && p(NetRun(w, s, es[..i]), es[i]);
      if i > 0 { assert p(NetRun(w, s', es[1..][..i - 1]), es[1..][i - 1]); }
    }
    if p(s, es[0]) { assert p(NetRun(w, s, es[..0]), es[0]); }
    if Ever(w, s', es[1..], p) {
      var i :| 0 <= i < |es[1..]| && p(NetRun(w, s', es[1..][..i]), es[1..][i]);
      assert p(NetRun(w, s, es[..i + 1]), es[i + 1]);
    }
  }

  lemma NeverInNothing(w: World, s: Session, p: (Session, NetEvent) -> bool)
    ensures !Ever(w, s, [], p)
  {
  }

  /** An open server that waits for C2 is given bytes that bring what it has received to 3073. */
  predicate Completes(s: Session, e: NetEvent) {
    && !s.conn.closed && s.hs.state.WaitC2?
    && e.Recv? && e.chunk != [] && |s.received| + |e.chunk| >= HELLO_SIZE + PACKET_SIZE
  }

  ghost predicate CompletedIn(w: World, s: Session, es: seq<NetEvent>) { Ever(w, s, es, Completes) }

  /** A run ends the handshake if and only if one of its message callbacks ran in WaitC2 with all 3073
      bytes received: having received them is not enough. */
  lemma {:induction false} DoneOverRun(w: World, s: Session, es: seq<NetEvent>)
    requires ServerInv(w, s)
    ensures NetRun(w, s, es).hs.state.Done? <==> s.hs.state.Done? || CompletedIn(w, s, es)
    decreases |es|
  {
    hide ServerInv, Completes, Ever, NetStep;
    if es != [] {
      NetStepInv(w, s, es[0]);
      FirstOrLater(w, s, es, Completes);
      DoneInStep(w, s, es[0]);
      DoneOverRun(w, NetStep(w, s, es[0]), es[1..]);
    } else {
      NeverInNothing(w, s, Completes);
    }
  }

  lemma DoneInStep(w: World, s: Session, e: NetEvent)
    requires ServerInv(w, s)
    ensures NetStep(w, s, e).hs.state.Done? <==> s.hs.state.Done? || Completes(s, e)
  {
    hide CheckC1S1, CreateC1S1, CreateC2S2, SendBuffer, OnWrite, Inv;
    NetStepInv(w, s, e);
    if e.Recv? && s.hs.state.WaitC0C1? && !s.conn.closed {
      var t := s.(input := s.input + e.chunk, received := s.received + e.chunk);
      if |t.input| >= HELLO_SIZE && Greet(w, t).Some? {
        var s1 := Greet(w, t).value;
        NeverDoneFromSend(s1.(hs := s1.hs.(state := PostS0S1)), s1.hs.c1s1);
      }
    } else if e.Drained? {
      NeverDoneFromComplete(s.(conn := OnWrite(s.conn).conn));
    }
  }

  lemma NeverDoneFromSend(s: Session, buf: seq<Byte>)
    requires s.hs.state.PostS0S1? || s.hs.state.PostS2?
    ensures !Send(s, buf).hs.state.Done?
    decreases Rank(s.hs.state), 1
  {
    if SendBuffer(s.conn, buf).complete { NeverDoneFromComplete(s.(conn := SendBuffer(s.conn, buf).conn)); }
  }

  lemma NeverDoneFromComplete(s: Session)
    requires s.hs.state in {WaitC0C1, PostS0S1, PostS2, WaitC2, Done}
    ensures WriteComplete(s).hs.state.Done? <==> s.hs.state.Done?
    decreases Rank(s.hs.state), 0
  {
    if s.hs.state.PostS0S1? { NeverDoneFromSend(s.(hs := s.hs.(state := PostS2)), s.hs.c2s2); }
  }

  // When a server is closed.

  lemma SendKeepsNoEmptyNode(s: Session, buf: seq<Byte>)
    requires NoEmptyNode(s.conn.queue)
    ensures NoEmptyNode(Send(s, buf).conn.queue)
    decreases Rank(s.hs.state), 1
  {
    var t := s.(conn := SendBuffer(s.conn, buf).conn);
    if SendBuffer(s.conn, buf).complete { CompleteKeepsNoEmptyNode(t); }
  }

  lemma CompleteKeepsNoEmptyNode(s: Session)
    requires NoEmptyNode(s.conn.queue)
    ensures NoEmptyNode(WriteComplete(s).conn.queue)
    decreases Rank(s.hs.state), 0
  {
    if s.hs.state.PostS0S1? { SendKeepsNoEmptyNode(s.(hs := s.hs.(state := PostS2)), s.hs.c2s2); }
  }

  lemma HandshakeKeepsNoEmptyNode(w: World, s: Session)
    requires NoEmptyNode(s.conn.queue)
    ensures NoEmptyNode(OnHandshake(w, s).session.conn.queue)
  {
    hide SendBuffer, CheckC1S1, CreateC1S1, CreateC2S2, Send, WriteComplete, NoEmptyNode;
    if |s.input| >= HELLO_SIZE && Greet(w, s).Some? {
      var s1 := Greet(w, s).value;
      var hs, echo := s1.hs, s1.hs.c2s2;
      SendKeepsNoEmptyNode(s1.(hs := hs.(state := PostS0S1)), hs.c1s1);
      SendKeepsNoEmptyNode(s1.(hs := hs.(state := Doing)), echo);
      var s2 := s1.(hs := hs.(state := PostC2));
      SendKeepsNoEmptyNode(s2, echo);
      var s3 := Send(s2, echo);
      SendKeepsNoEmptyNode(s3.(hs := s3.hs.(state := PostS0S1)), s3.hs.c1s1);
    }
  }

  lemma StepKeepsNoEmptyNode(w: World, s: Session, e: NetEvent)
    requires NoEmptyNode(s.conn.queue)
    ensures NoEmptyNode(NetStep(w, s, e).conn.queue)
  {
    hide OnHandshake, WriteComplete, Drain, NoEmptyNode;
    match e {
      case Recv(chunk) =>
        HandshakeKeepsNoEmptyNode(w, s.(input := s.input + chunk, received := s.received + chunk));
      case Drained =>
        DrainKeepsNoEmptyNode(s.conn);
        CompleteKeepsNoEmptyNode(s.(conn := OnWrite(s.conn).conn));
      case Hangup =>
    }
  }

  /** The connection is closed from elsewhere, the peer closes it, 1537 bytes are there that are no first
      message the server accepts, or the kernel fails a write of what is queued. */
  ghost predicate Breaks(w: World, s: Session, e: NetEvent) {
    match e
    case Recv(chunk) =>
      chunk == [] || (|s.received + chunk| >= HELLO_SIZE && !Greeted(w, s.received + chunk))
    case Drained => s.conn.queue != [] && Fails(s.conn.kernel, |Pending(s.conn.queue)|)
    case Hangup => true
  }

  ghost function Breaking(w: World): (Session, NetEvent) -> bool { (s, e) => Breaks(w, s, e) }

  /** What one event closes. A message in any other state, a fragment of a message, a write that would
      block and a drain that completes leave the server open. */
  lemma StepCloses(w: World, s: Session, e: NetEvent)
    requires ServerInv(w, s) && NoEmptyNode(s.conn.queue) && !s.conn.closed
    ensures NetStep(w, s, e).conn.closed <==> Breaks(w, s, e)
  {
    hide CheckC1S1, CreateC1S1, CreateC2S2, Inv, SendBuffer, Drain, Fails, NoEmptyNode, Pending;
    match e {
      case Recv(chunk) => if chunk != [] { MessageCloses(w, s, chunk); }
      case Drained =>
        if s.conn.queue != [] { DrainCloses(s.conn); }
        CompleteStaysOpen(s.(conn := OnWrite(s.conn).conn));
      case Hangup =>
    }
  }

  lemma MessageCloses(w: World, s: Session, chunk: seq<Byte>)
    requires ServerInv(w, s) && !s.conn.closed && chunk != []
    ensures NetStep(w, s, Recv(chunk)).conn.closed
            <==> |s.received + chunk| >= HELLO_SIZE && !Greeted(w, s.received + chunk)
  {
    hide CheckC1S1, CreateC1S1, CreateC2S2, Inv, Send, WriteComplete;
    var t := s.(input := s.input + chunk, received := s.received + chunk);
    if s.hs.state.WaitC0C1? {
      assert t.input == t.received;
      if |t.input| >= HELLO_SIZE && Greet(w, t).Some? {
        var s1 := Greet(w, t).value;
        SendStaysOpen(s1.(hs := s1.hs.(state := PostS0S1)), s1.hs.c1s1);
      }
    } else {
      GreetingIsFixed(w, s.received, chunk);
    }
  }

  lemma SendStaysOpen(s: Session, buf: seq<Byte>)
    ensures Send(s, buf).conn.closed == s.conn.closed
    decreases Rank(s.hs.state), 1
  {
    if SendBuffer(s.conn, buf).complete { CompleteStaysOpen(s.(conn := SendBuffer(s.conn, buf).conn)); }
  }

  lemma CompleteStaysOpen(s: Session)
    ensures WriteComplete(s).conn.closed == s.conn.closed
    decreases Rank(s.hs.state), 0
  {
    if s.hs.state.PostS0S1? { SendStaysOpen(s.(hs := s.hs.(state := PostS2)), s.hs.c2s2); }
  }

  lemma StaysClosed(w: World, s: Session, e: NetEvent)
    requires s.conn.closed
    ensures NetStep(w, s, e).conn.closed
  {
  }

  lemma {:induction false} ClosedFrom(w: World, s: Session, es: seq<NetEvent>)
    requires ServerInv(w, s) && NoEmptyNode(s.conn.queue)
    ensures NetRun(w, s, es).conn.closed <==> s.conn.closed || Ever(w, s, es, Breaking(w))
    decreases |es|
  {
    hide ServerInv, NoEmptyNode, Breaks, Ever, NetStep;
    if es == [] {
      NeverInNothing(w, s, Breaking(w));
    } else {
      NetStepInv(w, s, es[0]);
      StepKeepsNoEmptyNode(w, s, es[0]);
      FirstOrLater(w, s, es, Breaking(w));
      if s.conn.closed { StaysClosed(w, s, es[0]); } else { StepCloses(w, s, es[0]); }
      ClosedFrom(w, NetStep(w, s, es[0]), es[1..]);
    }
  }

  /** In every run, a server is closed if and only if one of those four things happened. */
  lemma ServerClosesOnlyWhenBroken(w: World, kernel: seq<Reply>, es: seq<NetEvent>)
    ensures NetRun(w, Server(w, kernel), es).conn.closed <==> Ever(w, Server(w, kernel), es, Breaking(w))
  {
    StartInv(w, kernel);
    ClosedFrom(w, Server(w, kernel), es);
  }

  /** Synchronous, deferred and mixed completion, in any two runs on the same bytes that end open with
      nothing queued: the output is the same, and so is the handshake but for its state. The states are
      the same if and only if the runs agree on whether a message callback ran in WaitC2 with all 3073
      bytes there; if not, one waits for C2 and the other is done. */
  lemma RunsAgree(w: World, k1: seq<Reply>, es1: seq<NetEvent>, k2: seq<Reply>, es2: seq<NetEvent>)
    requires var s1, s2 := NetRun(w, Server(w, k1), es1), NetRun(w, Server(w, k2), es2);
             && s1.received == s2.received
             && !s1.conn.closed && s1.conn.queue == [] && !s2.conn.closed && s2.conn.queue == []
    ensures var s1, s2 := NetRun(w, Server(w, k1), es1), NetRun(w, Server(w, k2), es2);
            && s1.conn.accepted == s2.conn.accepted
            && s1.hs.(state := Done) == s2.hs.(state := Done)
            && (s1.hs.state == s2.hs.state <==>
                  (CompletedIn(w, Server(w, k1), es1) <==> CompletedIn(w, Server(w, k2), es2)))
            && (s1.hs.state == s2.hs.state ==> s1.hs == s2.hs && s1.input == s2.input)
            && (s1.hs.state != s2.hs.state ==> {s1.hs.state, s2.hs.state} == {WaitC2, Done})
  {
    hide CheckC1S1, CreateC1S1, CreateC2S2, CompletedIn;
    StartInv(w, k1);
    StartInv(w, k2);
    NetRunInv(w, Server(w, k1), es1);
    NetRunInv(w, Server(w, k2), es2);
    DrainedServerIsDetermined(w, k1, es1);
    DrainedServerIsDetermined(w, k2, es2);
    DoneOverRun(w, Server(w, k1), es1);
    DoneOverRun(w, Server(w, k2), es2);
  }

  /** In WaitC2 the handshake completes with the next message callback that has 1536 bytes to show,
      and with nothing else. */
  lemma DoneOnNextMessage(w: World, s: Session, e: NetEvent)
    requires ServerInv(w, s) && s.hs.state.WaitC2? && !s.conn.closed
    ensures NetStep(w, s, e).hs.state.Done?
            <==> e.Recv? && e.chunk != [] && |s.input| + |e.chunk| >= PACKET_SIZE
    ensures NetStep(w, s, e).hs.state.Done? ==>
              NetStep(w, s, e).input == (s.input + e.chunk)[PACKET_SIZE..]
  {
  }

  /** So a client whose C0, C1 and C2 arrive together is left in WaitC2, with all of C2 in the buffer
      and every answer sent, until it sends something more: writability and silence do not help. */
  lemma {:induction false} EarlyC2Waits(w: World, s: Session, es: seq<NetEvent>)
    requires ServerInv(w, s) && s.hs.state.WaitC2?
    requires forall e :: e in es ==> !(e.Recv? && e.chunk != [])
    ensures NetRun(w, s, es).hs == s.hs && NetRun(w, s, es).input == s.input
    decreases |es|
  {
    hide CheckC1S1, CreateC1S1, CreateC2S2;
    if es != [] {
      var s' := NetStep(w, s, es[0]);
      NetStepInv(w, s, es[0]);
      OnWriteInv(s.conn);
      assert s'.hs == s.hs && s'.input == s.input;
      EarlyC2Waits(w, s', es[1..]);
    }
  }

  /** Any C0C1 the server accepts, with whatever is behind it in the same chunk and a kernel that takes
      everything, leads to WaitC2 within one callback; what was behind it is still in the buffer. */
  lemma EarlyC2IsReachable(w: World, chunk: seq<Byte>)
    requires Greeted(w, chunk)
    ensures var s := NetRun(w, Server(w, [Reply(HELLO_SIZE, false), Reply(PACKET_SIZE, false)]), [Recv(chunk)]);
            && s.hs.state.WaitC2? && s.input == chunk[HELLO_SIZE..] && s.conn.queue == []
            && s.conn.accepted == Expected(w, chunk) && !s.conn.closed && s.received == chunk
  {
    var kernel := [Reply(HELLO_SIZE, false), Reply(PACKET_SIZE, false)];
    var s0 := Server(w, kernel);
    var t := s0.(input := chunk, received := chunk);
    hide CheckC1S1, CreateC1S1, CreateC2S2;
    assert [] + chunk == chunk && [Recv(chunk)][1..] == [];
    assert NetRun(w, s0, [Recv(chunk)]) == NetStep(w, s0, Recv(chunk)) == OnMessage(w, t);
    var s1 := Greet(w, t).value;
    var s2 := s1.(hs := s1.hs.(state := PostS0S1));
    assert s2.conn == Accepted(kernel);
    hide SendBuffer, Greet, Server, OnMessage, NetStep, NetRun;
    GenerousSend(s2.conn, s2.hs.c1s1, HELLO_SIZE, [Reply(PACKET_SIZE, false)]);
    var s3 := s2.(conn := SendBuffer(s2.conn, s2.hs.c1s1).conn);
    assert Send(s2, s2.hs.c1s1) == WriteComplete(s3);
    var s4 := s3.(hs := s3.hs.(state := PostS2));
    GenerousSend(s4.conn, s4.hs.c2s2, PACKET_SIZE, []);
    var s5 := s4.(conn := SendBuffer(s4.conn, s4.hs.c2s2).conn);
    assert WriteComplete(s3) == Send(s4, s4.hs.c2s2) == WriteComplete(s5);
    assert s5.conn.accepted == Expected(w, chunk);
  }

  /** So two runs on the same bytes, with the same kernel, end apart: C2 in the chunk of C0C1 leaves the
      server waiting, C2 in a chunk of its own completes it. */
  lemma ChunkingDecidesState(w: World, a: seq<Byte>, b: seq<Byte>)
    requires |a| == HELLO_SIZE && |b| == PACKET_SIZE && Greeted(w, a)
    ensures var kernel := [Reply(HELLO_SIZE, false), Reply(PACKET_SIZE, false)];
            var s1 := NetRun(w, Server(w, kernel), [Recv(a + b)]);
            var s2 := NetRun(w, Server(w, kernel), [Recv(a), Recv(b)]);
            && s1.received == s2.received && s1.conn.accepted == s2.conn.accepted
            && !s1.conn.closed && !s2.conn.closed && s1.conn.queue == s2.conn.queue == []
            && s1.hs.state == WaitC2 && s2.hs.state == Done
  {
    hide CheckC1S1, CreateC1S1, CreateC2S2, Server;
    var kernel := [Reply(HELLO_SIZE, false), Reply(PACKET_SIZE, false)];
    var s0 := Server(w, kernel);
    GreetingIsFixed(w, a, b);
    EarlyC2IsReachable(w, a + b);
    EarlyC2IsReachable(w, a);
    var t := NetRun(w, s0, [Recv(a)]);
    ShortRuns(w, s0, Recv(a), Recv(b));
    assert t.input == [] && [] + b == b;
  }

  lemma ShortRuns(w: World, s: Session, e: NetEvent, f: NetEvent)
    ensures NetRun(w, s, [e]) == NetStep(w, s, e)
    ensures NetRun(w, s, [e, f]) == NetStep(w, NetStep(w, s, e), f)
  {
    hide NetStep;
    var s' := NetStep(w, s, e);
    assert [e][1..] == [] && [e, f][1..] == [f] && [f][1..] == [];
    assert NetRun(w, s', []) == s' && NetRun(w, s', [f]) == NetRun(w, NetStep(w, s', f), []);
  }

  lemma GenerousSend(c: Conn, buf: seq<Byte>, n: nat, rest: seq<Reply>)
    requires !c.closed && c.queue == [] && c.kernel == [Reply(n, false)] + rest && |buf| == n
    ensures var r := SendBuffer(c, buf);
            r.complete && r.conn == c.(kernel := rest, accepted := c.accepted + buf, submitted := c.submitted + buf)
  {
    assert buf[..n] == buf;
  }

  /** The two roles accept each other: a client's C0C1, complex or simple, is a first message the
      server answers, and S0S1 is one a client accepts, whatever follows them. */
  lemma RolesGreetEachOther(w: World, clientFill: Hello, complex: bool, rest: seq<Byte>, saved: Digest)
    ensures var c := CreateC1S1(w.hmac, true, complex, clientFill, saved);
            && Greeted(w, c.bytes + rest)
            && CheckOf(w, c.bytes + rest) == (if complex then Check(c.offset, true) else Check(0, false))
            && CheckC1S1(w.hmac, true, true, Greets(w).bytes) == Check(Greets(w).offset, true)
  {
    var c := CreateC1S1(w.hmac, true, complex, clientFill, saved);
    hide CreateC1S1;
    assert (c.bytes + rest)[..HELLO_SIZE] == c.bytes;
    if complex {
      DigestRoundTrip(w.hmac, true, clientFill, saved);
    } else {
      SimpleRoundTrip(w.hmac, true, true, clientFill, saved);
    }
    DigestRoundTrip(w.hmac, false, w.helloFill, Zeros(DIGEST_LENGTH));
  }

  // Aliasing. The source queues pointers into C1S1_ and C2S2_, not copies.

  /** Every queued span is part of one of the two packets as they are now. */
  predicate QueuePointsIntoPackets(s: Session) {
    forall v :: v in s.conn.queue ==> v.buf == s.hs.c1s1 || v.buf == s.hs.c2s2
  }

  lemma {:induction false} ConsumeKeepsBuffers(q: seq<IoVec>, n: nat, a: seq<Byte>, b: seq<Byte>)
    requires forall v :: v in q ==> v.buf == a || v.buf == b
    ensures forall v :: v in Consume(q, n) ==> v.buf == a || v.buf == b
    decreases |q|
  {
    if n > 0 && q != [] {
      assert q[0] in q;
      if n >= q[0].len { ConsumeKeepsBuffers(q[1..], n - q[0].len, a, b); }
    }
  }

  lemma {:induction false} DrainKeepsBuffers(c: Conn, a: seq<Byte>, b: seq<Byte>)
    requires forall v :: v in c.queue ==> v.buf == a || v.buf == b
    ensures forall v :: v in Drain(c).conn.queue ==> v.buf == a || v.buf == b
    decreases |Pending(c.queue)|
  {
    hide Consume;
    var w := KernelWrite(c, Pending(c.queue));
    if w.count > 0 {
      ConsumePending(c.queue, w.count);
      ConsumeKeepsBuffers(c.queue, w.count, a, b);
      var c' := w.conn.(queue := Consume(c.queue, w.count));
      if c'.queue != [] { DrainKeepsBuffers(c', a, b); }
    }
  }

  lemma SendKeepsAlias(s: Session, buf: seq<Byte>)
    requires QueuePointsIntoPackets(s) && (buf == s.hs.c1s1 || buf == s.hs.c2s2)
    ensures QueuePointsIntoPackets(Send(s, buf))
    ensures Send(s, buf).hs == s.hs.(state := Send(s, buf).hs.state)
    decreases Rank(s.hs.state), 1
  {
    var t := s.(conn := SendBuffer(s.conn, buf).conn);
    assert QueuePointsIntoPackets(t);
    if SendBuffer(s.conn, buf).complete { CompleteKeepsAlias(t); }
  }

  lemma CompleteKeepsAlias(s: Session)
    requires QueuePointsIntoPackets(s)
    ensures QueuePointsIntoPackets(WriteComplete(s))
    ensures WriteComplete(s).hs == s.hs.(state := WriteComplete(s).hs.state)
    decreases Rank(s.hs.state), 0
  {
    if s.hs.state.PostS0S1? {
      var t := s.(hs := s.hs.(state := PostS2));
      assert QueuePointsIntoPackets(t);
      SendKeepsAlias(t, s.hs.c2s2);
    }
  }

  /** The server never rewrites a packet that is still queued. */
  lemma {:induction false} PendingPacketsAreStable(w: World, s: Session, es: seq<NetEvent>)
    requires ServerInv(w, s) && QueuePointsIntoPackets(s)
    ensures QueuePointsIntoPackets(NetRun(w, s, es))
    decreases |es|
  {
    hide CheckC1S1, CreateC1S1, CreateC2S2, SendBuffer, Send, WriteComplete, Drain, Inv, QueuePointsIntoPackets;
    if es != [] {
      var e := es[0];
      NetStepInv(w, s, e);
      assert QueuePointsIntoPackets(NetStep(w, s, e)) by {
        match e {
          case Recv(chunk) => MessageKeepsAlias(w, s, chunk);
          case Drained => DrainedKeepsAlias(s);
          case Hangup => SameQueueSameAlias(s, s.(conn := OnClose(s.conn)));
        }
      }
      PendingPacketsAreStable(w, NetStep(w, s, e), es[1..]);
    }
  }

  lemma SameQueueSameAlias(s: Session, t: Session)
    requires QueuePointsIntoPackets(s) && t.conn.queue == s.conn.queue
    requires t.conn.queue == [] || (t.hs.c1s1 == s.hs.c1s1 && t.hs.c2s2 == s.hs.c2s2)
    ensures QueuePointsIntoPackets(t)
  {
  }

  lemma DrainedKeepsAlias(s: Session)
    requires QueuePointsIntoPackets(s)
    ensures var r := OnWrite(s.conn);
            QueuePointsIntoPackets(if r.complete then WriteComplete(s.(conn := r.conn)) else s.(conn := r.conn))
  {
    if !s.conn.closed && s.conn.queue != [] { DrainKeepsBuffers(s.conn, s.hs.c1s1, s.hs.c2s2); }
    var r := OnWrite(s.conn);
    assert QueuePointsIntoPackets(s.(conn := r.conn));
    if r.complete { CompleteKeepsAlias(s.(conn := r.conn)); }
  }

  lemma MessageKeepsAlias(w: World, s: Session, chunk: seq<Byte>)
    requires ServerInv(w, s) && QueuePointsIntoPackets(s)
    ensures QueuePointsIntoPackets(NetStep(w, s, Recv(chunk)))
  {
    hide CheckC1S1, CreateC1S1, CreateC2S2, SendBuffer, Send, WriteComplete, Inv, QueuePointsIntoPackets;
    var t := s.(input := s.input + chunk, received := s.received + chunk);
    SameQueueSameAlias(s, t);
    if !s.conn.closed && s.hs.state.WaitC0C1? && |t.input| >= HELLO_SIZE && Greet(w, t).Some? {
      var s1 := Greet(w, t).value;
      var s2 := s1.(hs := s1.hs.(state := PostS0S1));
      SameQueueSameAlias(s, s2);
      SendKeepsAlias(s2, s2.hs.c1s1);
    }
    SameQueueSameAlias(s, s.(conn := OnClose(s.conn)));
    SameQueueSameAlias(t, t.(conn := OnClose(t.conn)));
    if s.hs.state.WaitC2? && |t.input| >= PACKET_SIZE {
      SameQueueSameAlias(t, Retrieve(t.(hs := t.hs.(state := Done)), PACKET_SIZE));
    }
  }
}
