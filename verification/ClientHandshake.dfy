/** The client's side of the handshake over whole runs. It sends C0C1 when it starts, and C2 when it has
    checked S0S1; what it does then depends on whether S2 is already buffered. */
module ClientRuns {
  import opened Bytes
  import opened SendQueue
  import opened Digests
  import opened Handshakes
  import opened HandshakeRuns

  function Client(w: World, kernel: seq<Reply>): Session { Start(w, NewSession(kernel, true)) }

  /** C0 and C1. */
  function Opens(w: World): Greeting {
    CreateC1S1(w.hmac, true, true, w.helloFill, Zeros(DIGEST_LENGTH))
  }

  /** S0S1 has arrived and is one the client accepts. */
  predicate Welcomed(w: World, received: seq<Byte>) {
    |received| >= HELLO_SIZE && CheckC1S1(w.hmac, true, true, received[..HELLO_SIZE]).offset >= 0
  }

  /** C2, as S0S1 determines it. */
  function Answered(w: World, received: seq<Byte>): Packet
    requires |received| >= HELLO_SIZE
  {
    CreateC2S2(w.hmac, true, CheckC1S1(w.hmac, true, true, received[..HELLO_SIZE]).isComplex, Opens(w).digest,
               received[..HELLO_SIZE][1..], w.echoFill, w.time)
  }

  /** What the client should send, given what it has received. */
  function Due(w: World, received: seq<Byte>): seq<Byte> {
    if Welcomed(w, received) then Opens(w).bytes + Answered(w, received) else Opens(w).bytes
  }

  lemma WelcomeIsFixed(w: World, a: seq<Byte>, b: seq<Byte>)
    requires |a| >= HELLO_SIZE
    ensures Welcomed(w, a + b) == Welcomed(w, a) && Answered(w, a + b) == Answered(w, a)
    ensures Due(w, a + b) == Due(w, a)
  {
    assert (a + b)[..HELLO_SIZE] == a[..HELLO_SIZE];
  }

  /** A step with a message callback that closes on a refusal, and on the early success 2 unless it is
      lenient. The callback of the server closes on both. */
  function ClientStep(w: World, s: Session, e: NetEvent, lenient: bool): Session {
    if lenient && e.Recv? && e.chunk != [] && !s.conn.closed then
      var a := OnHandshake(w, s.(input := s.input + e.chunk, received := s.received + e.chunk));
      if a.ret < 0 then a.session.(conn := OnClose(a.session.conn)) else a.session
    else NetStep(w, s, e)
  }

  function ClientRun(w: World, s: Session, es: seq<NetEvent>, lenient: bool): Session
    decreases |es|
  {
    if es == [] then s else ClientRun(w, ClientStep(w, s, es[0], lenient), es[1..], lenient)
  }

  /** S0S1 completes, is accepted, and S2 is not all there yet. */
  predicate Hasty(w: World, s: Session, e: NetEvent) {
    && !s.conn.closed && s.hs.state.WaitS0S1? && e.Recv? && e.chunk != []
    && HELLO_SIZE <= |s.received| + |e.chunk| < HELLO_SIZE + PACKET_SIZE
    && Welcomed(w, s.received + e.chunk)
  }

  /** At some event of the run, in the state that it finds, this holds. */
  ghost predicate EverClient(w: World, s: Session, es: seq<NetEvent>, lenient: bool, p: (Session, NetEvent) -> bool) {
    exists i :: 0 <= i < |es| && p(ClientRun(w, s, es[..i], lenient), es[i])
  }

  lemma ClientFirstOrLater(w: World, s: Session, es: seq<NetEvent>, lenient: bool, p: (Session, NetEvent) -> bool)
    requires es != []
    ensures EverClient(w, s, es, lenient, p)
            <==> p(s, es[0]) || EverClient(w, ClientStep(w, s, es[0], lenient), es[1..], lenient, p)
  {
    hide ClientStep;
    var s' := ClientStep(w, s, es[0], lenient);
    forall i | 0 < i < |es| ensures ClientRun(w, s, es[..i], lenient) == ClientRun(w, s', es[1..][..i - 1], lenient) {
      assert es[..i][1..] == es[1..][..i - 1];
    }
    if EverClient(w, s, es, lenient, p) {
      var i :| 0 <= i < |es| && p(ClientRun(w, s, es[..i], lenient), es[i]);
      if i > 0 { assert p(ClientRun(w, s', es[1..][..i - 1], lenient), es[1..][i - 1]); }
    }
    if p(s, es[0]) { assert p(ClientRun(w, s, es[..0], lenient), es[0]); }
    if EverClient(w, s', es[1..], lenient, p) {
      var i :| 0 <= i < |es[1..]| && p(ClientRun(w, s', es[1..][..i], lenient), es[1..][i]);
      assert p(ClientRun(w, s, es[..i + 1], lenient), es[i + 1]);
    }
  }

  lemma ClientNeverInNothing(w: World, s: Session, lenient: bool, p: (Session, NetEvent) -> bool)
    ensures !EverClient(w, s, [], lenient, p)
  {
  }

  function HastyAt(w: World): (Session, NetEvent) -> bool { (s, e) => Hasty(w, s, e) }

  ghost predicate HastyIn(w: World, s: Session, es: seq<NetEvent>, lenient: bool) {
    EverClient(w, s, es, lenient, HastyAt(w))
  }

  /** The client has sent, or queued, C0C1 a second time. */
  predicate SentTwice(w: World, s: Session) {
    Due(w, s.received) + Opens(w).bytes <= s.conn.submitted
  }

  /** S0S1 was accepted, and C2 is the answer to it. */
  predicate Answering(w: World, s: Session) {
    && s.hs.c1s1 == Opens(w).bytes && Welcomed(w, s.received) && s.hs.c2s2 == Answered(w, s.received)
  }

  predicate StateInv(w: World, s: Session) {
    var due := Due(w, s.received);
    match s.hs.state
    case WaitS0S1 =>
      && s.hs.isClient && s.hs.isComplex && s.hs.c1s1 == Opens(w).bytes && s.hs.digest == Opens(w).digest
      && s.consumed == 0 && s.conn.submitted == Opens(w).bytes && !Welcomed(w, s.received)
      && (!s.conn.closed ==> |s.received| < HELLO_SIZE)
    case Doing =>
      Answering(w, s) && s.conn.submitted == due && s.conn.queue != [] && s.consumed == HELLO_SIZE
    case PostS0S1 =>
      && Answering(w, s) && s.conn.submitted == due + Opens(w).bytes
      && s.conn.queue != [] && s.consumed == HELLO_SIZE
    case PostS2 =>
      Answering(w, s) && s.conn.submitted == due + due && s.conn.queue != [] && s.consumed == HELLO_SIZE
    case WaitC2 =>
      Answering(w, s) && s.conn.submitted == due + due && s.conn.queue == [] && s.consumed == HELLO_SIZE
    case Done =>
      && Answering(w, s) && s.conn.queue == []
      && ((s.conn.submitted == due && s.consumed == HELLO_SIZE)
          || (s.conn.submitted == due + due && s.consumed == HELLO_SIZE + PACKET_SIZE))
    case _ => false
  }

  ghost predicate ClientInv(w: World, s: Session) {
    && Inv(s.conn) && s.consumed <= |s.received| && s.input == s.received[s.consumed..]
    && StateInv(w, s)
  }

  lemma ClientStartInv(w: World, kernel: seq<Reply>)
    ensures ClientInv(w, Client(w, kernel)) && Client(w, kernel).hs.state.WaitS0S1?
    ensures Client(w, kernel).received == []
  {
    hide CreateC1S1, SendBuffer;
    SendBufferInv(Accepted(kernel), Opens(w).bytes);
    ClientSendsHello(w, kernel);
    assert [] + Opens(w).bytes == Opens(w).bytes;
  }

  /** A completion in WaitS0S1 changes nothing. */
  lemma ClientSendsHello(w: World, kernel: seq<Reply>)
    ensures var s := NewSession(kernel, true);
            Client(w, kernel) == s.(conn := SendBuffer(s.conn, Opens(w).bytes).conn,
                                    hs := s.hs.(c1s1 := Opens(w).bytes, digest := Opens(w).digest, state := WaitS0S1))
  {
    hide CreateC1S1, SendBuffer;
    var s := NewSession(kernel, true);
    var s1 := s.(hs := s.hs.(c1s1 := Opens(w).bytes, digest := Opens(w).digest, state := WaitS0S1));
    var s2 := s1.(conn := SendBuffer(s.conn, Opens(w).bytes).conn);
    assert WriteComplete(s2) == s2;
    assert Client(w, kernel) == Send(s1, Opens(w).bytes);
  }

  /** The answer goes out: C2 alone if S2 is there, otherwise C2 and then, like a server, all again. */
  lemma WelcomeInv(w: World, s: Session)
    requires Inv(s.conn) && !s.conn.closed && s.hs.state.WaitS0S1? && |s.received| >= HELLO_SIZE
    requires s.input == s.received && s.consumed == 0 && StateInv(w, s.(received := []))
    ensures var a := OnHandshake(w, s); var t := a.session;
            && t.received == s.received && !t.conn.closed
            && (if !Welcomed(w, s.received) then t == s && a.ret == -1
                else && ClientInv(w, t) && a.ret >= 0
                     && (SentTwice(w, t) <==> |s.received| < HELLO_SIZE + PACKET_SIZE))
  {
    hide CheckC1S1, CreateC1S1, CreateC2S2, Inv, SendBuffer, Send, WriteComplete;
    if Welcomed(w, s.received) {
      var s1 := Greet(w, s).value;
      var echo := s1.hs.c2s2;
      if |s.received| >= HELLO_SIZE + PACKET_SIZE {
        SendC2(s1.(hs := s1.hs.(state := Doing)), echo);
      } else {
        var s2 := s1.(hs := s1.hs.(state := PostC2));
        SendC2(s2, echo);
        var s3 := Send(s2, echo);
        SendAsServer(w, s3.(hs := s3.hs.(state := PostS0S1)));
      }
    }
  }

  lemma SendC2(s: Session, buf: seq<Byte>)
    requires Inv(s.conn) && !s.conn.closed && (s.hs.state.Doing? || s.hs.state.PostC2?)
    ensures var t := Send(s, buf);
            && Inv(t.conn) && !t.conn.closed && t.conn.submitted == s.conn.submitted + buf
            && t.(conn := s.conn, hs := s.hs) == s
            && t.hs == if t.conn.queue == [] then s.hs.(state := Done) else s.hs
  {
    hide Inv, SendBuffer;
    SendBufferInv(s.conn, buf);
    var s' := s.(conn := SendBuffer(s.conn, buf).conn);
    assert WriteComplete(s') == s'.(hs := s.hs.(state := Done));
  }

  lemma SendAsServer(w: World, s: Session)
    requires Inv(s.conn) && !s.conn.closed && s.hs.state.PostS0S1? && Answering(w, s)
    requires s.consumed <= |s.received| && s.input == s.received[s.consumed..]
    requires s.conn.submitted == Due(w, s.received) && s.consumed == HELLO_SIZE
    ensures var t := Send(s, s.hs.c1s1);
            ClientInv(w, t) && t.received == s.received && !t.conn.closed && SentTwice(w, t)
  {
    hide Inv, SendBuffer, WriteComplete, CheckC1S1, CreateC1S1, CreateC2S2;
    SendBufferInv(s.conn, s.hs.c1s1);
    var r := SendBuffer(s.conn, s.hs.c1s1);
    if r.complete { SendAnswerAgain(w, s.(conn := r.conn)); }
  }

  lemma SendAnswerAgain(w: World, s: Session)
    requires Inv(s.conn) && !s.conn.closed && s.hs.state.PostS0S1? && Answering(w, s)
    requires s.consumed <= |s.received| && s.input == s.received[s.consumed..]
    requires s.conn.submitted == Due(w, s.received) + Opens(w).bytes
    requires s.conn.queue == [] && s.consumed == HELLO_SIZE
    ensures var t := WriteComplete(s);
            ClientInv(w, t) && t.received == s.received && !t.conn.closed && SentTwice(w, t)
  {
    hide Inv, SendBuffer, CheckC1S1, CreateC1S1, CreateC2S2;
    var s2 := s.(hs := s.hs.(state := PostS2));
    SendBufferInv(s2.conn, s2.hs.c2s2);
    var due := Due(w, s.received);
    assert due + Opens(w).bytes + Answered(w, s.received) == due + due;
    var s3 := s2.(conn := SendBuffer(s2.conn, s2.hs.c2s2).conn);
    assert WriteComplete(s3) == s3.(hs := s3.hs.(state := WaitC2));
  }

  lemma ClosingKeepsInv(w: World, s: Session)
    requires ClientInv(w, s)
    ensures var t := s.(conn := OnClose(s.conn)); ClientInv(w, t) && (SentTwice(w, t) <==> SentTwice(w, s))
  {
    hide CheckC1S1, CreateC1S1, CreateC2S2;
    CloseInv(s.conn);
  }

  /** A client sends C0C1 again in a step if and only if it is one in which S0S1 is there without S2. */
  lemma ClientStepInv(w: World, s: Session, e: NetEvent, lenient: bool)
    requires ClientInv(w, s)
    ensures var t := ClientStep(w, s, e, lenient);
            && ClientInv(w, t) && (SentTwice(w, t) <==> SentTwice(w, s) || Hasty(w, s, e))
            && t.received == if e.Recv? && !s.conn.closed then s.received + e.chunk else s.received
  {
    hide CheckC1S1, CreateC1S1, CreateC2S2, Inv, OnWrite, Send, Greet, WriteComplete, Due;
    match e {
      case Recv(chunk) =>
        if s.conn.closed {
        } else if chunk == [] {
          assert s.received + chunk == s.received;
          ClosingKeepsInv(w, s);
        } else {
          MessageStep(w, s, chunk);
          var a := OnHandshake(w, s.(input := s.input + chunk, received := s.received + chunk));
          if a.ret >= 0 { ClosingKeepsInv(w, a.session); }
        }
      case Drained => DrainedStep(w, s);
      case Hangup => ClosingKeepsInv(w, s);
    }
  }

  lemma MessageStep(w: World, s: Session, chunk: seq<Byte>)
    requires ClientInv(w, s) && !s.conn.closed && chunk != []
    ensures var a := OnHandshake(w, s.(input := s.input + chunk, received := s.received + chunk));
            var t := if a.ret < 0 then a.session.(conn := OnClose(a.session.conn)) else a.session;
            && ClientInv(w, t) && (SentTwice(w, t) <==> SentTwice(w, s) || Hasty(w, s, Recv(chunk)))
            && t.received == s.received + chunk
  {
    hide CheckC1S1, CreateC1S1, CreateC2S2, Inv, Send, WriteComplete, Greet;
    var t := s.(input := s.input + chunk, received := s.received + chunk);
    assert t.input == t.received[t.consumed..];
    if s.hs.state.WaitS0S1? {
      assert t.input == t.received;
      if |t.received| >= HELLO_SIZE { WelcomeInv(w, t); }
      CloseInv(t.conn);
    } else {
      WelcomeIsFixed(w, s.received, chunk);
    }
  }

  lemma DrainedStep(w: World, s: Session)
    requires ClientInv(w, s)
    ensures var t := NetStep(w, s, Drained);
            ClientInv(w, t) && (SentTwice(w, t) <==> SentTwice(w, s)) && t.received == s.received
  {
    hide CheckC1S1, CreateC1S1, CreateC2S2, Inv, OnWrite, Send;
    OnWriteInv(s.conn);
    var r := OnWrite(s.conn);
    if r.complete && s.hs.state.PostS0S1? { SendAnswerAgain(w, s.(conn := r.conn)); }
  }

  lemma {:induction false} ClientRunInv(w: World, s: Session, es: seq<NetEvent>, lenient: bool)
    requires ClientInv(w, s)
    ensures var t := ClientRun(w, s, es, lenient);
            ClientInv(w, t) && (SentTwice(w, t) <==> SentTwice(w, s) || HastyIn(w, s, es, lenient))
    decreases |es|
  {
    hide ClientInv, SentTwice, Hasty, EverClient, ClientStep;
    if es != [] {
      ClientStepInv(w, s, es[0], lenient);
      ClientFirstOrLater(w, s, es, lenient, HastyAt(w));
      ClientRunInv(w, ClientStep(w, s, es[0], lenient), es[1..], lenient);
    } else {
      ClientNeverInNothing(w, s, lenient, HastyAt(w));
    }
  }

  /** In every run a client sends what it should, C0C1 and, once S0S1 is accepted, C2, if and only if no
      message callback saw an accepted S0S1 without all of S2 behind it. Otherwise it sends C0C1 a second
      time and, unless the first three packets never drain, C2 a second time; and nothing after that. */
  lemma ClientAnswersOnce(w: World, kernel: seq<Reply>, es: seq<NetEvent>, lenient: bool)
    ensures var s := ClientRun(w, Client(w, kernel), es, lenient);
            var due := Due(w, s.received);
            && s.conn.accepted <= s.conn.submitted
            && (HastyIn(w, Client(w, kernel), es, lenient) <==> s.conn.submitted != due)
            && (HastyIn(w, Client(w, kernel), es, lenient) ==>
                  s.conn.submitted == due + Opens(w).bytes || s.conn.submitted == due + due)
  {
    hide CheckC1S1, CreateC1S1, CreateC2S2, HastyIn;
    ClientStartInv(w, kernel);
    ClientRunInv(w, Client(w, kernel), es, lenient);
    hide ClientRun, Client;
  }

  /** Where a client stands: it retrieves S0S1 and no more if it sent what it should, and then leaves S2 in
      its buffer; if it sent twice, it retrieves 1536 bytes more when it ends. When it is open with
      nothing queued, it waits for S0S1 if that has not come, it is done if it sent what it should, and
      else it waits like a server or is done. */
  lemma ClientStands(w: World, kernel: seq<Reply>, es: seq<NetEvent>, lenient: bool)
    ensures var s := ClientRun(w, Client(w, kernel), es, lenient);
            var hasty := HastyIn(w, Client(w, kernel), es, lenient);
            && s.consumed <= |s.received| && s.input == s.received[s.consumed..]
            && (if !Welcomed(w, s.received) then s.consumed == 0 && s.hs.state.WaitS0S1?
                else if !hasty then s.consumed == 1537 && (s.hs.state.Doing? || s.hs.state.Done?)
                else s.consumed == if s.hs.state.Done? then 3073 else 1537)
            && (!s.conn.closed && s.conn.queue == [] ==>
                  if !Welcomed(w, s.received) then |s.received| < 1537
                  else if !hasty then s.hs.state.Done?
                  else s.hs.state.WaitC2? || s.hs.state.Done?)
  {
    hide CheckC1S1, CreateC1S1, CreateC2S2, HastyIn;
    ClientStartInv(w, kernel);
    ClientRunInv(w, Client(w, kernel), es, lenient);
    hide ClientRun, Client;
  }

  // When a client is closed.

  /** As for a server, with S0S1 for C0C1; and a callback that is not lenient closes a client that finds S2
      behind S0S1. */
  ghost predicate ClientBreaks(w: World, s: Session, e: NetEvent, lenient: bool) {
    match e
    case Recv(chunk) =>
      var all := s.received + chunk;
      || chunk == []
      || (|all| >= HELLO_SIZE && !Welcomed(w, all))
      || (!lenient && |s.received| < HELLO_SIZE && |all| >= HELLO_SIZE + PACKET_SIZE)
    case Drained => s.conn.queue != [] && Fails(s.conn.kernel, |Pending(s.conn.queue)|)
    case Hangup => true
  }

  ghost function ClientBreaking(w: World, lenient: bool): (Session, NetEvent) -> bool {
    (s, e) => ClientBreaks(w, s, e, lenient)
  }

  lemma ClientStepKeepsNoEmptyNode(w: World, s: Session, e: NetEvent, lenient: bool)
    requires NoEmptyNode(s.conn.queue)
    ensures NoEmptyNode(ClientStep(w, s, e, lenient).conn.queue)
  {
    hide OnHandshake, NetStep, NoEmptyNode;
    StepKeepsNoEmptyNode(w, s, e);
    if e.Recv? {
      HandshakeKeepsNoEmptyNode(w, s.(input := s.input + e.chunk, received := s.received + e.chunk));
    }
  }

  lemma ClientStepCloses(w: World, s: Session, e: NetEvent, lenient: bool)
    requires ClientInv(w, s) && NoEmptyNode(s.conn.queue) && !s.conn.closed
    ensures ClientStep(w, s, e, lenient).conn.closed <==> ClientBreaks(w, s, e, lenient)
  {
    hide CheckC1S1, CreateC1S1, CreateC2S2, Inv, SendBuffer, Drain, Fails, NoEmptyNode, Pending, Send, Greet;
    match e {
      case Recv(chunk) => if chunk != [] { ClientMessageCloses(w, s, chunk); }
      case Drained =>
        if s.conn.queue != [] { DrainCloses(s.conn); }
        CompleteStaysOpen(s.(conn := OnWrite(s.conn).conn));
      case Hangup =>
    }
  }

  lemma ClientMessageCloses(w: World, s: Session, chunk: seq<Byte>)
    requires ClientInv(w, s) && !s.conn.closed && chunk != []
    ensures var a := OnHandshake(w, s.(input := s.input + chunk, received := s.received + chunk));
            var all := s.received + chunk;
            && !a.session.conn.closed
            && (a.ret < 0 <==> |all| >= HELLO_SIZE && !Welcomed(w, all))
            && (a.ret == 0 || a.ret == 1 <==>
                  a.ret >= 0 && !(|s.received| < HELLO_SIZE && |all| >= HELLO_SIZE + PACKET_SIZE))
  {
    hide CheckC1S1, CreateC1S1, CreateC2S2, Inv, Send, WriteComplete;
    var t := s.(input := s.input + chunk, received := s.received + chunk);
    if s.hs.state.WaitS0S1? {
      assert t.input == t.received;
      if |t.input| >= HELLO_SIZE && Greet(w, t).Some? {
        var s1 := Greet(w, t).value;
        var hs, echo := s1.hs, s1.hs.c2s2;
        SendStaysOpen(s1.(hs := hs.(state := Doing)), echo);
        var s2 := s1.(hs := hs.(state := PostC2));
        SendStaysOpen(s2, echo);
        var s3 := Send(s2, echo);
        SendStaysOpen(s3.(hs := s3.hs.(state := PostS0S1)), s3.hs.c1s1);
      }
    } else {
      WelcomeIsFixed(w, s.received, chunk);
    }
  }

  lemma {:induction false} ClientClosedFrom(w: World, s: Session, es: seq<NetEvent>, lenient: bool)
    requires ClientInv(w, s) && NoEmptyNode(s.conn.queue)
    ensures ClientRun(w, s, es, lenient).conn.closed
            <==> s.conn.closed || EverClient(w, s, es, lenient, ClientBreaking(w, lenient))
    decreases |es|
  {
    hide ClientInv, NoEmptyNode, ClientBreaks, EverClient, NetStep, SentTwice, Hasty, OnHandshake;
    if es == [] {
      ClientNeverInNothing(w, s, lenient, ClientBreaking(w, lenient));
    } else {
      ClientStepInv(w, s, es[0], lenient);
      ClientStepKeepsNoEmptyNode(w, s, es[0], lenient);
      ClientFirstOrLater(w, s, es, lenient, ClientBreaking(w, lenient));
      if s.conn.closed { StaysClosed(w, s, es[0]); } else { ClientStepCloses(w, s, es[0], lenient); }
      ClientClosedFrom(w, ClientStep(w, s, es[0], lenient), es[1..], lenient);
    }
  }

  /** In every run, a client is closed if and only if one of those things happened. */
  lemma ClientClosesOnlyWhenBroken(w: World, kernel: seq<Reply>, es: seq<NetEvent>, lenient: bool)
    ensures ClientRun(w, Client(w, kernel), es, lenient).conn.closed
            <==> EverClient(w, Client(w, kernel), es, lenient, ClientBreaking(w, lenient))
  {
    ClientStartInv(w, kernel);
    ClientSendsHello(w, kernel);
    ClientClosedFrom(w, Client(w, kernel), es, lenient);
  }

  /** It happens: S0S1 alone, from any server, and a kernel that takes everything. The client has then
      sent C0C1, C2, C0C1, C2, and waits for a client's second message. */
  lemma S0S1AloneIsAnsweredTwice(w: World, data: seq<Byte>, lenient: bool)
    requires |data| == HELLO_SIZE && Welcomed(w, data)
    ensures var hello, echo := Reply(HELLO_SIZE, false), Reply(PACKET_SIZE, false);
            var s := ClientRun(w, Client(w, [hello, echo, hello, echo]), [Recv(data)], lenient);
            && s.conn.accepted == Due(w, data) + Due(w, data)
            && s.hs.state.WaitC2? && s.conn.queue == [] && !s.conn.closed
  {
    hide CheckC1S1, CreateC1S1, CreateC2S2, Greet, SendBuffer;
    var hello, echo := Reply(HELLO_SIZE, false), Reply(PACKET_SIZE, false);
    var c := Opens(w).bytes;
    var s0 := Client(w, [hello, echo, hello, echo]);
    var c0 := Accepted([hello, echo, hello, echo]);
    GenerousSend(c0, c, HELLO_SIZE, [echo, hello, echo]);
    ClientSendsHello(w, c0.kernel);
    assert [] + data == data && [Recv(data)][1..] == [];
    var t := s0.(input := data, received := data);
    AnswersTwice(w, t);
  }

  lemma AnswersTwice(w: World, s: Session)
    requires |s.input| == HELLO_SIZE && Welcomed(w, s.input)
    requires s.hs.state.WaitS0S1? && s.hs.isClient && s.hs.isComplex
    requires s.hs.c1s1 == Opens(w).bytes && s.hs.digest == Opens(w).digest
    requires !s.conn.closed && s.conn.queue == []
    requires s.conn.kernel == [Reply(PACKET_SIZE, false), Reply(HELLO_SIZE, false), Reply(PACKET_SIZE, false)]
    requires s.conn.accepted == Opens(w).bytes
    ensures var a := OnHandshake(w, s);
            && a.ret == 0 && a.session.conn.accepted == Due(w, s.input) + Due(w, s.input)
            && a.session.hs.state.WaitC2? && a.session.conn.queue == [] && !a.session.conn.closed
  {
    hide CheckC1S1, CreateC1S1, CreateC2S2, SendBuffer, Opens;
    var hello, echo := Reply(HELLO_SIZE, false), Reply(PACKET_SIZE, false);
    var g := Greet(w, s).value;
    var s1 := g.(hs := g.hs.(state := PostC2));
    var c2 := s1.hs.c2s2;
    assert c2 == Answered(w, s.input);
    hide Greet, Answered, Welcomed;
    GenerousSend(s1.conn, c2, PACKET_SIZE, [hello, echo]);
    var s2 := Send(s1, c2);
    var s1' := s1.(conn := SendBuffer(s1.conn, c2).conn);
    assert s2 == WriteComplete(s1');
    assert s2 == s1.(conn := SendBuffer(s1.conn, c2).conn, hs := s1.hs.(state := Done));
    var s3 := s2.(hs := s2.hs.(state := PostS0S1));
    GenerousSend(s3.conn, s3.hs.c1s1, HELLO_SIZE, [echo]);
    var s4 := s3.(conn := SendBuffer(s3.conn, s3.hs.c1s1).conn, hs := s3.hs.(state := PostS2));
    GenerousSend(s4.conn, c2, PACKET_SIZE, []);
    var s5 := s4.(conn := SendBuffer(s4.conn, c2).conn);
    assert WriteComplete(s5) == s5.(hs := s5.hs.(state := WaitC2));
    assert Send(s4, c2) == WriteComplete(s5);
    assert Send(s3, s3.hs.c1s1) == Send(s4, c2);
    var h := s.hs.c1s1;
    assert h + c2 + h + c2 == (h + c2) + (h + c2);
  }
}
