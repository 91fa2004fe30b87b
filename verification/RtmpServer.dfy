/** The objects of a server connection: `TcpConnection` (`src/network/net/TcpConnection.h`, `.cpp`),
    its `MsgBuffer`, and the `RtmpHandShake` (`src/mmedia/rtmp/RtmpHandshake.h`, `.cpp`) that its
    callbacks reach. Each method does to the fields what the matching function does to a `Session`, so
    the theorems about runs of sessions are theorems about the objects. */
module RtmpServers {
  import opened Bytes
  import opened MsgBuffers
  import opened SendQueue
  import opened Digests
  import opened Handshakes
  import opened HandshakeRuns

  /** `memcpy` or a filling loop on a fixed array. */
  method CopyInto(a: array<Byte>, at: nat, data: seq<Byte>)
    requires at + |data| <= a.Length
    modifies a
    ensures a[..] == Overwrite(old(a[..]), at, data)
  {
    for i := 0 to |data|
      invariant forall j :: 0 <= j < a.Length ==> a[j] == if at <= j < at + i then data[j - at] else old(a[j])
    {
      a[at + i] := data[i];
    }
  }

  /** A loop that fills a whole array. */
  method Fill(a: array<Byte>, data: seq<Byte>)
    requires |data| == a.Length
    modifies a
    ensures a[..] == data
  {
    for i := 0 to a.Length
      invariant forall j :: 0 <= j < i ==> a[j] == data[j]
    {
      a[i] := data[i];
    }
  }

  class RtmpHandShake {
    const world: World
    const connection: TcpConnection
    const isClient: bool
    const digest: array<Byte>
    const c1s1: array<Byte>
    const c2s2: array<Byte>
    var isComplex: bool
    var state: HsState

    ghost predicate Shape() {
      digest.Length == DIGEST_LENGTH && c1s1.Length == HELLO_SIZE && c2s2.Length == PACKET_SIZE
    }

    ghost function Fields(): Handshake
      requires Shape()
      reads this, digest, c1s1, c2s2
    {
      Handshake(isClient, isComplex, digest[..], c1s1[..], c2s2[..], state)
    }

    constructor (world: World, connection: TcpConnection, isClient: bool)
      ensures Shape() && fresh(digest) && fresh(c1s1) && fresh(c2s2)
      ensures this.world == world && this.connection == connection
      ensures Fields() == NewSession([], isClient).hs
    {
      this.world, this.connection, this.isClient := world, connection, isClient;
      digest := new Byte[DIGEST_LENGTH](_ => 0);
      c1s1 := new Byte[HELLO_SIZE](_ => 0);
      c2s2 := new Byte[PACKET_SIZE](_ => 0);
      isComplex, state := true, Init;
      new;
      assert digest[..] == Zeros(DIGEST_LENGTH);
      assert c1s1[..] == Zeros(HELLO_SIZE);
      assert c2s2[..] == Zeros(PACKET_SIZE);
    }

    method CreateC1S1()
      requires Shape()
      modifies c1s1, digest
      ensures var g := Digests.CreateC1S1(world.hmac, isClient, isComplex, world.helloFill, old(digest[..]));
              c1s1[..] == g.bytes && digest[..] == g.digest
    {
      hide Overwrite, GetDigestOffset, CalculateDigest, OwnVersion, OwnKey;
      FillHello();
      CopyInto(c1s1, 1, Zeros(4));
      if !isComplex {
        CopyInto(c1s1, 5, Zeros(4));
      } else {
        var offset := GetDigestOffset(c1s1[..][1..], FIRST_LAYOUT);
        CopyInto(c1s1, 5, OwnVersion(isClient));
        var d := CalculateDigest(world.hmac, c1s1[..][1..], offset, OwnKey(isClient));
        CopyInto(c1s1, 1 + offset, d);
        CopyInto(digest, 0, d);
        assert digest[..] == d;
      }
    }

    /** The random fill, then the version byte. */
    method FillHello()
      requires Shape()
      modifies c1s1
      ensures c1s1[..] == [RTMP_VERSION] + world.helloFill[1..]
    {
      Fill(c1s1, world.helloFill);
      c1s1[0] := RTMP_VERSION;
    }

    method CheckC1S1(data: seq<Byte>) returns (offset: int)
      requires Shape()
      modifies `isComplex
      ensures Check(offset, isComplex) == Digests.CheckC1S1(world.hmac, isClient, old(isComplex), data)
    {
      if |data| != HELLO_SIZE {
        return -1;
      }
      if data[0] != RTMP_VERSION {
        return -1;
      }
      if data[5..9] == Zeros(4) {
        isComplex := false;
        return 0;
      }
      offset := -1;
      if isComplex {
        offset := GetDigestOffset(data[1..], FIRST_LAYOUT);
        if !VerifyDigest(world.hmac, data[1..], offset, PeerKey(isClient)) {
          offset := GetDigestOffset(data[1..], SECOND_LAYOUT);
          if !VerifyDigest(world.hmac, data[1..], offset, PeerKey(isClient)) {
            return -1;
          }
        }
      }
    }

    method CreateC2S2(data: seq<Byte>)
      requires Shape() && |data| >= 8
      modifies c2s2
      ensures c2s2[..] == Digests.CreateC2S2(world.hmac, isClient, isComplex, digest[..], data, world.echoFill, world.time)
    {
      Fill(c2s2, world.echoFill);
      CopyInto(c2s2, 0, data[..8]);
      CopyInto(c2s2, 0, Reverse(ToMemory(world.time, 4)));
      if isComplex {
        var key := CalculateDigest(world.hmac, digest[..], 0, OwnKey(isClient));
        var at := PACKET_SIZE - DIGEST_LENGTH;
        CopyInto(c2s2, at, CalculateDigest(world.hmac, c2s2[..][..at], 0, key));
      }
    }

    /** `handshake(buf)`, with the connection's own buffer. */
    method OnHandshake() returns (ret: int)
      requires connection.Wired() && connection.context == this
      modifies connection, this, c2s2, connection.messageBuffer
      ensures connection.Wired() && connection.context == this
      ensures connection.messageBuffer.buffer == old(connection.messageBuffer.buffer)
      ensures connection.messageBuffer.Indices()
              == Drawn(old(connection.messageBuffer.Indices()), connection.consumed - old(connection.consumed))
      ensures Answer(connection.Now(), ret) == Handshakes.OnHandshake(world, old(connection.Now()))
    {
      match state {
        case WaitC0C1 => ret := OnC0C1();
        case WaitC2 => ret := OnC2();
        case WaitS0S1 => ret := OnS0S1();
        case _ => ret := 0;
      }
    }

    method OnC0C1() returns (ret: int)
      requires connection.Wired() && connection.context == this && state == WaitC0C1
      modifies connection, this, c2s2, connection.messageBuffer
      ensures connection.Wired() && connection.context == this
      ensures connection.messageBuffer.buffer == old(connection.messageBuffer.buffer)
      ensures connection.messageBuffer.Indices()
              == Drawn(old(connection.messageBuffer.Indices()), connection.consumed - old(connection.consumed))
      ensures Answer(connection.Now(), ret) == Handshakes.OnHandshake(world, old(connection.Now()))
    {
      hide Handshakes.Greet, Handshakes.Send;
      if connection.messageBuffer.ReadableBytes() < HELLO_SIZE {
        return 1;
      }
      var ok := Greet();
      if !ok {
        return -1;
      }
      state := PostS0S1;
      SendRetrievesNothing(connection.Now(), c1s1[..]);
      connection.Send(c1s1[..]);
      ret := 0;
    }

    /** `checkC2S2` accepts every packet. */
    method OnC2() returns (ret: int)
      requires connection.Wired() && connection.context == this && state == WaitC2
      modifies connection, this, c2s2, connection.messageBuffer
      ensures connection.Wired() && connection.context == this
      ensures connection.messageBuffer.buffer == old(connection.messageBuffer.buffer)
      ensures connection.messageBuffer.Indices()
              == Drawn(old(connection.messageBuffer.Indices()), connection.consumed - old(connection.consumed))
      ensures Answer(connection.Now(), ret) == Handshakes.OnHandshake(world, old(connection.Now()))
    {
      if connection.messageBuffer.ReadableBytes() < PACKET_SIZE {
        return 1;
      }
      state := Done;
      Retrieve(PACKET_SIZE);
      ret := 0;
    }

    method OnS0S1() returns (ret: int)
      requires connection.Wired() && connection.context == this && state == WaitS0S1
      modifies connection, this, c2s2, connection.messageBuffer
      ensures connection.Wired() && connection.context == this
      ensures connection.messageBuffer.buffer == old(connection.messageBuffer.buffer)
      ensures connection.messageBuffer.Indices()
              == Drawn(old(connection.messageBuffer.Indices()), connection.consumed - old(connection.consumed))
      ensures Answer(connection.Now(), ret) == Handshakes.OnHandshake(world, old(connection.Now()))
    {
      hide Handshakes.Greet, Handshakes.Send;
      if connection.messageBuffer.ReadableBytes() < HELLO_SIZE {
        return 1;
      }
      var ok := Greet();
      if !ok {
        return -1;
      }
      if connection.messageBuffer.ReadableBytes() >= PACKET_SIZE {
        state := Doing;
        SendRetrievesNothing(connection.Now(), c2s2[..]);
        connection.Send(c2s2[..]);
        return 2;
      }
      state := PostC2;
      SendRetrievesNothing(connection.Now(), c2s2[..]);
      connection.Send(c2s2[..]);
      state := PostS0S1;
      SendRetrievesNothing(connection.Now(), c1s1[..]);
      connection.Send(c1s1[..]);
      ret := 0;
    }

    /** Check the peer's first message, create the answer to it, and retrieve it. */
    method Greet() returns (ok: bool)
      requires connection.Wired() && connection.context == this
      requires connection.messageBuffer.ReadableBytes() >= HELLO_SIZE
      modifies `isComplex, c2s2, connection.messageBuffer, connection`consumed
      ensures connection.Wired() && connection.context == this
      ensures connection.messageBuffer.buffer == old(connection.messageBuffer.buffer)
      ensures connection.messageBuffer.Indices()
              == Drawn(old(connection.messageBuffer.Indices()), connection.consumed - old(connection.consumed))
      ensures ok <==> Handshakes.Greet(world, old(connection.Now())).Some?
      ensures connection.Now() == if ok then Handshakes.Greet(world, old(connection.Now())).value
                                  else old(connection.Now())
    {
      var buf := connection.messageBuffer;
      var data := buf.Peek(HELLO_SIZE);
      var offset := CheckC1S1(data);
      if offset < 0 {
        return false;
      }
      CreateC2S2(data[1..]);
      Retrieve(HELLO_SIZE);
      ok := true;
    }

    method Retrieve(n: nat)
      requires connection.Wired() && connection.context == this
      requires n <= connection.messageBuffer.ReadableBytes()
      modifies connection.messageBuffer, connection`consumed
      ensures connection.Wired() && connection.context == this
      ensures connection.messageBuffer.buffer == old(connection.messageBuffer.buffer)
      ensures connection.messageBuffer.Indices() == old(connection.messageBuffer.Indices()).Retrieve(n)
      ensures connection.Now() == Handshakes.Retrieve(old(connection.Now()), n)
    {
      hide MsgBuffer.Contents;
      ghost var was := connection.Now();
      var buf := connection.messageBuffer;
      buf.Retrieve(n);
      connection.consumed := connection.consumed + n;
      assert connection.Conn() == was.conn;
      assert Fields() == was.hs;
    }

    method Start()
      requires connection.Wired() && connection.context == this
      modifies connection, this, c1s1, digest
      ensures connection.Wired() && connection.context == this
      ensures connection.Now() == Handshakes.Start(world, old(connection.Now()))
    {
      CreateC1S1();
      if isClient {
        state := WaitS0S1;
        connection.Send(c1s1[..]);
      } else {
        state := WaitC0C1;
      }
    }

    method WriteComplete()
      requires connection.Wired() && connection.context == this
      modifies connection, this
      ensures connection.Wired() && connection.context == this
      ensures connection.Now() == Handshakes.WriteComplete(old(connection.Now()))
      decreases Rank(state), 0
    {
      match state {
        case PostS0S1 =>
          state := PostS2;
          connection.Send(c2s2[..]);
        case PostS2 =>
          state := WaitC2;
        case PostC0C1 =>
          state := WaitS0S1;
        case PostC2 =>
          state := Done;
        case Doing =>
          state := Done;
        case _ =>
      }
    }
  }

  class TcpConnection {
    const messageBuffer: MsgBuffer
    /** The handshake that the message and write-complete callbacks find in the connection's context. */
    var context: RtmpHandShake?
    var ioVecList: seq<IoVec>
    var writing: bool
    var registered: bool
    var closed: bool
    /** The replies the kernel has yet to give. */
    var kernel: seq<Reply>
    ghost var accepted: seq<Byte>
    ghost var submitted: seq<Byte>
    ghost var received: seq<Byte>
    ghost var consumed: nat

    ghost predicate Wired()
      reads this, messageBuffer, context
    {
      && context != null && context.connection == this && context.Shape() && messageBuffer.Valid()
      && messageBuffer.buffer != context.digest
      && messageBuffer.buffer != context.c1s1 && messageBuffer.buffer != context.c2s2
    }

    ghost function Conn(): Conn
      reads this
    {
      SendQueue.Conn.Conn(ioVecList, writing, registered, closed, kernel, accepted, submitted)
    }

    ghost function Now(): Session
      requires Wired()
      reads this, messageBuffer, messageBuffer.buffer, context, context.digest, context.c1s1, context.c2s2
    {
      Session(Conn(), messageBuffer.Contents(), context.Fields(), received, consumed)
    }

    /** A connection the server has accepted and registered with its loop. */
    constructor (kernel: seq<Reply>)
      ensures fresh(messageBuffer) && fresh(messageBuffer.buffer) && context == null
      ensures messageBuffer.Valid() && messageBuffer.Contents() == []
      ensures Conn() == Accepted(kernel) && received == [] && consumed == 0
    {
      messageBuffer := new MsgBuffer(INITIAL_SIZE);
      context := null;
      ioVecList, writing, registered, closed := [], false, true, false;
      this.kernel := kernel;
      accepted, submitted, received, consumed := [], [], [], 0;
    }

    method Send(buf: seq<Byte>)
      requires Wired()
      modifies this, context
      ensures Wired() && context == old(context)
      ensures Now() == Handshakes.Send(old(Now()), buf)
      decreases Rank(context.state), 2
    {
      if closed {
        return;
      }
      SendInLoop(buf);
    }

    method SendInLoop(buf: seq<Byte>)
      requires Wired()
      modifies this, context
      ensures Wired() && context == old(context)
      ensures Now() == Handshakes.Send(old(Now()), buf)
      decreases Rank(context.state), 1
    {
      if closed {
        return;
      }
      submitted := submitted + buf;
      var size := |buf|;
      var sendLen := 0;
      if ioVecList == [] {
        var fatal;
        sendLen, fatal := Write(buf);
        size := size - sendLen;
        if size == 0 {
          context.WriteComplete();
          return;
        }
      }
      if size > 0 {
        ioVecList := ioVecList + [Span(buf, sendLen, size)];
        EnableWriting(true);
      }
    }

    /** `write` or `writev`. */
    method Write(bytes: seq<Byte>) returns (n: nat, fatal: bool)
      modifies `kernel, `accepted
      ensures KernelWrite(old(Conn()), bytes) == Written(Conn(), n, fatal)
    {
      n, fatal := 0, false;
      if kernel != [] {
        n, fatal := Min(kernel[0].count, |bytes|), kernel[0].fatal;
        kernel := kernel[1..];
        accepted := accepted + bytes[..n];
      }
    }

    method EnableWriting(enable: bool)
      modifies `writing
      ensures Conn() == SendQueue.EnableWriting(old(Conn()), enable)
    {
      if registered {
        writing := enable;
      }
    }

    method SendListInLoop(bufs: seq<seq<Byte>>)
      modifies `ioVecList, `submitted, `writing
      ensures Sent(Conn(), false) == SendList(old(Conn()), bufs)
    {
      if closed {
        return;
      }
      ghost var was := ioVecList;
      submitted := submitted + Concat(bufs);
      for i := 0 to |bufs|
        invariant ioVecList == was + Wholes(bufs)[..i]
        invariant submitted == old(submitted) + Concat(bufs) && writing == old(writing)
      {
        ioVecList := ioVecList + [Whole(bufs[i])];
      }
      assert Wholes(bufs)[..|bufs|] == Wholes(bufs);
      if ioVecList != [] {
        EnableWriting(true);
      }
    }

    method OnClose()
      modifies `registered, `closed
      ensures Conn() == SendQueue.OnClose(old(Conn()))
    {
      if closed {
        return;
      }
      registered := false; // the close callback removes the connection from its loop
      closed := true;
    }

    /** The loops of `onWrite`: true when the list has drained and the callback is due. */
    method DrainLoop() returns (complete: bool)
      requires !closed && ioVecList != []
      modifies `ioVecList, `writing, `registered, `closed, `kernel, `accepted
      ensures Sent(Conn(), complete) == Drain(old(Conn()))
    {
      hide Pending, Consume;
      while true
        invariant !closed && ioVecList != []
        invariant Drain(Conn()) == Drain(old(Conn()))
        decreases |Pending(ioVecList)|
      {
        ConsumePending(ioVecList, 0);
        var sendLen: nat, fatal := Write(Pending(ioVecList));
        if sendLen > 0 {
          ConsumePending(ioVecList, sendLen);
          ConsumeLoop(sendLen);
          if ioVecList == [] {
            EnableWriting(false);
            return true;
          }
        } else {
          if fatal {
            OnClose();
          }
          return false;
        }
      }
    }

    /** The inner loop: drop what the kernel took from the front of the list. */
    method ConsumeLoop(count: nat)
      requires count <= |Pending(ioVecList)| && ioVecList != []
      modifies `ioVecList
      ensures ioVecList == Consume(old(ioVecList), count)
    {
      hide Pending, Consume;
      var sendLen := count;
      while sendLen > 0
        invariant 0 <= sendLen <= |Pending(ioVecList)| && ioVecList != []
        invariant Consume(ioVecList, sendLen) == Consume(old(ioVecList), count)
        decreases sendLen, |ioVecList|
      {
        var front := ioVecList[0];
        ConsumeStep(ioVecList, sendLen);
        if sendLen < front.len {
          ioVecList := [Span(front.buf, front.base + sendLen, front.len - sendLen)] + ioVecList[1..];
          return;
        } else {
          sendLen := sendLen - front.len;
          ioVecList := ioVecList[1..];
        }
        if ioVecList == [] {
          ConsumeNothing(ioVecList, sendLen);
          return;
        }
      }
      ConsumeNothing(ioVecList, sendLen);
    }

    method OnWrite()
      requires Wired()
      modifies this, context
      ensures Wired() && context == old(context)
      ensures Now() == NetStep(context.world, old(Now()), Drained)
    {
      if closed {
        return;
      }
      if ioVecList != [] {
        var complete := DrainLoop();
        if complete {
          context.WriteComplete();
        }
      } else {
        EnableWriting(false);
        context.WriteComplete();
      }
    }

    /** The message callback: a refusal, and any answer that is not 0 or 1, closes the connection. */
    method OnMessage()
      requires Wired() && !closed
      modifies this, context, context.c2s2, messageBuffer
      ensures Wired() && context == old(context) && messageBuffer.buffer == old(messageBuffer.buffer)
      ensures messageBuffer.Indices() == Drawn(old(messageBuffer.Indices()), consumed - old(consumed))
      ensures Now() == Handshakes.OnMessage(context.world, old(Now()))
    {
      hide Handshakes.OnHandshake;
      var ret := context.OnHandshake();
      if ret != 0 && ret != 1 {
        OnClose();
      }
    }

    /** One turn of the read loop: `readFd` and the callback. */
    method ReadOnce(data: seq<Byte>) returns (ghost chunk: seq<Byte>)
      requires Wired() && !closed && data != []
      modifies this, context, context.c2s2, messageBuffer, messageBuffer.buffer
      ensures Wired() && context == old(context)
      ensures messageBuffer.buffer == old(messageBuffer.buffer) || fresh(messageBuffer.buffer)
      ensures chunk == data[..Min(|data|, old(messageBuffer.Indices()).ReadCapacity())] && chunk != []
      ensures messageBuffer.Indices() == AfterChunk(context.world, old(Now()), old(messageBuffer.Indices()), chunk)
      ensures Now() == NetStep(context.world, old(Now()), Recv(chunk))
    {
      hide Handshakes.OnMessage;
      ghost var was := Now();
      var n := messageBuffer.ReadFd(Some(data));
      chunk := data[..n];
      received := received + chunk;
      assert n > 0;
      assert Now() == was.(input := was.input + chunk, received := was.received + chunk);
      OnMessage();
    }

    /** `onRead`: read until the kernel has no more, the peer has closed, or reading fails. */
    method OnRead(results: seq<ReadResult>) returns (ghost chunks: seq<seq<Byte>>, ghost ending: Ending)
      requires Wired()
      modifies this, context, context.c2s2, messageBuffer, messageBuffer.buffer
      ensures Wired() && context == old(context)
      ensures messageBuffer.buffer == old(messageBuffer.buffer) || fresh(messageBuffer.buffer)
      ensures HeardFrom(context.world, old(Now()), old(messageBuffer.Indices()), results, chunks, ending)
      ensures Now() == NetRun(context.world, old(Now()), Reads(chunks, ending))
      ensures ending != WouldBlock ==> closed
    {
      hide NetStep, NetRun, Reads, AfterChunk;
      ghost var world, start, geometry := context.world, Now(), messageBuffer.Indices();
      chunks, ending := [], WouldBlock;
      assert Heard(world, start, []) == start by { NothingHeard(world, start); }
      if closed {
        return;
      }
      for i := 0 to |results|
        invariant Wired() && context == old(context) && context.world == world
        invariant messageBuffer.buffer == old(messageBuffer.buffer) || fresh(messageBuffer.buffer)
        invariant ending == WouldBlock && |chunks| == i && Now() == Heard(world, start, chunks)
        invariant messageBuffer.Indices() == BufferAt(world, start, geometry, chunks)
        invariant Received(world, start, geometry, results, chunks)
      {
        if closed {
          return; // closed by the callback: the next read fails on the closed descriptor
        }
        match results[i] {
          case Available(data) =>
            if data == [] {
              OnClose();
              HeardEnding(world, start, chunks, PeerClosed);
              ending := PeerClosed;
              return;
            }
            ghost var chunk := ReadOnce(data);
            HeardMore(world, start, geometry, chunks, chunk);
            ReceivedMore(world, start, geometry, results, chunks, chunk);
            chunks := chunks + [chunk];
          case Failed(fatal) =>
            if fatal {
              OnClose();
              HeardEnding(world, start, chunks, ReadError);
              ending := ReadError;
            }
            return;
        }
      }
    }

    /** At any point of a server connection's life. */
    lemma ObjectIsSafe(first: seq<Reply>, es: seq<NetEvent>)
      requires Wired() && Now() == NetRun(context.world, Server(context.world, first), es)
      ensures accepted <= Expected(context.world, received)
              && (context.state == WaitC2 || context.state == Done ==> |accepted| == 3073)
              && (context.state == Done ==> consumed == 3073)
              && consumed <= |received| && received[..consumed] + messageBuffer.Contents() == received
              && (registered ==> (writing <==> ioVecList != []))
    {
      ServerIsSafe(context.world, first, es);
      StartInv(context.world, first);
      NetRunInv(context.world, Server(context.world, first), es);
      assert Now().conn == Conn();
    }
  }

  /** What `read` gives: bytes, none of them when the peer has closed, or an error that may only mean
      that there is nothing now. */
  datatype ReadResult = Available(data: seq<Byte>) | Failed(fatal: bool)

  lemma ClosesOn(w: World, s: Session, e: NetEvent)
    requires e == Hangup || (e == Recv([]) && !s.conn.closed)
    ensures NetStep(w, s, e) == s.(conn := SendQueue.OnClose(s.conn))
  {
  }

  /** The buffer's indices after `n` bytes were retrieved by the callback, if it retrieved any. */
  ghost function Drawn(g: Geometry, n: int): (r: Geometry)
    requires g.Ok()
    ensures r.Ok()
  {
    if 0 < n <= g.Readable() then g.Retrieve(n) else g
  }

  /** The indices after one read of this chunk and its message callback. */
  ghost function AfterChunk(w: World, s: Session, g: Geometry, chunk: seq<Byte>): (r: Geometry)
    requires g.Ok()
    ensures r.Ok()
  {
    Drawn(g.ReadFd(Min(|chunk|, g.ReadCapacity())), NetStep(w, s, Recv(chunk)).consumed - s.consumed)
  }

  /** The session after these chunks. */
  ghost function Heard(w: World, s: Session, chunks: seq<seq<Byte>>): Session {
    NetRun(w, s, Reads(chunks, WouldBlock))
  }

  /** The indices after them. */
  ghost function BufferAt(w: World, s: Session, g: Geometry, chunks: seq<seq<Byte>>): (r: Geometry)
    requires g.Ok()
    ensures r.Ok()
    decreases |chunks|
  {
    if chunks == [] then g
    else
      var before := chunks[..|chunks| - 1];
      AfterChunk(w, Heard(w, s, before), BufferAt(w, s, g, before), chunks[|chunks| - 1])
  }

  /** Each chunk is what the kernel had, up to what the buffer took in one read, read by an open
      connection. */
  ghost predicate Received(w: World, s: Session, g: Geometry, results: seq<ReadResult>, chunks: seq<seq<Byte>>)
    requires g.Ok()
  {
    && |chunks| <= |results|
    && forall i :: 0 <= i < |chunks| ==>
         && !Heard(w, s, chunks[..i]).conn.closed
         && results[i].Available? && results[i].data != []
         && chunks[i] == results[i].data[..Min(|results[i].data|, BufferAt(w, s, g, chunks[..i]).ReadCapacity())]
  }

  /** One `onRead`, given what each read gives: it reads until the first result that is not data, the end
      of the results, or the close of the connection, and closes it for an end of stream or an error. */
  ghost predicate HeardFrom(w: World, s: Session, g: Geometry, results: seq<ReadResult>,
                            chunks: seq<seq<Byte>>, ending: Ending)
    requires g.Ok()
  {
    var n, open := |chunks|, !Heard(w, s, chunks).conn.closed;
    && Received(w, s, g, results, chunks)
    && (ending == PeerClosed <==> open && n < |results| && results[n] == Available([]))
    && (ending == ReadError <==> open && n < |results| && results[n] == Failed(true))
    && (ending == WouldBlock ==> !open || n == |results| || results[n] == Failed(false))
  }

  lemma SendRetrievesNothing(s: Session, buf: seq<Byte>)
    ensures Handshakes.Send(s, buf).consumed == s.consumed
    decreases Rank(s.hs.state), 1
  {
    var t := s.(conn := SendBuffer(s.conn, buf).conn);
    if SendBuffer(s.conn, buf).complete { CompletionRetrievesNothing(t); }
  }

  lemma CompletionRetrievesNothing(s: Session)
    ensures Handshakes.WriteComplete(s).consumed == s.consumed
    decreases Rank(s.hs.state), 0
  {
    if s.hs.state.PostS0S1? { SendRetrievesNothing(s.(hs := s.hs.(state := PostS2)), s.hs.c2s2); }
  }

  lemma NothingHeard(w: World, s: Session)
    ensures Heard(w, s, []) == s
  {
  }

  lemma ClosedHearsNothing(w: World, s: Session, g: Geometry, results: seq<ReadResult>)
    requires g.Ok() && s.conn.closed
    ensures HeardFrom(w, s, g, results, [], WouldBlock)
  {
    NothingHeard(w, s);
  }

  lemma HeardEnding(w: World, s: Session, chunks: seq<seq<Byte>>, ending: Ending)
    requires ending != WouldBlock && !Heard(w, s, chunks).conn.closed
    ensures var t := Heard(w, s, chunks);
            NetRun(w, s, Reads(chunks, ending)) == t.(conn := SendQueue.OnClose(t.conn))
  {
    hide NetStep, NetRun;
    var e := if ending == PeerClosed then Recv([]) else Hangup;
    assert Reads(chunks, ending) == Reads(chunks, WouldBlock) + [e];
    NetRunSnoc(w, s, Reads(chunks, WouldBlock), e);
    ClosesOn(w, Heard(w, s, chunks), e);
  }

  lemma HeardMore(w: World, s: Session, g: Geometry, chunks: seq<seq<Byte>>, chunk: seq<Byte>)
    requires g.Ok()
    ensures Heard(w, s, chunks + [chunk]) == NetStep(w, Heard(w, s, chunks), Recv(chunk))
    ensures BufferAt(w, s, g, chunks + [chunk])
            == AfterChunk(w, Heard(w, s, chunks), BufferAt(w, s, g, chunks), chunk)
  {
    hide NetStep, NetRun, AfterChunk;
    assert Reads(chunks + [chunk], WouldBlock) == Reads(chunks, WouldBlock) + [Recv(chunk)];
    NetRunSnoc(w, s, Reads(chunks, WouldBlock), Recv(chunk));
    assert (chunks + [chunk])[..|chunks|] == chunks;
  }

  lemma ReceivedMore(w: World, s: Session, g: Geometry, results: seq<ReadResult>, chunks: seq<seq<Byte>>,
                     chunk: seq<Byte>)
    requires g.Ok() && Received(w, s, g, results, chunks) && |chunks| < |results|
    requires var next := results[|chunks|];
             && !Heard(w, s, chunks).conn.closed && next.Available? && next.data != []
             && chunk == next.data[..Min(|next.data|, BufferAt(w, s, g, chunks).ReadCapacity())]
    ensures Received(w, s, g, results, chunks + [chunk])
  {
    hide Heard, BufferAt;
    var more := chunks + [chunk];
    forall i | 0 <= i <= |chunks| ensures more[..i] == chunks[..i] {
    }
    assert chunks[..|chunks|] == chunks;
  }

  /** What one `onRead` hears is determined by what the kernel has for it. */
  lemma HearingIsDetermined(w: World, s: Session, g: Geometry, results: seq<ReadResult>,
                            a: seq<seq<Byte>>, x: Ending, b: seq<seq<Byte>>, y: Ending)
    requires g.Ok() && HeardFrom(w, s, g, results, a, x) && HeardFrom(w, s, g, results, b, y)
    ensures a == b && x == y
  {
    hide Heard, BufferAt;
    SamePrefix(w, s, g, results, a, b, if |a| < |b| then |a| else |b|);
    assert a[..|a|] == a && b[..|b|] == b;
  }

  lemma {:induction false} SamePrefix(w: World, s: Session, g: Geometry, results: seq<ReadResult>,
                                      a: seq<seq<Byte>>, b: seq<seq<Byte>>, n: nat)
    requires g.Ok() && Received(w, s, g, results, a) && Received(w, s, g, results, b)
    requires n <= |a| && n <= |b|
    ensures a[..n] == b[..n]
  {
    hide Heard, BufferAt;
    if n > 0 {
      SamePrefix(w, s, g, results, a, b, n - 1);
      assert a[..n] == a[..n - 1] + [a[n - 1]] && b[..n] == b[..n - 1] + [b[n - 1]];
    }
  }

  /** A read of up to 64 KiB is heard whole, whatever is in the buffer. */
  lemma ShortReadsAreWhole(w: World, s: Session, g: Geometry, results: seq<ReadResult>, chunks: seq<seq<Byte>>,
                           ending: Ending, i: nat)
    requires g.Ok() && HeardFrom(w, s, g, results, chunks, ending)
    requires i < |chunks| && |results[i].data| <= 65536
    ensures chunks[i] == results[i].data
  {
    assert BufferAt(w, s, g, chunks[..i]).ReadCapacity() >= 65536;
  }

  lemma {:induction false} NetRunSnoc(w: World, s: Session, es: seq<NetEvent>, e: NetEvent)
    ensures NetRun(w, s, es + [e]) == NetStep(w, NetRun(w, s, es), e)
    decreases |es|
  {
    hide NetStep;
    if es == [] {
      assert ([] + [e])[1..] == [];
      assert NetRun(w, NetStep(w, s, e), []) == NetStep(w, s, e);
    } else {
      assert (es + [e])[1..] == es[1..] + [e];
      NetRunSnoc(w, NetStep(w, s, es[0]), es[1..], e);
    }
  }

  /** A server connection from `accept` on: its callbacks, then bytes and writability in any order. */
  method Accept(world: World, kernel: seq<Reply>) returns (conn: TcpConnection)
    ensures fresh(conn) && conn.Wired() && fresh(conn.context) && fresh(conn.messageBuffer)
    ensures conn.context.world == world && conn.Now() == Server(world, kernel)
  {
    conn := new TcpConnection(kernel);
    var hs := new RtmpHandShake(world, conn, false);
    conn.context := hs;
    assert conn.Now() == NewSession(kernel, false);
    hs.Start();
  }
}
