/** The books of `src/network/TcpServer.cpp` and its `src/network/net/Acceptor.cpp`: which connections the
    server holds, which descriptors its loop knows (`EventLoop::addEvent`, `removeEvent`), which the kernel
    watches for it, and which are open. */
module ServerBooks {
  import opened Bytes

  type ConnId = nat

  /** Descriptors the loop watches for itself (its pipe), the listener's, and those of connections. */
  datatype Owner = Own | Listener | Of(id: ConnId)

  /** `closing` are connections whose close callback has run and whose descriptor is still open; `watched`
      is the kernel's list, from which closing a descriptor removes it. */
  datatype Books = Books(connections: map<ConnId, int>, closing: map<ConnId, int>, listener: Option<int>,
                         events: map<int, Owner>, watched: set<int>, open: set<int>, next: ConnId)

  datatype Action =
    | Accept(fd: int)        // the kernel hands out a descriptor that is not open
    | CloseCallback(id: ConnId)
    | CloseDescriptor(id: ConnId)
    | Listen(socket: Option<int>)  // Acceptor::open; none if there is no socket to be had
    | StopListening            // Acceptor::stop
    | Reopen(socket: Option<int>)  // Acceptor::onClose, when accepting fails: stop, then open

  /** `addEvent`: a descriptor that is already known is only logged. */
  function AddEvent(b: Books, fd: int, owner: Owner): Books {
    if fd in b.events then b else b.(events := b.events[fd := owner], watched := b.watched + {fd})
  }

  function RemoveEvent(b: Books, fd: int): Books {
    if fd in b.events then b.(events := b.events - {fd}, watched := b.watched - {fd}) else b
  }

  /** `::close`. */
  function Close(b: Books, fd: int): Books { b.(open := b.open - {fd}, watched := b.watched - {fd}) }

  function Unlisten(b: Books): Books { if b.listener.Some? then RemoveEvent(b, b.listener.value) else b }

  /** The descriptor the acceptor has is closed first, so the kernel may hand it out again. */
  function OpenListener(b: Books, fd: Option<int>): Books {
    var b1 := if b.listener.Some? then Close(b, b.listener.value).(listener := None) else b;
    if fd.None? || fd.value in b1.open then b1
    else AddEvent(b1.(listener := fd, open := b1.open + {fd.value}), fd.value, Listener)
  }

  function Step(b: Books, a: Action): Books {
    match a
    case Accept(fd) =>
      if fd in b.open then b
      else AddEvent(b.(open := b.open + {fd}, connections := b.connections[b.next := fd], next := b.next + 1),
                    fd, Of(b.next))
    case CloseCallback(id) =>
      if id !in b.connections then b
      else RemoveEvent(b.(connections := b.connections - {id}, closing := b.closing[id := b.connections[id]]),
                       b.connections[id])
    case CloseDescriptor(id) =>
      if id !in b.closing then b else Close(b, b.closing[id]).(closing := b.closing - {id})
    case Listen(fd) => OpenListener(b, fd)
    case StopListening => Unlisten(b)
    case Reopen(fd) => OpenListener(Unlisten(b), fd)
  }

  function Run(b: Books, actions: seq<Action>): Books
    decreases |actions|
  {
    if actions == [] then b else Run(Step(b, actions[0]), actions[1..])
  }

  /** A loop with its own descriptors, no listener and no connections. */
  function Start(own: set<int>): Books {
    Books(map[], map[], None, map fd | fd in own :: Own, own, own, 0)
  }

  predicate Listening(b: Books) {
    b.listener.Some? && b.listener.value in b.events && b.events[b.listener.value].Listener?
  }

  /** The server is started once, or again after a stop. */
  predicate StartsAreApart(b: Books, actions: seq<Action>)
    decreases |actions|
  {
    actions == [] || ((actions[0].Listen? ==> !Listening(b)) && StartsAreApart(Step(b, actions[0]), actions[1..]))
  }

  ghost predicate ConnectionsInv(b: Books) {
    // every connection is registered under its descriptor, and no other connection is registered
    && (forall id :: id in b.connections ==> b.connections[id] in b.events && b.events[b.connections[id]] == Of(id))
    && (forall fd :: fd in b.events && b.events[fd].Of? ==>
          b.events[fd].id in b.connections && b.connections[b.events[fd].id] == fd)
    // what is closing is open, unregistered, and one connection's
    && (forall id :: id in b.closing ==> b.closing[id] in b.open && b.closing[id] !in b.events)
    && (forall i, j :: i in b.closing && j in b.closing && i != j ==> b.closing[i] != b.closing[j])
    && (forall id :: id in b.connections || id in b.closing ==> id < b.next)
    && b.connections.Keys !! b.closing.Keys
  }

  ghost predicate Inv(b: Books, own: set<int>) {
    && ConnectionsInv(b)
    // the loop's own descriptors stay registered, and are nobody else's
    && (forall fd :: fd in own <==> fd in b.events && b.events[fd].Own?)
    // the listener's is open, not closing, and the only one registered as such
    && (forall fd :: fd in b.events && b.events[fd].Listener? ==> b.listener == Some(fd))
    && (b.listener.Some? ==>
          && b.listener.value in b.open
          && (b.listener.value in b.events ==> b.events[b.listener.value].Listener?)
          && (forall id :: id in b.closing ==> b.closing[id] != b.listener.value))
    // what is registered is open, and is what the kernel watches
    && b.events.Keys <= b.open && b.watched == b.events.Keys
  }

  lemma UnlistenInv(b: Books, own: set<int>)
    requires Inv(b, own)
    ensures Inv(Unlisten(b), own) && !Listening(Unlisten(b))
  {
  }

  lemma OpenListenerInv(b: Books, own: set<int>, fd: Option<int>)
    requires Inv(b, own) && !Listening(b)
    ensures Inv(OpenListener(b, fd), own)
  {
  }

  lemma AcceptInv(b: Books, own: set<int>, fd: int)
    requires Inv(b, own)
    ensures Inv(Step(b, Accept(fd)), own)
  {
    if fd !in b.open { assert fd !in b.events; }
  }

  lemma CloseCallbackInv(b: Books, own: set<int>, id: ConnId)
    requires Inv(b, own)
    ensures Inv(Step(b, CloseCallback(id)), own)
  {
    var b' := Step(b, CloseCallback(id));
    if id in b.connections {
      assert b'.connections.Keys == b.connections.Keys - {id};
      assert b'.closing.Keys == b.closing.Keys + {id};
    }
  }

  lemma CloseDescriptorInv(b: Books, own: set<int>, id: ConnId)
    requires Inv(b, own)
    ensures Inv(Step(b, CloseDescriptor(id)), own)
  {
  }

  lemma StepInv(b: Books, own: set<int>, a: Action)
    requires Inv(b, own) && (a.Listen? ==> !Listening(b))
    ensures Inv(Step(b, a), own)
  {
    hide Inv, Listening, OpenListener, Unlisten;
    match a {
      case Accept(fd) => AcceptInv(b, own, fd);
      case CloseCallback(id) => CloseCallbackInv(b, own, id);
      case CloseDescriptor(id) => CloseDescriptorInv(b, own, id);
      case Listen(fd) => OpenListenerInv(b, own, fd);
      case StopListening => UnlistenInv(b, own);
      case Reopen(fd) =>
        UnlistenInv(b, own);
        OpenListenerInv(Unlisten(b), own, fd);
    }
  }

  lemma {:induction false} RunInv(b: Books, own: set<int>, actions: seq<Action>)
    requires Inv(b, own) && StartsAreApart(b, actions)
    ensures Inv(Run(b, actions), own)
    decreases |actions|
  {
    hide Inv, Step;
    if actions != [] {
      StepInv(b, own, actions[0]);
      RunInv(Step(b, actions[0]), own, actions[1..]);
    }
  }

  /** In every reachable state: the loop watches exactly its own descriptors, the listener's while it
      listens, and those of the server's connections, and so does the kernel; connections have distinct
      descriptors; all of them are open; and a descriptor the kernel can hand out is not registered, so
      `addEvent` never finds it. */
  lemma BooksAgree(own: set<int>, actions: seq<Action>)
    requires StartsAreApart(Start(own), actions)
    ensures var b := Run(Start(own), actions);
            && (forall fd :: fd in b.events <==>
                  || fd in own
                  || (Listening(b) && b.listener == Some(fd))
                  || exists id :: id in b.connections && b.connections[id] == fd)
            && b.watched == b.events.Keys
            && (forall id :: id in b.connections ==> b.connections[id] !in own && b.listener != Some(b.connections[id]))
            && (forall i, j :: i in b.connections && j in b.connections && i != j ==>
                  b.connections[i] != b.connections[j])
            && (forall id :: id in b.connections ==> b.connections[id] in b.open)
            && (forall fd :: fd !in b.open ==> fd !in b.events)
  {
    RunInv(Start(own), own, actions);
  }

  lemma {:induction false} GoneForGood(b: Books, id: ConnId, actions: seq<Action>)
    requires id !in b.connections && id < b.next
    ensures id !in Run(b, actions).connections
    decreases |actions|
  {
    if actions != [] { GoneForGood(Step(b, actions[0]), id, actions[1..]); }
  }

  /** The server holds a connection, under the descriptor it was accepted with, exactly until its close
      callback has run. */
  lemma {:induction false} HeldUntilClosed(b: Books, id: ConnId, actions: seq<Action>)
    requires id in b.connections && id < b.next
    ensures id in Run(b, actions).connections <==> CloseCallback(id) !in actions
    ensures id in Run(b, actions).connections ==> Run(b, actions).connections[id] == b.connections[id]
    decreases |actions|
  {
    if actions != [] {
      var b' := Step(b, actions[0]);
      if actions[0] == CloseCallback(id) {
        GoneForGood(b', id, actions[1..]);
      } else {
        HeldUntilClosed(b', id, actions[1..]);
      }
    }
  }

  /** Accepting holds and registers the connection; its close callback and the closing of its descriptor
      then leave everything as it was, but that its number is used up. */
  lemma AcceptThenCloseRestores(b: Books, own: set<int>, fd: int)
    requires Inv(b, own) && fd !in b.open
    ensures var b1 := Step(b, Accept(fd));
            var b2 := Step(b1, CloseCallback(b.next));
            && b1.connections == b.connections[b.next := fd] && fd in b1.events && fd in b1.watched && fd in b1.open
            && fd !in b2.events && fd !in b2.watched && fd in b2.open && b2.connections == b.connections
            && Step(b2, CloseDescriptor(b.next)) == b.(next := b.next + 1)
  {
    var b1 := Step(b, Accept(fd));
    var b2 := Step(b1, CloseCallback(b.next));
    var b3 := Step(b2, CloseDescriptor(b.next));
    assert b.next !in b.connections && b.next !in b.closing && fd !in b.events;
    assert b2.connections == b.connections;
    assert b3.closing == b.closing && b3.events == b.events;
  }

  /** The listener listens after it was opened with a new descriptor, and not after it was stopped or could
      not be opened; connections stay as they are. */
  lemma ListenerComesAndGoes(b: Books, own: set<int>, fd: int)
    requires Inv(b, own) && fd !in b.open
    ensures var listening, stopped := Step(b, Reopen(Some(fd))), Step(b, StopListening);
            && Listening(listening) && listening.listener == Some(fd) && fd in listening.watched
            && !Listening(stopped) && !Listening(Step(b, Reopen(None)))
            && listening.connections == stopped.connections == b.connections
            && (!Listening(b) ==> Listening(Step(b, Listen(Some(fd)))) && Step(b, Listen(Some(fd))).listener == Some(fd))
  {
  }

  /** Starting a server that already listens always breaks the books: its descriptor is closed while it is
      registered, so the kernel watches nothing for it any more, and the loop still has the old entry. In
      every other state starting keeps them. */
  lemma StartKeepsBooks(b: Books, own: set<int>, fd: Option<int>)
    requires Inv(b, own)
    ensures Inv(Step(b, Listen(fd)), own) <==> !Listening(b)
    ensures Listening(b) && fd.Some? && fd.value !in b.open - {b.listener.value} ==>
              var b' := Step(b, Listen(fd));
              b'.listener == fd && (fd == b.listener ==> fd.value !in b'.watched)
  {
    if Listening(b) {
      var was := b.listener.value;
      var b' := Step(b, Listen(fd));
      assert was in b'.events && (was !in b'.open || was !in b'.watched);
    } else {
      OpenListenerInv(b, own, fd);
    }
  }

  /** With the order of unregistering and closing turned round, a descriptor can be accepted again
      while it is registered, and the new connection is held but never watched. */
  lemma OrderMatters(own: set<int>, fd: int)
    requires fd !in own
    ensures var b := Step(Start(own), Accept(fd));
            var b' := Step(Close(b, fd), Accept(fd));
            && 1 in b'.connections && b'.connections[1] == fd && b'.events[fd] == Of(0)
            && fd !in b'.watched && !Inv(b', own)
  {
    var b := Step(Start(own), Accept(fd));
    var b' := Step(Close(b, fd), Accept(fd));
    assert 1 in b'.connections && b'.events[b'.connections[1]] != Of(1);
  }
}

/** The objects. */
module TcpServers {

  /** The part of a `TcpConnection` (an `Event`) the server and the loop share. */
  class Connection {
    var fd: int
    var closed: bool
    var reading: bool
    var writing: bool

    constructor (fd: int)
      ensures this.fd == fd && !closed && !reading && !writing
    {
      this.fd := fd;
      closed, reading, writing := false, false, false;
    }
  }

  class EventLoop {
    var events: map<int, Connection>

    constructor ()
      ensures events == map[]
    {
      events := map[];
    }

    method AddEvent(event: Connection)
      modifies this, event`reading, event`writing
      ensures if old(event.fd in events) then events == old(events) && unchanged(event)
              else events == old(events)[event.fd := event] && event.reading && !event.writing
    {
      if event.fd in events {
        return;
      }
      event.reading, event.writing := true, false;
      events := events[event.fd := event];
    }

    method RemoveEvent(event: Connection)
      modifies this
      ensures events == old(events) - {event.fd}
    {
      if event.fd !in events {
        return;
      }
      events := events - {event.fd};
    }

    method EnableEventWriting(event: Connection, enable: bool)
      modifies event`writing
      ensures event.writing == if event.fd in events then enable else old(event.writing)
    {
      if event.fd !in events {
        return;
      }
      event.writing := enable;
    }
  }

  class TcpServer {
    const loop: EventLoop
    /** Descriptors the loop watched before: its pipe, and the listener. */
    ghost const own: set<int>
    var connections: set<Connection>
    /** Descriptors that are open, as the kernel has it. */
    ghost var open: set<int>

    ghost predicate Valid()
      reads this, loop, connections
    {
      && (forall c :: c in connections ==> !c.closed && c.fd != -1 && c.fd !in own
                                           && c.fd in loop.events && loop.events[c.fd] == c)
      && (forall fd :: fd in loop.events && fd !in own ==> loop.events[fd] in connections && loop.events[fd].fd == fd)
      && own <= loop.events.Keys <= open
    }

    constructor (loop: EventLoop, ghost open: set<int>)
      requires loop.events.Keys <= open
      ensures Valid() && this.loop == loop && connections == {} && this.open == open && own == loop.events.Keys
    {
      this.loop, connections, this.open, own := loop, {}, open, loop.events.Keys;
    }

    /** The descriptor comes from `accept`, so it was not open before. */
    method OnAccept(sockfd: int) returns (conn: Connection)
      requires Valid() && sockfd >= 0 && sockfd !in open
      modifies this, loop
      ensures Valid() && fresh(conn) && conn.fd == sockfd && conn.reading && !conn.writing
      ensures connections == old(connections) + {conn} && open == old(open) + {sockfd}
      ensures sockfd !in old(loop.events) && loop.events == old(loop.events)[sockfd := conn]
    {
      open := open + {sockfd};
      conn := new Connection(sockfd);
      connections := connections + {conn};
      loop.AddEvent(conn);
    }

    method OnConnectionClose(conn: Connection)
      requires Valid() && conn in connections
      modifies `connections, loop
      ensures connections == old(connections) - {conn} && loop.events == old(loop.events) - {conn.fd}
      ensures Valid() && conn.fd in open
    {
      connections := connections - {conn};
      loop.RemoveEvent(conn);
    }

    /** `TcpConnection::onClose`: the close callback first, then the descriptor. */
    method OnClose(conn: Connection)
      requires Valid() && (conn in connections || conn.closed)
      modifies this, loop, conn
      ensures Valid() && conn.closed && connections == old(connections) - {conn}
      ensures old(conn.closed) ==> unchanged(loop) && unchanged(conn) && open == old(open)
      ensures !old(conn.closed) ==>
                conn.fd == -1 && loop.events == old(loop.events) - {old(conn.fd)} && open == old(open) - {old(conn.fd)}
    {
      if conn.closed {
        return;
      }
      OnConnectionClose(conn);
      conn.closed := true;
      if conn.fd != -1 {
        open := open - {conn.fd};
        conn.fd := -1;
      }
    }
  }
}
