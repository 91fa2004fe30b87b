/** One server connection as a whole: its bytes and handshake, and its share of the timing wheels. The
    two meet in `onRead` and `onWrite`, which first extend its life, and in `onClose`, which either side
    may call. */
module ServerLife {
  import opened Bytes
  import SendQueue
  import opened Handshakes
  import opened HandshakeRuns
  import opened TimingWheels
  import opened TimingWheelRuns
  import opened Timers
  import opened IdleTimeout
  import opened RtmpServers

  datatype Life = Life(session: Session, guard: Guard)

  datatype LifeEvent =
    | Reading(chunks: seq<seq<Byte>>, ending: Ending)  // onRead: what each readFd gives, and why it stops
    | Writing                                          // onWrite
    | Closed                                           // onClose for any other reason
    | Limiting(entry: EntryId, limit: nat)             // enableCheckIdleTime
    | Turning(e: Event)                                // the loop turns its wheels, or others use them

  /** The part of an event that the session sees. */
  function ForSession(e: LifeEvent): seq<NetEvent> {
    match e
    case Reading(chunks, ending) => Reads(chunks, ending)
    case Writing => [Drained]
    case Closed => [Hangup]
    case _ => []
  }

  /** The part that the idle timer sees. */
  function ForGuard(e: LifeEvent): seq<GuardEvent> {
    match e
    case Reading(_, _) => [Activity]
    case Writing => [Activity]
    case Closed => [Closing]
    case Limiting(entry, limit) => [Enabling(entry, limit)]
    case Turning(e) => [Wheel(e)]
  }

  /** A connection that one side has closed is closed for the other. */
  function Joined(l: Life): Life {
    if l.session.conn.closed then l.(guard := IdleTimeout.OnClose(l.guard, ByPeer(l.guard.wheel.tick)))
    else if !l.guard.cause.Open? then l.(session := l.session.(conn := SendQueue.OnClose(l.session.conn)))
    else l
  }

  function LifeStep(w: World, l: Life, e: LifeEvent): Life {
    Joined(Life(NetRun(w, l.session, ForSession(e)), GuardRun(l.guard, ForGuard(e))))
  }

  function LifeRun(w: World, l: Life, es: seq<LifeEvent>): Life
    decreases |es|
  {
    if es == [] then l else LifeRun(w, LifeStep(w, l, es[0]), es[1..])
  }

  /** An accepted connection whose new-connection callback has started the handshake. */
  function NewLife(w: World, kernel: seq<SendQueue.Reply>, wheel: State): Life {
    Life(Server(w, kernel), NewGuard(wheel))
  }

  predicate Together(l: Life) { l.session.conn.closed <==> !l.guard.cause.Open? }

  /** The closing that the session owes to the timer. */
  function FromTimer(s: Session, g: Guard): seq<NetEvent> {
    if !s.conn.closed && !g.cause.Open? then [Hangup] else []
  }

  /** The closing that the timer owes to the session. */
  function FromSession(s: Session, g: Guard): seq<GuardEvent> {
    if s.conn.closed && g.cause.Open? then [Closing] else []
  }

  /** The events as the session saw them. */
  function SessionEvents(w: World, l: Life, es: seq<LifeEvent>): seq<NetEvent>
    decreases |es|
  {
    if es == [] then []
    else
      var s, g := NetRun(w, l.session, ForSession(es[0])), GuardRun(l.guard, ForGuard(es[0]));
      ForSession(es[0]) + FromTimer(s, g) + SessionEvents(w, LifeStep(w, l, es[0]), es[1..])
  }

  /** The events as the timer saw them. */
  function GuardEvents(w: World, l: Life, es: seq<LifeEvent>): seq<GuardEvent>
    decreases |es|
  {
    if es == [] then []
    else
      var s, g := NetRun(w, l.session, ForSession(es[0])), GuardRun(l.guard, ForGuard(es[0]));
      ForGuard(es[0]) + FromSession(s, g) + GuardEvents(w, LifeStep(w, l, es[0]), es[1..])
  }

  lemma {:induction false} NetRunConcat(w: World, s: Session, a: seq<NetEvent>, b: seq<NetEvent>)
    ensures NetRun(w, s, a + b) == NetRun(w, NetRun(w, s, a), b)
    decreases |a|
  {
    hide NetStep;
    if a == [] {
      assert a + b == b;
    } else {
      assert (a + b)[1..] == a[1..] + b;
      NetRunConcat(w, NetStep(w, s, a[0]), a[1..], b);
    }
  }

  /** The other side's closing is one more event. */
  lemma JoinedIsEvents(w: World, s: Session, g: Guard)
    ensures var l := Joined(Life(s, g));
            && Together(l)
            && l.session == NetRun(w, s, FromTimer(s, g)) && l.guard == GuardRun(g, FromSession(s, g))
  {
    var hangup, closing := [Hangup], [Closing];
    assert hangup[1..] == [] && closing[1..] == [];
    assert NetRun(w, s, hangup) == NetStep(w, s, Hangup) && GuardRun(g, closing) == GuardStep(g, Closing);
  }

  /** Every life is a run of the session and a run of the timer, which are closed together: all theorems
      about either hold of it. */
  lemma {:induction false} LifeIsBothRuns(w: World, l: Life, es: seq<LifeEvent>)
    requires Together(l)
    ensures var l' := LifeRun(w, l, es);
            && Together(l')
            && l'.session == NetRun(w, l.session, SessionEvents(w, l, es))
            && l'.guard == GuardRun(l.guard, GuardEvents(w, l, es))
    decreases |es|
  {
    hide ForSession, ForGuard, FromTimer, FromSession, Joined, NetStep, GuardStep;
    if es != [] {
      var l' := LifeStep(w, l, es[0]);
      var s, g := NetRun(w, l.session, ForSession(es[0])), GuardRun(l.guard, ForGuard(es[0]));
      JoinedIsEvents(w, s, g);
      LifeIsBothRuns(w, l', es[1..]);
      NetRunConcat(w, l.session, ForSession(es[0]), FromTimer(s, g));
      NetRunConcat(w, l.session, ForSession(es[0]) + FromTimer(s, g), SessionEvents(w, l', es[1..]));
      GuardRunConcat(l.guard, ForGuard(es[0]), FromSession(s, g));
      GuardRunConcat(l.guard, ForGuard(es[0]) + FromSession(s, g), GuardEvents(w, l', es[1..]));
    }
  }

  lemma {:induction false} LifeConcat(w: World, l: Life, a: seq<LifeEvent>, b: seq<LifeEvent>)
    ensures LifeRun(w, l, a + b) == LifeRun(w, LifeRun(w, l, a), b)
    ensures GuardEvents(w, l, a + b) == GuardEvents(w, l, a) + GuardEvents(w, LifeRun(w, l, a), b)
    decreases |a|
  {
    hide ForGuard, LifeStep;
    if a == [] {
      assert a + b == b;
    } else {
      assert (a + b)[1..] == a[1..] + b;
      LifeConcat(w, LifeStep(w, l, a[0]), a[1..], b);
    }
  }

  /** In every life: the close callback runs at most once; the kernel has taken a prefix of S0S1 ++ S2, and
      nothing before an accepted first message; the timer closes only at the first firing tick of the
      connection's entries, and an open connection has not reached it. */
  lemma LifeIsSafe(w: World, kernel: seq<SendQueue.Reply>, wheel: State, es: seq<LifeEvent>)
    requires Sound(wheel) && Private(NewGuard(wheel), GuardEvents(w, NewLife(w, kernel, wheel), es))
    ensures var l := LifeRun(w, NewLife(w, kernel, wheel), es);
            && (l.session.conn.closed <==> !l.guard.cause.Open?)
            && l.guard.closeCalls == (if l.session.conn.closed then 1 else 0)
            && l.session.conn.accepted <= Expected(w, l.session.received)
            && (l.session.conn.accepted != [] ==> Greeted(w, l.session.received))
            && (l.session.hs.state.WaitC2? || l.session.hs.state.Done? ==>
                  l.session.conn.accepted == Expected(w, l.session.received))
            && (l.guard.cause.ByTimer? ==> Earliest(l.guard.terms, l.guard.cause.tick))
            && (!l.session.conn.closed ==>
                  forall id :: id in l.guard.terms ==> l.guard.wheel.tick <= FireOf(l.guard.terms[id]))
  {
    hide NetRun, GuardRun, GuardEvents, SessionEvents, LifeRun, FireOf, Expected, Greeted;
    var l0 := NewLife(w, kernel, wheel);
    LifeIsBothRuns(w, l0, es);
    ServerIsSafe(w, kernel, SessionEvents(w, l0, es));
    IdleClose(wheel, GuardEvents(w, l0, es));
  }

  predicate Quiet(es: seq<LifeEvent>) { forall e :: e in es ==> e.Turning? }

  /** The wheels alone leave the session as it is, until the timer closes it. */
  lemma {:induction false} QuietRun(w: World, l: Life, es: seq<LifeEvent>)
    requires Together(l) && GuardInv(l.guard) && Private(l.guard, GuardEvents(w, l, es)) && Quiet(es)
    ensures var l' := LifeRun(w, l, es);
            && Together(l') && GuardInv(l'.guard) && l'.guard.terms == l.guard.terms
            && l'.session == l.session.(conn := if l'.session.conn.closed then SendQueue.OnClose(l.session.conn)
                                                else l.session.conn)
            && (l'.guard.cause == l.guard.cause || (l.guard.cause.Open? && l'.guard.cause.ByTimer?))
    decreases |es|
  {
    hide GuardInv, Private;
    if es != [] {
      assert es[0] in es;
      QuietStep(w, l, es[0], es[1..]);
      QuietRun(w, LifeStep(w, l, es[0]), es[1..]);
    }
  }

  lemma QuietStep(w: World, l: Life, e: LifeEvent, rest: seq<LifeEvent>)
    requires Together(l) && GuardInv(l.guard) && e.Turning? && Private(l.guard, GuardEvents(w, l, [e] + rest))
    ensures var l' := LifeStep(w, l, e);
            && Together(l') && GuardInv(l'.guard) && l'.guard.terms == l.guard.terms
            && Private(l'.guard, GuardEvents(w, l', rest))
            && l'.session == l.session.(conn := if l'.session.conn.closed then SendQueue.OnClose(l.session.conn)
                                                else l.session.conn)
            && (l'.guard.cause == l.guard.cause || (l.guard.cause.Open? && l'.guard.cause.ByTimer?))
  {
    hide GuardInv, Dies, TimingWheels.Step;
    var l', wheel := LifeStep(w, l, e), [Wheel(e.e)];
    assert ([e] + rest)[1..] == rest && wheel[1..] == [];
    assert ForSession(e) == [] && ForGuard(e) == wheel;
    assert GuardRun(l.guard, wheel) == Turn(l.guard, e.e);
    assert NetRun(w, l.session, []) == l.session;
    assert l' == Joined(Life(l.session, Turn(l.guard, e.e)));
    assert GuardEvents(w, l, [e] + rest) == wheel + GuardEvents(w, l', rest);
    PrivateConcat(l.guard, wheel, GuardEvents(w, l', rest));
    GuardRunInv(l.guard, wheel);
  }

  /** The one entry, with its term counted from the read or write that was last. */
  ghost predicate Waiting(g: Guard, entry: EntryId, limit: nat) {
    && GuardInv(g) && g.terms == map[entry := Term(g.wheel.tick, g.wheel.mid, limit)]
  }

  /** From the limit on, the connection has one entry. */
  lemma OneEntry(w: World, kernel: seq<SendQueue.Reply>, wheel: State, entry: EntryId, limit: nat,
                 before: seq<LifeEvent>)
    requires Sound(wheel) && 0 < limit < TOO_LONG
    requires forall e :: e in before ==> !e.Limiting?
    requires Private(NewGuard(wheel), GuardEvents(w, NewLife(w, kernel, wheel), [Limiting(entry, limit)] + before))
    ensures var l := LifeRun(w, NewLife(w, kernel, wheel), [Limiting(entry, limit)] + before);
            && Together(l) && GuardInv(l.guard) && l.guard.terms.Keys == {entry}
            && l.guard.terms[entry].limit == limit && l.guard.current == Some(entry)
  {
    hide Live, Dies, FireTick, InsertEntry, NetRun;
    var l0, es := NewLife(w, kernel, wheel), [Limiting(entry, limit)] + before;
    var gs := GuardEvents(w, l0, es);
    LifeIsBothRuns(w, l0, es);
    assert gs[0] == Enabling(entry, limit);
    RefusedExactly(wheel, entry, limit);
    GuardRunInv(NewGuard(wheel), gs);
    LimitsOnlyFirst(w, l0, es);
    SameEntries(GuardStep(NewGuard(wheel), gs[0]), gs[1..]);
  }

  lemma {:induction false} NoFurtherLimits(w: World, l: Life, es: seq<LifeEvent>)
    requires forall e :: e in es ==> !e.Limiting?
    ensures forall e :: e in GuardEvents(w, l, es) ==> !e.Enabling?
    decreases |es|
  {
    hide LifeStep;
    if es != [] {
      assert es[0] in es;
      NoFurtherLimits(w, LifeStep(w, l, es[0]), es[1..]);
    }
  }

  lemma LimitsOnlyFirst(w: World, l: Life, es: seq<LifeEvent>)
    requires es != [] && es[0].Limiting? && forall e :: e in es[1..] ==> !e.Limiting?
    ensures forall e :: e in GuardEvents(w, l, es)[1..] ==> !e.Enabling?
  {
    hide LifeStep;
    NoFurtherLimits(w, LifeStep(w, l, es[0]), es[1..]);
  }

  lemma LastActivity(w: World, l: Life, entry: EntryId, limit: nat, last: LifeEvent)
    requires Together(l) && GuardInv(l.guard) && l.guard.terms.Keys == {entry}
    requires l.guard.terms[entry].limit == limit && l.guard.current == Some(entry)
    requires last.Reading? || last.Writing?
    requires !LifeStep(w, l, last).session.conn.closed
    ensures Waiting(LifeStep(w, l, last).guard, entry, limit)
  {
    hide NetRun, Live, FireOf, Held, InsertEntry;
    assert [Activity][1..] == [];
    assert GuardRun(l.guard, [Activity]) == Touch(l.guard);
    TouchInv(l.guard);
  }

  lemma WaitedOut(w: World, l: Life, entry: EntryId, limit: nat, quiet: seq<LifeEvent>)
    requires Together(l) && !l.session.conn.closed && Waiting(l.guard, entry, limit) && Quiet(quiet)
    requires Private(l.guard, GuardEvents(w, l, quiet))
    ensures var l' := LifeRun(w, l, quiet);
            var due := FireTick(l.guard.wheel.tick, l.guard.wheel.mid, limit);
            && due <= l.guard.wheel.tick + limit
            && (due == l.guard.wheel.tick + limit <==> limit < TIMING_MINUTE)
            && (!l'.guard.wheel.mid ==> (l'.session.conn.closed <==> l'.guard.wheel.tick >= due))
            && (l'.session.conn.closed ==> l'.guard.cause == ByTimer(due) && l'.guard.closeCalls == 1)
  {
    hide LifeRun, FireTick, GuardEvents, Outstanding;
    QuietRun(w, l, quiet);
    var t := l.guard.terms[entry];
    Deadline(t.tick, t.mid, limit);
    var g := LifeRun(w, l, quiet).guard;
    LiveIffOutstanding(g.wheel, entry, t.tick, t.mid, limit);
    OutstandingUntilFireTick(g.wheel, t.tick, t.mid, limit);
  }

  /** A server that set one limit and then, after its last read or write, hears and sends nothing, is
      closed by the timer at the firing tick counted from that read or write, not before, once; and what
      it had sent of S0S1 ++ S2 by then is all that it ever sends. Under a minute, and so for the
      server's own 30, that is exactly `limit` ticks later. */
  lemma StalledServerIsClosed(w: World, kernel: seq<SendQueue.Reply>, wheel: State, entry: EntryId, limit: nat,
                              before: seq<LifeEvent>, last: LifeEvent, quiet: seq<LifeEvent>)
    requires Sound(wheel) && 0 < limit < TOO_LONG && Quiet(quiet) && (last.Reading? || last.Writing?)
    requires forall e :: e in before ==> !e.Limiting?
    requires Private(NewGuard(wheel), GuardEvents(w, NewLife(w, kernel, wheel),
                                                  [Limiting(entry, limit)] + before + [last] + quiet))
    requires var l := LifeRun(w, NewLife(w, kernel, wheel), [Limiting(entry, limit)] + before + [last]);
             !l.session.conn.closed
    ensures var l := LifeRun(w, NewLife(w, kernel, wheel), [Limiting(entry, limit)] + before + [last]);
            var l' := LifeRun(w, l, quiet);
            var due := FireTick(l.guard.wheel.tick, l.guard.wheel.mid, limit);
            && due <= l.guard.wheel.tick + limit
            && (due == l.guard.wheel.tick + limit <==> limit < TIMING_MINUTE)
            && (!l'.guard.wheel.mid ==> (l'.session.conn.closed <==> l'.guard.wheel.tick >= due))
            && (l'.session.conn.closed ==> l'.guard.cause == ByTimer(due) && l'.guard.closeCalls == 1)
            && l'.session.conn.accepted == l.session.conn.accepted <= Expected(w, l.session.received)
            && l'.session.hs == l.session.hs && l'.session.received == l.session.received
  {
    hide LifeRun, LifeStep, FireTick, GuardEvents, Private, Expected;
    var l0, es := NewLife(w, kernel, wheel), [Limiting(entry, limit)] + before;
    LifeConcat(w, l0, es + [last], quiet);
    LifeConcat(w, l0, es, [last]);
    var lb, l := LifeRun(w, l0, es), LifeRun(w, l0, es + [last]);
    PrivateConcat(NewGuard(wheel), GuardEvents(w, l0, es + [last]), GuardEvents(w, l, quiet));
    PrivateConcat(NewGuard(wheel), GuardEvents(w, l0, es), GuardEvents(w, lb, [last]));
    OneEntry(w, kernel, wheel, entry, limit, before);
    LifeOne(w, lb, last);
    LastActivity(w, lb, entry, limit, last);
    LifeIsBothRuns(w, l0, es + [last]);
    WaitedOut(w, l, entry, limit, quiet);
    QuietRun(w, l, quiet);
    LifeIsSafe(w, kernel, wheel, es + [last]);
  }

  lemma LifeOne(w: World, l: Life, e: LifeEvent)
    ensures LifeRun(w, l, [e]) == LifeStep(w, l, e)
  {
    hide LifeStep;
    assert [e][1..] == [];
    assert LifeRun(w, LifeStep(w, l, e), []) == LifeStep(w, l, e);
  }

  function Turnings(es: seq<Event>): (r: seq<LifeEvent>)
    ensures |r| == |es|
  {
    seq(|es|, i requires 0 <= i < |es| => Turning(es[i]))
  }

  /** Closing the session in the middle of the wheels' events or after them comes to the same. */
  lemma {:induction false} TurningsJoinOnce(w: World, l: Life, es: seq<Event>)
    requires Together(l)
    ensures LifeRun(w, l, Turnings(es)) == Joined(Life(l.session, GuardRun(l.guard, OnWheel(es))))
    ensures GuardEvents(w, l, Turnings(es)) == OnWheel(es)
    decreases |es|
  {
    hide TimingWheels.Step, Dies;
    if es == [] {
      assert Turnings(es) == [] && OnWheel(es) == [];
    } else {
      var e, l' := Turning(es[0]), LifeStep(w, l, Turning(es[0]));
      assert Turnings(es)[1..] == Turnings(es[1..]) && OnWheel(es)[1..] == OnWheel(es[1..]);
      assert ForSession(e) == [] && ForGuard(e) == [Wheel(es[0])] && [Wheel(es[0])][1..] == [];
      assert NetRun(w, l.session, []) == l.session && GuardRun(l.guard, [Wheel(es[0])]) == Turn(l.guard, es[0]);
      assert l' == Joined(Life(l.session, Turn(l.guard, es[0])));
      TurningsJoinOnce(w, l', es[1..]);
      if !l'.guard.cause.Open? { ClosedStays(l'.guard, OnWheel(es[1..])); }
    }
  }

  lemma {:induction false} ClosedStays(g: Guard, es: seq<GuardEvent>)
    requires !g.cause.Open?
    ensures !GuardRun(g, es).cause.Open?
    decreases |es|
  {
    hide TimingWheels.Step, Dies, Live;
    if es != [] { ClosedStays(GuardStep(g, es[0]), es[1..]); }
  }

  /** One more event at the end of a life. */
  lemma LifeSnoc(w: World, l0: Life, es: seq<LifeEvent>, e: LifeEvent)
    ensures var l := LifeRun(w, l0, es);
            var s, g := NetRun(w, l.session, ForSession(e)), GuardRun(l.guard, ForGuard(e));
            && LifeRun(w, l0, es + [e]) == Joined(Life(s, g))
            && GuardEvents(w, l0, es + [e]) == GuardEvents(w, l0, es) + (ForGuard(e) + FromSession(s, g))
  {
    hide ForSession, ForGuard, Joined, FromSession, NetRun, GuardRun;
    LifeConcat(w, l0, es, [e]);
    var l := LifeRun(w, l0, es);
    LifeOne(w, l, e);
    assert [e][1..] == [];
    assert GuardEvents(w, LifeStep(w, l, e), []) == [];
  }

  lemma ActiveSnoc(w: World, l0: Life, es: seq<LifeEvent>, e: LifeEvent)
    requires e.Reading? || e.Writing?
    requires var l := LifeRun(w, l0, es); Together(l) && !l.session.conn.closed
    ensures var s := NetRun(w, LifeRun(w, l0, es).session, ForSession(e));
            && LifeRun(w, l0, es + [e]).session == s
            && GuardEvents(w, l0, es + [e])
               == GuardEvents(w, l0, es) + [Activity] + if s.conn.closed then [Closing] else []
  {
    hide NetRun, LifeRun, GuardEvents, TimingWheels.Step, Live;
    LifeSnoc(w, l0, es, e);
    var g := LifeRun(w, l0, es).guard;
    assert [Activity][1..] == [];
    assert GuardRun(g, [Activity]) == Touch(g);
  }

  /** The whole of a server connection: its two parts, kept closed together. */
  class ServerConnection {
    const tcp: TcpConnection
    const idle: IdleConnection
    ghost const kernel: seq<SendQueue.Reply>
    ghost const world: World
    ghost var history: seq<LifeEvent>

    ghost function Born(): Life {
      NewLife(world, kernel, idle.origin)
    }

    ghost predicate Valid()
      requires tcp.Wired()
      reads this, tcp, tcp.messageBuffer, tcp.messageBuffer.buffer, tcp.context, tcp.context.digest
      reads tcp.context.c1s1, tcp.context.c2s2, idle, idle.loop
    {
      && idle.Valid() && tcp.context.world == world && tcp.closed == idle.closed
      && tcp.Now() == LifeRun(world, Born(), history).session
      && idle.trace == GuardEvents(world, Born(), history)
    }

    lemma Meaning()
      requires tcp.Wired() && Valid()
      ensures LifeRun(world, Born(), history) == Life(tcp.Now(), idle.GuardNow())
      ensures Together(LifeRun(world, Born(), history))
      ensures tcp.closed <==> tcp.Now().conn.closed
    {
      LifeIsBothRuns(world, Born(), history);
    }

    constructor (world: World, kernel: seq<SendQueue.Reply>, loop: TimingWheel)
      requires loop.Valid()
      ensures tcp.Wired() && Valid() && !tcp.closed && history == [] && fresh(tcp) && fresh(idle) && idle.loop == loop
    {
      var conn := Accept(world, kernel);
      tcp := conn;
      idle := new IdleConnection(loop);
      this.world, this.kernel, history := world, kernel, [];
    }

    /** `onRead`: the life is extended first, then everything is read. */
    method OnRead(results: seq<ReadResult>) returns (ghost chunks: seq<seq<Byte>>, ghost ending: Ending)
      requires tcp.Wired() && Valid()
      modifies this, tcp, tcp.context, tcp.context.c2s2, tcp.messageBuffer, tcp.messageBuffer.buffer, idle, idle.loop
      ensures tcp.Wired() && Valid()
      ensures HeardFrom(world, old(tcp.Now()), old(tcp.messageBuffer.Indices()), results, chunks, ending)
      ensures ending != WouldBlock ==> tcp.closed
      ensures history == old(history) + if old(tcp.closed) then [] else [Reading(chunks, ending)]
    {
      hide HeardFrom, GuardRun, GuardEvents, LifeRun, NewLife, Private, NetRun, FireOf, Reads;
      chunks, ending := [], WouldBlock;
      if tcp.closed {
        ClosedHearsNothing(world, tcp.Now(), tcp.messageBuffer.Indices(), results);
        return;
      }
      Meaning();
      idle.ExtendLife();
      chunks, ending := tcp.OnRead(results);
      ActiveSnoc(world, Born(), history, Reading(chunks, ending));
      if tcp.closed {
        idle.Close();
      }
      history := history + [Reading(chunks, ending)];
    }

    /** `onWrite`. */
    method OnWrite()
      requires tcp.Wired() && Valid()
      modifies this, tcp, tcp.context, idle, idle.loop
      ensures tcp.Wired() && Valid()
      ensures history == old(history) + if old(tcp.closed) then [] else [Writing]
    {
      hide GuardRun, GuardEvents, LifeRun, NewLife, Private, NetRun, FireOf, NetStep;
      if tcp.closed {
        return;
      }
      Meaning();
      idle.ExtendLife();
      ghost var was := tcp.Now();
      tcp.OnWrite();
      OneNetEvent(world, was, Drained);
      ActiveSnoc(world, Born(), history, Writing);
      if tcp.closed {
        idle.Close();
      }
      history := history + [Writing];
    }

    /** `forceClose`. */
    method Close()
      requires tcp.Wired() && Valid()
      modifies this, tcp, idle
      ensures tcp.Wired() && Valid() && tcp.closed
      ensures history == old(history) + if old(tcp.closed) then [] else [Closed]
    {
      hide GuardRun, GuardEvents, LifeRun, NewLife, Private, NetRun, FireOf, NetStep;
      if tcp.closed {
        return;
      }
      Meaning();
      ghost var was := tcp.Now();
      tcp.OnClose();
      OneNetEvent(world, was, Hangup);
      ClosesOn(world, was, Hangup);
      CloseSnoc(world, Born(), history);
      idle.Close();
      history := history + [Closed];
    }

    method EnableCheckIdleTime(timeout: nat) returns (ghost id: EntryId)
      requires tcp.Wired() && Valid()
      modifies this, tcp, idle, idle.loop
      ensures tcp.Wired() && Valid() && history == old(history) + [Limiting(id, timeout)]
      ensures tcp.closed <==> old(tcp.closed) || !(0 < timeout < TOO_LONG)
    {
      hide GuardRun, GuardEvents, LifeRun, NewLife, Private, NetRun, FireOf, NetStep;
      Meaning();
      id := idle.EnableCheckIdleTime(timeout);
      GuardRunConcat(NewGuard(idle.origin), old(idle.trace), [Enabling(id, timeout)]);
      LimitSnoc(world, Born(), history, id, timeout);
      if idle.closed {
        tcp.OnClose();
      }
      history := history + [Limiting(id, timeout)];
    }

    /** A turn of the loop's clock. */
    method OnTimer(now: int) returns (ghost during: seq<Event>, ghost after: seq<Event>)
      requires tcp.Wired() && Valid()
      modifies this, tcp, idle, idle.loop
      ensures tcp.Wired() && Valid()
      ensures idle.loop.lastTs == Clock(old(idle.loop.lastTs), now).0
      ensures TickRuns(old(idle.loop.Now()), old(idle.loop.lastTs), now, during, after, idle.loop.callbacks)
      ensures var es := TickEvents(old(idle.loop.lastTs), now, during, after);
              history == old(history) + Turnings(es) && idle.loop.trace == old(idle.loop.trace) + es
    {
      hide Destroyed, TickRuns, GuardRun, GuardEvents, LifeRun, NewLife, Private, NetRun, FireOf, NetStep;
      Meaning();
      during, after := idle.OnTimer(now);
      ghost var es := TickEvents(old(idle.loop.lastTs), now, during, after);
      GuardRunConcat(NewGuard(idle.origin), old(idle.trace), OnWheel(es));
      TurningsSnoc(world, Born(), history, es);
      if tcp.closed { ClosedStays(GuardRun(NewGuard(idle.origin), old(idle.trace)), OnWheel(es)); }
      if idle.closed {
        tcp.OnClose();
      }
      history := history + Turnings(es);
    }

    /** At any point of its life: closed once, a prefix of S0S1 ++ S2 sent, and before the firing ticks of
        its entries as long as it is open. */
    lemma IsSafe()
      requires tcp.Wired() && Valid()
      ensures tcp.closed == idle.closed && idle.closeCalls == (if tcp.closed then 1 else 0)
      ensures tcp.accepted <= Expected(world, tcp.received)
      ensures tcp.context.state == WaitC2 || tcp.context.state == Done ==>
                tcp.accepted == Expected(world, tcp.received)
      ensures !tcp.closed ==> forall id :: id in idle.GuardNow().terms ==>
                idle.loop.tick < FireOf(idle.GuardNow().terms[id])
    {
      Meaning();
      idle.ClosesOnTime();
      LifeIsSafe(world, kernel, idle.origin, history);
    }
  }

  lemma OneNetEvent(w: World, s: Session, e: NetEvent)
    ensures NetRun(w, s, [e]) == NetStep(w, s, e)
  {
    hide NetStep;
    assert [e][1..] == [];
    assert NetRun(w, NetStep(w, s, e), []) == NetStep(w, s, e);
  }

  lemma CloseSnoc(w: World, l0: Life, es: seq<LifeEvent>)
    ensures LifeRun(w, l0, es + [Closed]).session == NetRun(w, LifeRun(w, l0, es).session, [Hangup])
    ensures GuardEvents(w, l0, es + [Closed]) == GuardEvents(w, l0, es) + [Closing]
  {
    hide LifeRun, GuardEvents, NetRun;
    LifeSnoc(w, l0, es, Closed);
    var l := LifeRun(w, l0, es);
    OneNetEvent(w, l.session, Hangup);
    assert [Closing][1..] == [];
    assert GuardRun(l.guard, [Closing]) == GuardStep(l.guard, Closing);
  }

  lemma LimitSnoc(w: World, l0: Life, es: seq<LifeEvent>, id: EntryId, limit: nat)
    requires Together(LifeRun(w, l0, es))
    ensures var l := LifeRun(w, l0, es);
            var e := Limiting(id, limit);
            && LifeRun(w, l0, es + [e]).session
               == Joined(Life(l.session, GuardRun(l.guard, [Enabling(id, limit)]))).session
            && GuardEvents(w, l0, es + [e]) == GuardEvents(w, l0, es) + [Enabling(id, limit)]
  {
    hide LifeRun, GuardEvents, TimingWheels.Step, Dies;
    LifeSnoc(w, l0, es, Limiting(id, limit));
    var l := LifeRun(w, l0, es);
    assert NetRun(w, l.session, []) == l.session;
    assert [Enabling(id, limit)][1..] == [];
    assert GuardRun(l.guard, [Enabling(id, limit)]) == GuardStep(l.guard, Enabling(id, limit));
  }

  lemma TurningsSnoc(w: World, l0: Life, es: seq<LifeEvent>, wheel: seq<Event>)
    requires Together(LifeRun(w, l0, es))
    ensures var l := LifeRun(w, l0, es);
            && LifeRun(w, l0, es + Turnings(wheel)).session
               == Joined(Life(l.session, GuardRun(l.guard, OnWheel(wheel)))).session
            && GuardEvents(w, l0, es + Turnings(wheel)) == GuardEvents(w, l0, es) + OnWheel(wheel)
  {
    hide LifeRun, GuardEvents, Joined, GuardRun;
    LifeConcat(w, l0, es, Turnings(wheel));
    TurningsJoinOnce(w, LifeRun(w, l0, es), wheel);
  }
}
