/** The idle timer of `src/network/net/TcpConnection.cpp`: `enableCheckIdleTime` puts a
    `TimeoutEntry` in the timing wheel, every read and write inserts the latest one again, and the
    destructor of any of them closes the connection. */
module IdleTimeout {
  import opened Bytes
  import opened TimingWheels
  import opened TimingWheelRuns
  import opened Timers

  /** Why the connection is closed, if it is: by an entry's death in the wheels, by a limit that no slot
      takes, or for any other reason. */
  datatype Cause = Open | ByTimer(tick: nat) | ByRefusal(tick: nat) | ByPeer(tick: nat)

  /** An entry's latest insertion. */
  datatype Term = Term(tick: nat, mid: bool, limit: nat)

  function FireOf(t: Term): nat { FireTick(t.tick, t.mid, t.limit) }

  /** A connection's share of the loop: the wheels, the entries that point to it with their terms, and
      the one that `timeout_entry_` is. */
  datatype Guard = Guard(wheel: State, terms: map<EntryId, Term>, current: Option<EntryId>, cause: Cause,
                         closeCalls: nat)

  /** A connection that has just been made. */
  function NewGuard(wheel: State): Guard { Guard(wheel, map[], None, Open, 0) }

  datatype GuardEvent =
    | Activity                              // onRead or onWrite
    | Closing                               // onClose for any other reason
    | Enabling(entry: EntryId, limit: nat)  // enableCheckIdleTime, with a new entry
    | Wheel(e: Event)                       // the loop turns its wheels, or other entries are inserted

  /** `onClose`: the close callback runs unless the connection is already closed. */
  function OnClose(g: Guard, cause: Cause): Guard {
    if g.cause.Open? then g.(cause := cause, closeCalls := g.closeCalls + 1) else g
  }

  function Turn(g: Guard, e: Event): Guard {
    var g' := g.(wheel := Step(g.wheel, e));
    if exists id :: id in g.terms && Dies(g.wheel, e, id) then OnClose(g', ByTimer(g'.wheel.tick)) else g'
  }

  /** The new entry replaces the one that activity inserts again; the old one stays in its slots. An
      entry of a closed connection changes nothing but the wheels. */
  function Enable(g: Guard, entry: EntryId, limit: nat): Guard {
    var g' := g.(wheel := Step(g.wheel, Insert(limit, entry)));
    if !g.cause.Open? then g'
    else if Dies(g.wheel, Insert(limit, entry), entry) then OnClose(g'.(current := None), ByRefusal(g.wheel.tick))
    else g'.(terms := g.terms[entry := Term(g.wheel.tick, g.wheel.mid, limit)], current := Some(entry))
  }

  /** `extendLife` on a read or write: only an entry that is still alive can be inserted again. */
  function Touch(g: Guard): Guard {
    if g.cause.Open? && g.current.Some? && g.current.value in g.terms && Live(g.wheel.wheels, g.current.value) then
      var id := g.current.value;
      var limit := g.terms[id].limit;
      g.(wheel := Step(g.wheel, Insert(limit, id)), terms := g.terms[id := Term(g.wheel.tick, g.wheel.mid, limit)])
    else g
  }

  function GuardStep(g: Guard, e: GuardEvent): Guard {
    match e
    case Activity => Touch(g)
    case Closing => OnClose(g, ByPeer(g.wheel.tick))
    case Enabling(entry, limit) => Enable(g, entry, limit)
    case Wheel(e) => Turn(g, e)
  }

  function GuardRun(g: Guard, es: seq<GuardEvent>): Guard
    decreases |es|
  {
    if es == [] then g else GuardRun(GuardStep(g, es[0]), es[1..])
  }

  /** New entries are new, and only the connection holds its entries. */
  predicate Private(g: Guard, es: seq<GuardEvent>)
    decreases |es|
  {
    es == [] || (PrivateStep(g, es[0]) && Private(GuardStep(g, es[0]), es[1..]))
  }

  predicate PrivateStep(g: Guard, e: GuardEvent) {
    match e
    case Enabling(entry, _) => entry !in g.terms && !Live(g.wheel.wheels, entry)
    case Wheel(e) => e.Insert? ==> e.id !in g.terms
    case _ => true
  }

  ghost predicate TermsHeld(s: State, terms: map<EntryId, Term>) {
    forall id :: id in terms ==> Held(s, id, terms[id].tick, terms[id].mid, terms[id].limit)
  }

  ghost predicate AllLive(s: State, terms: map<EntryId, Term>) {
    forall id :: id in terms ==> Live(s.wheels, id)
  }

  /** The first firing tick of all terms. */
  predicate Earliest(terms: map<EntryId, Term>, tick: nat) {
    && (forall id :: id in terms ==> tick <= FireOf(terms[id]))
    && (exists id :: id in terms && tick == FireOf(terms[id]))
  }

  ghost predicate GuardInv(g: Guard) {
    && Sound(g.wheel) && TermsHeld(g.wheel, g.terms)
    && g.closeCalls == (if g.cause.Open? then 0 else 1)
    && (g.cause.Open? ==> AllLive(g.wheel, g.terms) && (g.current.None? ==> g.terms == map[]))
    && (g.current.Some? ==> g.current.value in g.terms)
    && (g.cause.ByTimer? ==> Earliest(g.terms, g.cause.tick) && g.cause.tick <= g.wheel.tick)
  }

  /** One term under an event of the wheels that does not insert its entry. */
  lemma TermStep(s: State, e: Event, id: EntryId, t: Term)
    requires Held(s, id, t.tick, t.mid, t.limit) && !(e.Insert? && e.id == id)
    ensures Held(Step(s, e), id, t.tick, t.mid, t.limit)
    ensures Dies(s, e, id) ==> Step(s, e).tick == FireOf(t)
    ensures Live(s.wheels, id) && !Dies(s, e, id) ==> Live(Step(s, e).wheels, id) && Step(s, e).tick <= FireOf(t)
  {
    hide Live, Outstanding, FireTick, InsertEntry, PopUp;
    var s' := Step(s, e);
    HeldStep(s, e, id, t.tick, t.mid, t.limit);
    LiveIffOutstanding(s, id, t.tick, t.mid, t.limit);
    LiveIffOutstanding(s', id, t.tick, t.mid, t.limit);
    OutstandingUntilFireTick(s', t.tick, t.mid, t.limit);
    if e.Insert? {
      InsertLive(s.wheels, e.delay, e.id, id);
    } else if Dies(s, e, id) {
      DiesAtFireTick(s, e, t.tick, t.mid, t.limit);
    }
  }

  lemma TermsStep(s: State, e: Event, terms: map<EntryId, Term>)
    requires Sound(s) && TermsHeld(s, terms) && !(e.Insert? && e.id in terms)
    ensures Sound(Step(s, e)) && TermsHeld(Step(s, e), terms) && s.tick <= Step(s, e).tick
    ensures forall id :: id in terms && Dies(s, e, id) ==> Step(s, e).tick == FireOf(terms[id])
    ensures AllLive(s, terms) ==>
              forall id :: id in terms && !Dies(s, e, id) ==>
                Live(Step(s, e).wheels, id) && Step(s, e).tick <= FireOf(terms[id])
  {
    hide Held, Live, Dies, Step, FireOf;
    SoundStep(s, e);
    forall id | id in terms
      ensures Held(Step(s, e), id, terms[id].tick, terms[id].mid, terms[id].limit)
      ensures Dies(s, e, id) ==> Step(s, e).tick == FireOf(terms[id])
      ensures Live(s.wheels, id) && !Dies(s, e, id) ==>
                Live(Step(s, e).wheels, id) && Step(s, e).tick <= FireOf(terms[id])
    {
      TermStep(s, e, id, terms[id]);
    }
  }

  lemma SoundStep(s: State, e: Event)
    requires Sound(s)
    ensures Sound(Step(s, e)) && s.tick <= Step(s, e).tick
  {
    DueStep(s, e, SECOND, 0, 0);
  }

  /** Inserting one entry, with a limit that the wheels take, starts its term and leaves the others. */
  lemma TermsInsert(s: State, id: EntryId, limit: nat, terms: map<EntryId, Term>)
    requires Sound(s) && TermsHeld(s, terms - {id}) && 0 < limit < TOO_LONG
    requires if id in terms then Held(s, id, terms[id].tick, terms[id].mid, limit) else !Live(s.wheels, id)
    ensures var s' := Step(s, Insert(limit, id));
            var terms' := terms[id := Term(s.tick, s.mid, limit)];
            && Sound(s') && TermsHeld(s', terms')
            && (AllLive(s, terms - {id}) ==> AllLive(s', terms'))
  {
    hide Held, Live, Step, FireOf;
    var e := Insert(limit, id);
    SoundStep(s, e);
    if id in terms {
      HeldInsert(s, id, limit, terms[id].tick, terms[id].mid);
    } else {
      HeldInsert(s, id, limit, 0, false);
    }
    LiveOnInsert(s, id, limit);
    TermsStep(s, e, terms - {id});
    forall x | x in terms && x != id ensures !Dies(s, e, x) { InsertKillsNoOther(s, e, x); }
    assert forall x :: x in terms && x != id ==> x in terms - {id};
  }

  lemma InsertKillsNoOther(s: State, e: Event, x: EntryId)
    requires e.Insert? && e.id != x
    ensures !Dies(s, e, x)
  {
    if Live(s.wheels, x) { InsertLive(s.wheels, e.delay, e.id, x); }
  }

  lemma RefusedExactly(s: State, id: EntryId, limit: nat)
    requires !Live(s.wheels, id)
    ensures Dies(s, Insert(limit, id), id) <==> !(0 < limit < TOO_LONG)
  {
    InsertLive(s.wheels, limit, id, id);
  }

  lemma GuardStepInv(g: Guard, e: GuardEvent)
    requires GuardInv(g) && PrivateStep(g, e)
    ensures GuardInv(GuardStep(g, e))
  {
    hide Held, Live, Step, FireOf, Dies;
    match e {
      case Activity => TouchInv(g);
      case Closing =>
      case Enabling(entry, limit) =>
        RefusedExactly(g.wheel, entry, limit);
        TermsStep(g.wheel, Insert(limit, entry), g.terms);
        if 0 < limit < TOO_LONG { TermsInsert(g.wheel, entry, limit, g.terms); }
      case Wheel(e') =>
        TermsStep(g.wheel, e', g.terms);
    }
  }

  lemma TouchInv(g: Guard)
    requires GuardInv(g)
    ensures GuardInv(Touch(g))
  {
    hide Live, Step, FireOf;
    if g.cause.Open? && g.current.Some? {
      var id := g.current.value;
      TermsInsert(g.wheel, id, g.terms[id].limit, g.terms);
    }
  }

  lemma {:induction false} GuardRunInv(g: Guard, es: seq<GuardEvent>)
    requires GuardInv(g) && Private(g, es)
    ensures GuardInv(GuardRun(g, es))
    decreases |es|
  {
    hide GuardInv, GuardStep, PrivateStep;
    if es != [] {
      GuardStepInv(g, es[0]);
      GuardRunInv(GuardStep(g, es[0]), es[1..]);
    }
  }

  /** Over any reads, writes, ticks, other timers and calls of `enableCheckIdleTime`: the close callback
      runs at most once; the timer closes at the first firing tick of all the connection's entries, never
      at another; and a connection is open only while none of them has come. */
  lemma IdleClose(wheel: State, es: seq<GuardEvent>)
    requires Sound(wheel) && Private(NewGuard(wheel), es)
    ensures var g := GuardRun(NewGuard(wheel), es);
            && g.closeCalls == (if g.cause.Open? then 0 else 1)
            && (g.cause.ByTimer? ==> Earliest(g.terms, g.cause.tick))
            && (g.cause.Open? ==> forall id :: id in g.terms ==> g.wheel.tick <= FireOf(g.terms[id]))
            && (g.cause.Open? && !g.wheel.mid ==> forall id :: id in g.terms ==> g.wheel.tick < FireOf(g.terms[id]))
  {
    var g := GuardRun(NewGuard(wheel), es);
    GuardRunInv(NewGuard(wheel), es);
    forall id | id in g.terms && g.cause.Open?
      ensures g.wheel.tick <= FireOf(g.terms[id]) && (!g.wheel.mid ==> g.wheel.tick < FireOf(g.terms[id]))
    {
      var t := g.terms[id];
      LiveIffOutstanding(g.wheel, id, t.tick, t.mid, t.limit);
      OutstandingUntilFireTick(g.wheel, t.tick, t.mid, t.limit);
    }
  }

  /** The timer closes exactly the current limit after the last activity (or, if there was none, after the
      limit was set) if and only if that limit is under a minute and no entry of an earlier
      `enableCheckIdleTime` fires before. It never closes later. */
  lemma IdleCloseIsExact(wheel: State, es: seq<GuardEvent>)
    requires Sound(wheel) && Private(NewGuard(wheel), es)
    requires var g := GuardRun(NewGuard(wheel), es); g.cause.ByTimer? && g.current.Some?
    ensures var g := GuardRun(NewGuard(wheel), es);
            g.current.value in g.terms &&
            var last := g.terms[g.current.value];
            && g.cause.tick <= last.tick + last.limit
            && (g.cause.tick == last.tick + last.limit <==>
                  && last.limit < TIMING_MINUTE
                  && forall id :: id in g.terms ==> last.tick + last.limit <= FireOf(g.terms[id]))
  {
    var g := GuardRun(NewGuard(wheel), es);
    GuardRunInv(NewGuard(wheel), es);
    hide FireTick;
    var last := g.terms[g.current.value];
    Deadline(last.tick, last.mid, last.limit);
  }

  /** Entries of earlier calls keep their terms: no activity, and no later call, extends them. */
  lemma {:induction false} StaleTermsStand(g: Guard, es: seq<GuardEvent>, id: EntryId)
    requires Private(g, es) && id in g.terms && g.current != Some(id)
    ensures var g' := GuardRun(g, es);
            id in g'.terms && g'.terms[id] == g.terms[id] && g'.current != Some(id)
    decreases |es|
  {
    hide Live, Step, Dies;
    if es != [] { StaleTermsStand(GuardStep(g, es[0]), es[1..], id); }
  }

  /** So after a second call the first entry closes the connection at its own firing tick at the latest,
      whatever the second limit and however active the connection is. */
  lemma SecondLimitDoesNotExtend(wheel: State, before: seq<GuardEvent>, entry: EntryId, limit: nat,
                                 after: seq<GuardEvent>)
    requires Sound(wheel) && Private(NewGuard(wheel), before)
    requires var g1 := GuardRun(NewGuard(wheel), before);
             g1.cause.Open? && g1.current.Some? && Private(g1, [Enabling(entry, limit)] + after)
    ensures var g1 := GuardRun(NewGuard(wheel), before);
            var g2 := GuardRun(g1, [Enabling(entry, limit)] + after);
            var id := g1.current.value;
            && id in g1.terms
            && (g2.cause.ByTimer? ==> g2.cause.tick <= FireOf(g1.terms[id]))
            && (!g2.wheel.mid && g2.wheel.tick >= FireOf(g1.terms[id]) ==> !g2.cause.Open?)
  {
    hide Live, Step, Dies, FireOf;
    var g1 := GuardRun(NewGuard(wheel), before);
    var es := [Enabling(entry, limit)] + after;
    var g1' := GuardStep(g1, es[0]);
    assert es[1..] == after;
    GuardRunInv(NewGuard(wheel), before);
    StaleTermsStand(g1', after, g1.current.value);
    PrivateConcat(NewGuard(wheel), before, es);
    GuardRunConcat(NewGuard(wheel), before, es);
    IdleClose(wheel, before + es);
  }

  /** Without a further call the entries stay the ones there are, with their limits, and their terms
      never go back; without a close from elsewhere, only the timer closes. */
  lemma {:induction false} SameEntries(g: Guard, es: seq<GuardEvent>)
    requires forall e :: e in es ==> !e.Enabling?
    requires forall id :: id in g.terms ==> g.terms[id].tick <= g.wheel.tick
    ensures var g' := GuardRun(g, es);
            && g'.terms.Keys == g.terms.Keys && g'.current == g.current
            && (forall id :: id in g.terms ==>
                  g'.terms[id].limit == g.terms[id].limit && g'.terms[id].tick >= g.terms[id].tick)
            && ((forall e :: e in es ==> !e.Closing?) && (g.cause.Open? || g.cause.ByTimer?) ==>
                  g'.cause.Open? || g'.cause.ByTimer?)
    decreases |es|
  {
    hide Live, Dies, InsertEntry, PopUp, SecondTurn;
    if es != [] {
      assert es[0] in es;
      var g' := GuardStep(g, es[0]);
      assert g'.terms.Keys == g.terms.Keys;
      SameEntries(g', es[1..]);
    }
  }

  /** With one call, which is what the server itself makes, the timer closes at the firing tick counted
      from the last activity, and exactly the limit after it if and only if the limit is under a minute. */
  lemma OneLimit(wheel: State, entry: EntryId, limit: nat, es: seq<GuardEvent>)
    requires Sound(wheel) && 0 < limit < TOO_LONG
    requires Private(NewGuard(wheel), [Enabling(entry, limit)] + es)
    requires forall e :: e in es ==> !e.Enabling?
    ensures var g := GuardRun(NewGuard(wheel), [Enabling(entry, limit)] + es);
            entry in g.terms && g.terms[entry].limit == limit &&
            var last := g.terms[entry];
            && (g.cause.ByTimer? ==> g.cause.tick == FireOf(last))
            && (g.cause.ByTimer? ==> (g.cause.tick == last.tick + limit <==> limit < TIMING_MINUTE))
            && (g.cause.Open? && !g.wheel.mid ==> g.wheel.tick < FireOf(last))
  {
    hide Live, Dies, FireTick, InsertEntry;
    var all := [Enabling(entry, limit)] + es;
    assert all[1..] == es;
    RefusedExactly(wheel, entry, limit);
    var g1 := GuardStep(NewGuard(wheel), all[0]);
    var g := GuardRun(g1, es);
    SameEntries(g1, es);
    assert g.terms.Keys == {entry};
    IdleClose(wheel, all);
    GuardRunInv(NewGuard(wheel), all);
    Deadline(g.terms[entry].tick, g.terms[entry].mid, limit);
  }

  /** A limit that no slot takes closes the connection before `enableCheckIdleTime` returns, and no
      other does. */
  lemma RefusedLimitClosesAtOnce(g: Guard, entry: EntryId, limit: nat)
    requires g.cause.Open? && PrivateStep(g, Enabling(entry, limit))
    ensures Enable(g, entry, limit).cause
            == if 0 < limit < TOO_LONG then Open else ByRefusal(g.wheel.tick)
  {
    RefusedExactly(g.wheel, entry, limit);
  }

  /** `TcpServer::onAccept` sets a limit of 30 and then runs the new-connection callback. If that sets a
      longer limit under a minute, a connection that nobody else closes is closed 30 ticks after it was
      accepted, however active it is. */
  lemma LongerLimitFromCallback(wheel: State, first: EntryId, second: EntryId, limit: nat, es: seq<GuardEvent>)
    requires Sound(wheel) && 30 < limit < TIMING_MINUTE
    requires Private(NewGuard(wheel), [Enabling(first, 30), Enabling(second, limit)] + es)
    requires forall e :: e in es ==> !e.Closing? && !e.Enabling?
    requires var g := GuardRun(NewGuard(wheel), [Enabling(first, 30), Enabling(second, limit)] + es);
             !g.wheel.mid && g.wheel.tick >= wheel.tick + 30
    ensures GuardRun(NewGuard(wheel), [Enabling(first, 30), Enabling(second, limit)] + es).cause
            == ByTimer(wheel.tick + 30)
  {
    hide Live, Dies, FireTick, InsertEntry;
    var all := [Enabling(first, 30), Enabling(second, limit)] + es;
    assert all[1..] == [Enabling(second, limit)] + es && all[1..][1..] == es;
    var g1 := GuardStep(NewGuard(wheel), all[0]);
    RefusedExactly(wheel, first, 30);
    var g2 := GuardStep(g1, all[1]);
    RefusedExactly(g1.wheel, second, limit);
    assert g2.cause.Open? && g2.terms == map[first := Term(wheel.tick, wheel.mid, 30),
                                             second := Term(wheel.tick, wheel.mid, limit)];
    var g := GuardRun(g2, es);
    SameEntries(g2, es);
    StaleTermsStand(g2, es, first);
    GuardRunInv(NewGuard(wheel), all);
    IdleClose(wheel, all);
    Deadline(wheel.tick, wheel.mid, 30);
    var last := g.terms[second];
    Deadline(last.tick, last.mid, last.limit);
  }

  lemma {:induction false} GuardRunConcat(g: Guard, a: seq<GuardEvent>, b: seq<GuardEvent>)
    ensures GuardRun(g, a + b) == GuardRun(GuardRun(g, a), b)
    decreases |a|
  {
    if a == [] {
      assert a + b == b;
    } else {
      assert (a + b)[1..] == a[1..] + b;
      GuardRunConcat(GuardStep(g, a[0]), a[1..], b);
    }
  }

  lemma {:induction false} PrivateConcat(g: Guard, a: seq<GuardEvent>, b: seq<GuardEvent>)
    ensures Private(g, a + b) <==> Private(g, a) && Private(GuardRun(g, a), b)
    decreases |a|
  {
    if a == [] {
      assert a + b == b;
    } else {
      assert (a + b)[1..] == a[1..] + b;
      PrivateConcat(GuardStep(g, a[0]), a[1..], b);
    }
  }

  function OnWheel(es: seq<Event>): (r: seq<GuardEvent>)
    ensures |r| == |es|
    ensures forall i :: 0 <= i < |es| ==> r[i] == Wheel(es[i])
  {
    seq(|es|, i requires 0 <= i < |es| => Wheel(es[i]))
  }

  predicate NoInsertOfAny(es: seq<Event>, terms: map<EntryId, Term>) {
    forall e :: e in es && e.Insert? ==> e.id !in terms
  }

  /** Closing in the middle of a tick or after it comes to the same. */
  lemma {:induction false} TurnRun(g: Guard, es: seq<Event>)
    requires GuardInv(g) && NoInsertOfAny(es, g.terms)
    ensures Private(g, OnWheel(es))
    ensures var g' := GuardRun(g, OnWheel(es));
            && g'.wheel == Run(g.wheel, es) && g'.terms == g.terms && g'.current == g.current
            && (g'.cause.Open? <==> g.cause.Open? && AllLive(g'.wheel, g.terms))
    decreases |es|
  {
    hide Held, Live, Step, FireTick, Dies;
    if es != [] {
      assert es[0] in es && OnWheel(es)[0] == Wheel(es[0]);
      assert OnWheel(es)[1..] == OnWheel(es[1..]);
      GuardStepInv(g, Wheel(es[0]));
      TurnRun(GuardStep(g, Wheel(es[0])), es[1..]);
      if id :| id in g.terms && Dies(g.wheel, es[0], id) { StaysDown(g.wheel, es, id); }
    } else {
      assert OnWheel(es) == [];
    }
  }

  lemma StaysDown(s: State, es: seq<Event>, id: EntryId)
    requires Sound(s) && es != [] && NoInsertOf(es, id) && Dies(s, es[0], id)
    ensures !Live(Run(s, es).wheels, id)
  {
    SoundStep(s, es[0]);
    NeverLive(Step(s, es[0]), es[1..], id);
  }

  /** The fields of a connection that the idle timer uses, and its loop's timing wheel. */
  class IdleConnection {
    const loop: TimingWheel
    var closed: bool
    var closeCalls: nat
    var timeoutEntry: Option<EntryId>
    var maxIdle: nat
    /** The entries that point back to this connection. */
    var entries: set<EntryId>
    /** What happened since the connection was made, on the wheels `origin`. */
    ghost const origin: State
    ghost var trace: seq<GuardEvent>

    ghost predicate Valid()
      reads this, loop
    {
      && loop.Valid() && Sound(origin) && Private(NewGuard(origin), trace)
      && var g := GuardNow();
         && g.wheel == loop.Now() && (closed <==> !g.cause.Open?) && closeCalls == g.closeCalls
         && g.terms.Keys <= entries && OneShots(entries, loop.callbacks)
         && (!closed ==> entries == g.terms.Keys && timeoutEntry == g.current
                         && (timeoutEntry.Some? && timeoutEntry.value in entries ==>
                               maxIdle == g.terms[timeoutEntry.value].limit))
    }

    ghost function GuardNow(): Guard
      reads this
    {
      GuardRun(NewGuard(origin), trace)
    }

    lemma Invariant()
      requires Valid()
      ensures GuardInv(GuardNow())
    {
      GuardRunInv(NewGuard(origin), trace);
    }

    lemma Extend(es: seq<GuardEvent>)
      ensures GuardRun(NewGuard(origin), trace + es) == GuardRun(GuardNow(), es)
      ensures Private(NewGuard(origin), trace + es) <==> Private(NewGuard(origin), trace) && Private(GuardNow(), es)
    {
      GuardRunConcat(NewGuard(origin), trace, es);
      PrivateConcat(NewGuard(origin), trace, es);
    }

    lemma ExtendOne(e: GuardEvent)
      ensures GuardRun(NewGuard(origin), trace + [e]) == GuardStep(GuardNow(), e)
      ensures Private(NewGuard(origin), trace + [e]) <==>
                Private(NewGuard(origin), trace) && PrivateStep(GuardNow(), e)
    {
      hide GuardStep, PrivateStep;
      Extend([e]);
      assert [e][1..] == [];
      assert GuardRun(GuardNow(), [e]) == GuardStep(GuardNow(), e);
    }

    constructor (loop: TimingWheel)
      requires loop.Valid()
      ensures Valid() && this.loop == loop && !closed && timeoutEntry.None? && closeCalls == 0
      ensures origin == loop.Now() && trace == []
    {
      this.loop := loop;
      closed, closeCalls, timeoutEntry, maxIdle, entries := false, 0, None, 30, {};
      origin, trace := loop.Now(), [];
    }

    /** Runs the close callback, once. */
    method OnClose()
      modifies `closed, `closeCalls
      ensures closed && closeCalls == old(closeCalls) + if old(closed) then 0 else 1
    {
      if closed {
        return;
      }
      closeCalls := closeCalls + 1;
      closed := true;
    }

    method Close()
      requires Valid()
      modifies `closed, `closeCalls, `trace
      ensures Valid() && closed && trace == old(trace) + [Closing]
    {
      hide GuardRun, Private;
      ExtendOne(Closing);
      OnClose();
      trace := trace + [Closing];
    }

    method EnableCheckIdleTime(timeout: nat) returns (ghost id: EntryId)
      requires Valid()
      modifies this, loop
      ensures Valid() && trace == old(trace) + [Enabling(id, timeout)]
      ensures id !in old(loop.callbacks) && loop.trace == old(loop.trace) + [Insert(timeout, id)]
      ensures closed <==> old(closed) || !(0 < timeout < TOO_LONG)
    {
      hide GuardRun, Private, TimingWheels.InsertEntry, Live, EntryAgrees, Run;
      Invariant();
      ghost var g, was := GuardNow(), loop.Now();
      maxIdle := timeout;
      var entry;
      ghost var inserted;
      entry, inserted := loop.RunAfter(timeout, []);
      assert [Insert(timeout, entry)] + inserted == [Insert(timeout, entry)];
      id := entry;
      FreshEntry(was, old(loop.trace), old(loop.fired), old(loop.callbacks), old(loop.nextId), id);
      NowAfter(old(loop.trace), Insert(timeout, id));
      ExtendOne(Enabling(id, timeout));
      RefusedExactly(was, id, timeout);
      entries := entries + {entry};
      timeoutEntry := Some(entry);
      if !Live(loop.wheels, entry) {
        OnTimeout();
      }
      trace := trace + [Enabling(id, timeout)];
    }

    method OnTimeout()
      modifies `closed, `closeCalls
      ensures closed && closeCalls == old(closeCalls) + if old(closed) then 0 else 1
    {
      OnClose();
    }

    method ExtendLife()
      requires Valid() && !closed
      modifies loop, `trace
      ensures Valid() && closed == old(closed) && trace == old(trace) + [Activity]
    {
      hide GuardRun, Private, TimingWheels.InsertEntry, Live, Run;
      Invariant();
      ExtendOne(Activity);
      if timeoutEntry.Some? && Live(loop.wheels, timeoutEntry.value) {
        var id := timeoutEntry.value;
        loop.InsertAgain(maxIdle, id);
        NowAfter(old(loop.trace), Insert(maxIdle, id));
      }
      trace := trace + [Activity];
    }

    /** `onRead` and `onWrite`, as far as the timer is concerned. */
    method OnActivity()
      requires Valid()
      modifies loop, `trace
      ensures Valid() && closed == old(closed)
      ensures trace == old(trace) + if closed then [] else [Activity]
    {
      if closed {
        return;
      }
      ExtendLife();
    }

    /** A turn of the loop's clock; the destructor of an entry, if it runs, calls `OnTimeout`. */
    method OnTimer(now: int) returns (ghost during: seq<Event>, ghost after: seq<Event>)
      requires Valid()
      modifies this, loop
      ensures Valid() && entries == old(entries) && timeoutEntry == old(timeoutEntry) && maxIdle == old(maxIdle)
      ensures loop.lastTs == Clock(old(loop.lastTs), now).0
      ensures TickRuns(old(loop.Now()), old(loop.lastTs), now, during, after, loop.callbacks)
      ensures var es := TickEvents(old(loop.lastTs), now, during, after);
              trace == old(trace) + OnWheel(es) && loop.trace == old(loop.trace) + es
    {
      hide Destroyed, TickRuns, GuardRun, Private, TimingWheels.InsertEntry, TimingWheels.PopUp, Live, Run, EntryAgrees, FireOf, Held;
      Invariant();
      ghost var g, before := GuardNow(), loop.trace;
      during, after := loop.OnTimer(now);
      ghost var es := TickEvents(old(loop.lastTs), now, during, after);
      assert NoInsertOfAny(es, g.terms) by {
        assert forall e :: e in es && e.Insert? ==> e in during + after;
        assert forall id :: id in g.terms ==> id in old(loop.callbacks) && old(loop.callbacks)[id].After?;
      }
      RunConcat(START, before, es);
      TurnRun(g, es);
      Extend(OnWheel(es));
      GuardRunInv(g, OnWheel(es));
      if exists id :: id in entries && !Live(loop.wheels, id) {
        OnTimeout();
      }
      trace := trace + OnWheel(es);
    }

    /** The object closes when the theorem says. */
    lemma ClosesOnTime()
      requires Valid()
      ensures var g := GuardNow();
              && closeCalls == (if closed then 1 else 0)
              && (g.cause.ByTimer? ==> Earliest(g.terms, g.cause.tick))
              && (!closed ==> forall id :: id in g.terms ==> loop.tick < FireOf(g.terms[id]))
    {
      IdleClose(origin, trace);
    }
  }

  /** Each of these is an entry with no callback but its connection's. */
  predicate OneShots(entries: set<EntryId>, callbacks: map<EntryId, Timer>) {
    forall id :: id in entries ==> id in callbacks && callbacks[id].After?
  }

  lemma NowAfter(trace: seq<Event>, e: Event)
    ensures Run(START, trace + [e]) == Step(Run(START, trace), e)
  {
    TraceGrows(trace, e, 0, 0);
  }

  lemma FreshEntry(s: State, trace: seq<Event>, fired: seq<Fired>, callbacks: map<EntryId, Timer>,
                   nextId: EntryId, id: EntryId)
    requires Agrees(s, trace, fired, callbacks, nextId, {}) && id !in callbacks
    ensures Sound(s) && !Live(s.wheels, id)
  {
    assert EntryAgrees(s, trace, fired, callbacks, nextId, id, {});
  }
}
