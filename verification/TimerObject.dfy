/** The `TimingWheel` object: the fields of `src/network/net/TimingWheel.h` and the methods of
    `TimingWheel.cpp`. A ghost trace records the actions it took, so that every theorem about runs of
    the wheels is a theorem about the object. */
module Timers {
  import opened TimingWheels
  import opened TimingWheelRuns

  /** What was asked of `runAfter` or `runEvery`: when, and which timers the callback starts each time it
      runs. The destructor of a `runEvery` entry then starts the next one. */
  datatype Timer = After(delay: int, starts: seq<Timer>) | Every(interval: nat, starts: seq<Timer>)

  /** No interval that the wheels refuse: the destructor of each entry would create the next one without
      end. */
  predicate Fine(t: Timer) {
    && (t.Every? ==> 0 < t.interval < TOO_LONG)
    && forall i :: 0 <= i < |t.starts| ==> Fine(t.starts[i])
  }

  function Delay(t: Timer): int { if t.Every? then t.interval else t.delay }

  /** The timers that come to be when this one is created: it, and if no slot takes it, so that its
      callback runs at once, those that the callback starts. */
  function CreatedBy(t: Timer): seq<Timer>
    decreases t, 0
  {
    [t] + if 0 < Delay(t) < TOO_LONG then [] else CreatedByAll(t.starts)
  }

  function CreatedByAll(ts: seq<Timer>): seq<Timer>
    decreases ts, |ts|
  {
    if ts == [] then [] else CreatedBy(ts[0]) + CreatedByAll(ts[1..])
  }

  /** What an entry's destructor puts in the wheels: what its callback starts, then for `runEvery` the
      timer itself again. */
  function Aftermath(t: Timer): seq<Timer> {
    CreatedByAll(t.starts) + if t.Every? then [t] else []
  }

  function Aftermaths(ids: seq<EntryId>, timers: map<EntryId, Timer>): seq<Timer>
    requires forall id :: id in ids ==> id in timers
    decreases |ids|
  {
    if ids == [] then []
    else Aftermaths(ids[..|ids| - 1], timers) + Aftermath(timers[ids[|ids| - 1]])
  }

  /** These insertions are of these timers, in order, one entry each. */
  predicate Are(es: seq<Event>, timers: seq<Timer>, entries: map<EntryId, Timer>) {
    && |es| == |timers|
    && (forall k :: 0 <= k < |es| ==>
          es[k].Insert? && es[k].id in entries && entries[es[k].id] == timers[k] && es[k].delay == Delay(timers[k]))
    && (forall j, k :: 0 <= j < k < |es| ==> es[j].id != es[k].id)
  }

  /** All entries that die in this event, and no others, run their destructors, in some order, and this is
      what they insert. */
  ghost predicate Destroyed(s: State, e: Event, inserted: seq<Event>, entries: map<EntryId, Timer>) {
    exists order: seq<EntryId> ::
      (forall id :: id in order <==> Dies(s, e, id)) && DestroyedInOrder(order, inserted, entries)
  }

  /** What one `onTimer` does, if the reading makes a tick. */
  function TickEvents(last: int, now: int, during: seq<Event>, after: seq<Event>): seq<Event> {
    if Clock(last, now).1 then [BeginTick] + during + [EndTick] + after else []
  }

  /** The callbacks of each of its two turns are those of the entries that die in it. */
  ghost predicate TickRuns(s: State, last: int, now: int, during: seq<Event>, after: seq<Event>,
                           entries: map<EntryId, Timer>)
  {
    Clock(last, now).1 ==>
      && Destroyed(s, BeginTick, during, entries)
      && Destroyed(Run(Step(s, BeginTick), during), EndTick, after, entries)
  }

  predicate DestroyedInOrder(order: seq<EntryId>, inserted: seq<Event>, entries: map<EntryId, Timer>) {
    && (forall j, k :: 0 <= j < k < |order| ==> order[j] != order[k])
    && (forall id :: id in order ==> id in entries)
    && Are(inserted, Aftermaths(order, entries), entries)
  }

  lemma {:induction false} CreatedByAllConcat(a: seq<Timer>, b: seq<Timer>)
    ensures CreatedByAll(a + b) == CreatedByAll(a) + CreatedByAll(b)
    decreases |a|
  {
    if a == [] {
      assert a + b == b;
    } else {
      assert (a + b)[1..] == a[1..] + b;
      CreatedByAllConcat(a[1..], b);
    }
  }

  lemma CreatedBySnoc(ts: seq<Timer>, i: nat)
    requires i < |ts|
    ensures CreatedByAll(ts[..i + 1]) == CreatedByAll(ts[..i]) + CreatedBy(ts[i])
  {
    assert ts[..i + 1] == ts[..i] + [ts[i]] && [ts[i]][1..] == [];
    CreatedByAllConcat(ts[..i], [ts[i]]);
  }

  lemma AreConcat(a: seq<Event>, ts: seq<Timer>, before: map<EntryId, Timer>,
                  b: seq<Event>, us: seq<Timer>, entries: map<EntryId, Timer>)
    requires Are(a, ts, before) && Grown(before, entries) && Are(b, us, entries)
    requires forall j, k :: 0 <= j < |a| && 0 <= k < |b| ==> a[j].id != b[k].id
    ensures Are(a + b, ts + us, entries)
  {
  }

  lemma NoneAre(entries: map<EntryId, Timer>)
    ensures Are([], [], entries) && Are([], CreatedByAll([]), entries)
  {
  }

  lemma NextCreated(ts: seq<Timer>, i: nat, inserted: seq<Event>, before: map<EntryId, Timer>,
                    more: seq<Event>, entries: map<EntryId, Timer>)
    requires i < |ts| && Are(inserted, CreatedByAll(ts[..i]), before) && Grown(before, entries)
    requires Are(more, CreatedBy(ts[i]), entries) && OnlyNew(more, before)
    ensures Are(inserted + more, CreatedByAll(ts[..i + 1]), entries)
  {
    hide CreatedBy, CreatedByAll;
    CreatedBySnoc(ts, i);
    assert forall k :: 0 <= k < |more| ==> more[k] in more;
    AreConcat(inserted, CreatedByAll(ts[..i]), before, more, CreatedBy(ts[i]), entries);
  }

  lemma NextAftermath(order: seq<EntryId>, id: EntryId, inserted: seq<Event>, before: map<EntryId, Timer>,
                      more: seq<Event>, entries: map<EntryId, Timer>)
    requires Grown(before, entries) && id in before && id !in order && forall x :: x in order ==> x in before
    requires Are(inserted, Aftermaths(order, before), before) && Are(more, Aftermath(before[id]), entries)
    requires forall e :: e in more ==> e.Insert? && (e.id in before ==> e.id == id)
    requires forall e :: e in inserted ==> e.Insert? && e.id != id
    ensures forall x :: x in order + [id] ==> x in entries
    ensures Are(inserted + more, Aftermaths(order + [id], entries), entries)
  {
    hide Aftermath;
    assert (order + [id])[..|order|] == order;
    AftermathsGrown(order, before, entries);
    forall j, k | 0 <= j < |inserted| && 0 <= k < |more| ensures inserted[j].id != more[k].id {
      assert inserted[j] in inserted && more[k] in more;
    }
    AreConcat(inserted, Aftermaths(order, before), before, more, Aftermath(before[id]), entries);
  }

  lemma DestroyedGrown(s: State, e: Event, inserted: seq<Event>, before: map<EntryId, Timer>,
                       entries: map<EntryId, Timer>)
    requires Destroyed(s, e, inserted, before) && Grown(before, entries)
    ensures Destroyed(s, e, inserted, entries)
  {
    hide Dies, Aftermaths;
    var order: seq<EntryId> :|
      (forall id :: id in order <==> Dies(s, e, id)) && DestroyedInOrder(order, inserted, before);
    AftermathsGrown(order, before, entries);
    assert DestroyedInOrder(order, inserted, entries);
  }

  lemma AfterTurn(trace: seq<Event>, during: seq<Event>)
    ensures Run(START, trace + [BeginTick] + during) == Run(Step(Run(START, trace), BeginTick), during)
  {
    RunConcat(START, trace + [BeginTick], during);
    TraceGrows(trace, BeginTick, 0, 0);
  }

  lemma {:induction false} AftermathsGrown(ids: seq<EntryId>, before: map<EntryId, Timer>, entries: map<EntryId, Timer>)
    requires forall id :: id in ids ==> id in before
    requires Grown(before, entries)
    ensures forall id :: id in ids ==> id in entries
    ensures Aftermaths(ids, entries) == Aftermaths(ids, before)
    decreases |ids|
  {
    if ids != [] { AftermathsGrown(ids[..|ids| - 1], before, entries); }
  }

  datatype Fired = Fired(id: EntryId, tick: nat)

  function FiredTicks(log: seq<Fired>, id: EntryId): seq<nat>
    decreases |log|
  {
    if log == [] then []
    else FiredTicks(log[..|log| - 1], id) + if log[|log| - 1].id == id then [log[|log| - 1].tick] else []
  }

  lemma {:induction false} DeathsConcat(s: State, a: seq<Event>, b: seq<Event>, id: EntryId)
    ensures Deaths(s, a + b, id) == Deaths(s, a, id) + Deaths(Run(s, a), b, id)
    decreases |a|
  {
    if a == [] {
      assert a + b == b;
    } else {
      assert (a + b)[1..] == a[1..] + b;
      DeathsConcat(Step(s, a[0]), a[1..], b, id);
    }
  }

  lemma {:induction false} DutyConcat(s: State, a: seq<Event>, b: seq<Event>, id: EntryId, p: nat, d: Duty)
    ensures DutyAfter(s, a + b, id, p, d) == DutyAfter(Run(s, a), b, id, p, DutyAfter(s, a, id, p, d))
    decreases |a|
  {
    if a == [] {
      assert a + b == b;
    } else {
      assert (a + b)[1..] == a[1..] + b;
      DutyConcat(Step(s, a[0]), a[1..], b, id, p, DutyStep(s, a[0], id, p, d));
    }
  }

  /** The run so far, one event longer. */
  lemma TraceGrows(trace: seq<Event>, e: Event, id: EntryId, p: nat)
    ensures var s := Run(START, trace);
            && Run(START, trace + [e]) == Step(s, e)
            && Deaths(START, trace + [e], id)
               == Deaths(START, trace, id) + (if Dies(s, e, id) then [Step(s, e).tick] else [])
            && DutyAfter(START, trace + [e], id, p, Unborn)
               == DutyStep(s, e, id, p, DutyAfter(START, trace, id, p, Unborn))
  {
    var s := Run(START, trace);
    RunConcat(START, trace, [e]);
    DeathsConcat(START, trace, [e], id);
    DutyConcat(START, trace, [e], id, p, Unborn);
    assert [e][1..] == [];
    assert Run(s, [e]) == Step(s, e);
    assert Deaths(s, [e], id) == if Dies(s, e, id) then [Step(s, e).tick] else [];
    assert DutyAfter(s, [e], id, p, DutyAfter(START, trace, id, p, Unborn))
           == DutyStep(s, e, id, p, DutyAfter(START, trace, id, p, Unborn));
  }

  class TimingWheel {
    var wheels: Wheels
    var lastTs: int
    var tick: nat
    /** What each entry ever created is for. */
    var callbacks: map<EntryId, Timer>
    /** The destructors that ran, in the order in which they ended. */
    var fired: seq<Fired>
    var nextId: EntryId
    ghost var mid: bool
    ghost var trace: seq<Event>

    ghost function Now(): State
      reads this
    {
      State(wheels, tick, mid)
    }

    /** The object is where its trace leads, and its record is the deaths of that run; the entries in
        `dying` are dead, but their destructors have not run yet. */
    ghost predicate Consistent(dying: set<EntryId>)
      reads this
    {
      Agrees(Now(), trace, fired, callbacks, nextId, dying)
    }

    ghost predicate Valid()
      reads this
    {
      !mid && Consistent({})
    }

    constructor ()
      ensures Valid() && trace == [] && fired == [] && lastTs == 0 && tick == 0
    {
      wheels := NoEntries();
      lastTs, tick := 0, 0;
      callbacks, fired, nextId := map[], [], 0;
      mid, trace := false, [];
    }

    method InsertSecondEntry(delay: nat, id: EntryId)
      requires 0 < delay < TIMING_MINUTE
      modifies `wheels
      ensures wheels == TimingWheels.InsertEntry(old(wheels), delay, id)
    {
      wheels := wheels[SECOND := wheels[SECOND][delay - 1 := wheels[SECOND][delay - 1] + {id}]];
    }

    method InsertMinuteEntry(delay: nat, id: EntryId)
      requires TIMING_MINUTE <= delay < TIMING_HOUR
      modifies `wheels
      ensures wheels == TimingWheels.InsertEntry(old(wheels), delay, id)
      decreases delay, 0
    {
      var minute, second := delay / TIMING_MINUTE, delay % TIMING_MINUTE;
      wheels := wheels[MINUTE := wheels[MINUTE][minute - 1 := wheels[MINUTE][minute - 1] + {id}]];
      InsertEntry(second, id);
    }

    method InsertHourEntry(delay: nat, id: EntryId)
      requires TIMING_HOUR <= delay < TIMING_DAY
      modifies `wheels
      ensures wheels == TimingWheels.InsertEntry(old(wheels), delay, id)
      decreases delay, 0
    {
      var hour, second := delay / TIMING_HOUR, delay % TIMING_HOUR;
      wheels := wheels[HOUR := wheels[HOUR][hour - 1 := wheels[HOUR][hour - 1] + {id}]];
      InsertEntry(second, id);
    }

    method InsertDayEntry(delay: nat, id: EntryId)
      requires TIMING_DAY <= delay < TOO_LONG
      modifies `wheels
      ensures wheels == TimingWheels.InsertEntry(old(wheels), delay, id)
      decreases delay, 0
    {
      var day, second := delay / TIMING_DAY, delay % TIMING_DAY;
      wheels := wheels[DAY := wheels[DAY][day - 1 := wheels[DAY][day - 1] + {id}]];
      InsertEntry(second, id);
    }

    method InsertEntry(delay: int, id: EntryId)
      modifies `wheels
      ensures wheels == TimingWheels.InsertEntry(old(wheels), delay, id)
      decreases delay, 1
    {
      if delay <= 0 {
      } else if delay < TIMING_MINUTE {
        InsertSecondEntry(delay, id);
      } else if delay < TIMING_HOUR {
        InsertMinuteEntry(delay, id);
      } else if delay < TIMING_DAY {
        InsertHourEntry(delay, id);
      } else {
        var day := delay / TIMING_DAY;
        if day > 30 {
          return;
        }
        InsertDayEntry(delay, id);
      }
    }

    /** Turns a wheel; `dead` are the entries whose last reference was in its first slot. */
    method PopUp(k: nat) returns (dead: set<EntryId>)
      requires k < TYPES
      modifies `wheels
      ensures wheels == TimingWheels.PopUp(old(wheels), k)
      ensures forall id :: id in dead <==> Live(old(wheels), id) && !Live(wheels, id)
    {
      var wheelEntry := wheels[k][0];
      ghost var was := wheels;
      wheels := wheels[k := wheels[k][1..] + [{}]];
      dead := set id | id in wheelEntry && !Live(wheels, id);
      forall id | Live(was, id) && !Live(wheels, id) ensures id in wheelEntry {
        var k', i :| 0 <= k' < TYPES && 0 <= i < Length(k') && id in was[k'][i];
        if k' != k || i > 0 {
          PopUpKeeps(was, k, k', i, id);
        }
      }
      forall id | Live(wheels, id) ensures Live(was, id) { PopUpAddsNothing(was, k, id); }
    }

    /** The destructors of entries that have just lost their last reference, in any order. */
    method Destroy(dead: set<EntryId>) returns (ghost inserted: seq<Event>, ghost order: seq<EntryId>)
      requires Consistent(dead)
      modifies `wheels, `trace, `fired, `callbacks, `nextId
      ensures Consistent({}) && Grown(old(callbacks), callbacks) && OnlyOwed(inserted, old(callbacks))
      ensures trace == old(trace) + inserted
      ensures (forall id :: id in order <==> id in dead) && DestroyedInOrder(order, inserted, callbacks)
    {
      hide Live, TimingWheels.InsertEntry, EntryAgrees, Run, Fine, Aftermath, Are;
      var todo := dead;
      inserted, order := [], [];
      assert Are([], [], callbacks) by { NoneAre(callbacks); }
      forall id | id in dead ensures id in callbacks { DyingEntry(Now(), trace, fired, callbacks, nextId, dead, id); }
      while todo != {}
        invariant todo <= dead && Consistent(todo)
        invariant trace == old(trace) + inserted && OnlyOwed(inserted, old(callbacks))
        invariant Grown(old(callbacks), callbacks)
        invariant forall id :: id in order <==> id in dead && id !in todo
        invariant forall id :: id in order ==> id in callbacks
        invariant forall j, k :: 0 <= j < k < |order| ==> order[j] != order[k]
        invariant Are(inserted, Aftermaths(order, callbacks), callbacks)
        invariant forall e :: e in inserted ==> e.Insert? && e.id in callbacks && (e.id in old(callbacks) ==> e.id in order)
        decreases todo
      {
        var id :| id in todo;
        ghost var before := callbacks;
        ghost var more := RunCallback(id, todo);
        NextAftermath(order, id, inserted, before, more, callbacks);
        todo := todo - {id};
        inserted, order := inserted + more, order + [id];
      }
    }

    /** One destructor: the timers its callback starts, and for `runEvery` the next entry. */
    method RunCallback(id: EntryId, ghost dying: set<EntryId>) returns (ghost inserted: seq<Event>)
      requires Consistent(dying) && id in dying
      modifies `wheels, `trace, `fired, `callbacks, `nextId
      ensures Consistent(dying - {id}) && Grown(old(callbacks), callbacks) && OnlyOwed(inserted, old(callbacks))
      ensures trace == old(trace) + inserted
      ensures id in old(callbacks) && Are(inserted, Aftermath(old(callbacks)[id]), callbacks)
      ensures forall e :: e in inserted ==> e.Insert? && e.id in callbacks && (e.id in old(callbacks) ==> e.id == id)
    {
      hide Live, TimingWheels.InsertEntry, EntryAgrees, Run, Fine, CreatedByAll;
      DyingEntry(Now(), trace, fired, callbacks, nextId, dying, id);
      var timer := callbacks[id];
      inserted := StartAll(timer, dying);
      ghost var was := Now();
      if timer.Every? {
        InsertEntry(timer.interval, id);
        Restarted(was, trace, fired, callbacks, nextId, dying, id);
        trace := trace + [Insert(timer.interval, id)];
        inserted := inserted + [Insert(timer.interval, id)];
      } else {
        Ended(was, trace, fired, callbacks, nextId, dying, id);
      }
      fired := fired + [Fired(id, tick)];
    }

    /** The timers that a callback starts, one after the other. */
    method StartAll(timer: Timer, ghost dying: set<EntryId>) returns (ghost inserted: seq<Event>)
      requires Consistent(dying) && Fine(timer)
      modifies `wheels, `trace, `fired, `callbacks, `nextId
      ensures Consistent(dying) && Grown(old(callbacks), callbacks) && OnlyNew(inserted, old(callbacks))
      ensures trace == old(trace) + inserted && (timer.starts == [] ==> inserted == [] && callbacks == old(callbacks))
      ensures Are(inserted, CreatedByAll(timer.starts), callbacks)
      decreases timer, 0
    {
      hide Live, TimingWheels.InsertEntry, EntryAgrees, Run, Agrees, CreatedByAll, CreatedBy, Are;
      inserted := [];
      assert Are([], CreatedByAll(timer.starts[..0]), callbacks) by { NoneAre(callbacks); }
      for i := 0 to |timer.starts|
        invariant Consistent(dying) && Grown(old(callbacks), callbacks) && OnlyNew(inserted, old(callbacks))
        invariant trace == old(trace) + inserted
        invariant timer.starts == [] ==> inserted == [] && callbacks == old(callbacks)
        invariant Are(inserted, CreatedByAll(timer.starts[..i]), callbacks)
      {
        ghost var before := callbacks;
        var id;
        ghost var more;
        id, more := Create(timer.starts[i], dying);
        more := [Insert(Delay(timer.starts[i]), id)] + more;
        NextCreated(timer.starts, i, inserted, before, more, callbacks);
        inserted := inserted + more;
      }
      assert timer.starts[..|timer.starts|] == timer.starts;
    }

    /** A new entry. If its delay gives it no slot, its destructor runs before this returns. */
    method Create(timer: Timer, ghost dying: set<EntryId>) returns (id: EntryId, ghost inserted: seq<Event>)
      requires Consistent(dying) && Fine(timer)
      modifies `wheels, `trace, `fired, `callbacks, `nextId
      ensures Consistent(dying) && Grown(old(callbacks), callbacks) && OnlyNew(inserted, old(callbacks))
      ensures id !in old(callbacks) && id in callbacks && callbacks[id] == timer
      ensures trace == old(trace) + ([Insert(Delay(timer), id)] + inserted)
      ensures Are([Insert(Delay(timer), id)] + inserted, CreatedBy(timer), callbacks)
      ensures 0 < Delay(timer) < TOO_LONG || timer.starts == [] ==>
                inserted == [] && callbacks == old(callbacks)[id := timer]
      decreases timer, 1
    {
      hide Live, TimingWheels.InsertEntry, EntryAgrees, Run, CreatedByAll;
      id := nextId;
      IdsAreOld(Now(), trace, fired, callbacks, nextId, dying);
      Created(Now(), trace, fired, callbacks, nextId, timer, dying);
      InsertLive(wheels, Delay(timer), id, id);
      nextId := nextId + 1;
      callbacks := callbacks[id := timer];
      InsertEntry(Delay(timer), id);
      trace := trace + [Insert(Delay(timer), id)];
      inserted := [];
      if !Live(wheels, id) {
        inserted := StartAll(timer, dying + {id});
        Ended(Now(), trace, fired, callbacks, nextId, dying + {id}, id);
        assert dying + {id} - {id} == dying;
        fired := fired + [Fired(id, tick)];
      }
    }

    method OnTimer(now: int) returns (ghost during: seq<Event>, ghost after: seq<Event>)
      requires Valid()
      modifies this
      ensures Valid() && Grown(old(callbacks), callbacks)
      ensures lastTs == Clock(old(lastTs), now).0
      ensures OnlyOwed(during + after, old(callbacks))
      ensures TickRuns(old(Now()), old(lastTs), now, during, after, callbacks)
      ensures trace == old(trace) + TickEvents(old(lastTs), now, during, after)
    {
      hide Destroyed, Agrees, Run, Step;
      AgreesIsRun(Now(), trace, fired, callbacks, nextId, {});
      during, after := [], [];
      if lastTs == 0 {
        lastTs := now;
      }
      if now - lastTs < 1000 {
        return;
      }
      lastTs := now;
      tick := tick + 1;
      during := TurnSecondWheel();
      ghost var between := callbacks;
      AgreesIsRun(Now(), trace, fired, callbacks, nextId, {});
      AfterTurn(old(trace), during);
      after := TurnNextWheel();
      DestroyedGrown(old(Now()), BeginTick, during, between, callbacks);
    }

    /** The first `popUp` of a tick, after the tick is counted. */
    method TurnSecondWheel() returns (ghost inserted: seq<Event>)
      requires tick > 0 && !mid && Agrees(State(wheels, tick - 1, false), trace, fired, callbacks, nextId, {})
      modifies `wheels, `mid, `trace, `fired, `callbacks, `nextId
      ensures mid && Consistent({}) && Grown(old(callbacks), callbacks) && OnlyOwed(inserted, old(callbacks))
      ensures trace == old(trace) + [BeginTick] + inserted
      ensures Destroyed(old(State(wheels, tick - 1, false)), BeginTick, inserted, callbacks)
    {
      hide Live, TimingWheels.InsertEntry, TimingWheels.PopUp, EntryAgrees, Run, Agrees;
      ghost var was := State(wheels, tick - 1, false);
      var dead := PopUp(SECOND);
      mid := true;
      Turned(was, trace, fired, callbacks, nextId, BeginTick, dead);
      trace := trace + [BeginTick];
      ghost var order;
      inserted, order := Destroy(dead);
    }

    /** The second `popUp` of a tick, of the wheel the tick selects. */
    method TurnNextWheel() returns (ghost inserted: seq<Event>)
      requires mid && Consistent({})
      modifies `wheels, `mid, `trace, `fired, `callbacks, `nextId
      ensures Valid() && Grown(old(callbacks), callbacks) && OnlyOwed(inserted, old(callbacks))
      ensures trace == old(trace) + [EndTick] + inserted
      ensures Destroyed(old(Now()), EndTick, inserted, callbacks)
    {
      hide Live, TimingWheels.InsertEntry, TimingWheels.PopUp, EntryAgrees, Run, Agrees;
      ghost var was := Now();
      var dead := {};
      if tick % TIMING_MINUTE != 0 {
        dead := PopUp(MINUTE);
      } else if tick % TIMING_HOUR != 0 {
        dead := PopUp(HOUR);
      } else if tick % TIMING_DAY != 0 {
        dead := PopUp(DAY);
      }
      mid := false;
      Turned(was, trace, fired, callbacks, nextId, EndTick, dead);
      trace := trace + [EndTick];
      ghost var order;
      inserted, order := Destroy(dead);
    }

    /** `starts` are the timers that the callback starts. */
    method RunAfter(delay: int, starts: seq<Timer>) returns (id: EntryId, ghost inserted: seq<Event>)
      requires Valid() && Fine(After(delay, starts))
      modifies this
      ensures Valid() && id !in old(callbacks) && id in callbacks && callbacks[id] == After(delay, starts)
      ensures Grown(old(callbacks), callbacks) && OnlyNew(inserted, old(callbacks))
      ensures Are([Insert(delay, id)] + inserted, CreatedBy(After(delay, starts)), callbacks)
      ensures trace == old(trace) + ([Insert(delay, id)] + inserted) && tick == old(tick) && lastTs == old(lastTs)
      ensures 0 < delay < TOO_LONG || starts == [] ==>
                inserted == [] && callbacks == old(callbacks)[id := After(delay, starts)]
    {
      id, inserted := Create(After(delay, starts), {});
    }

    method RunEvery(interval: int, starts: seq<Timer>) returns (id: EntryId)
      requires Valid() && 0 < interval < TOO_LONG && Fine(Every(interval, starts))
      modifies this
      ensures Valid() && id !in old(callbacks) && callbacks == old(callbacks)[id := Every(interval, starts)]
      ensures trace == old(trace) + [Insert(interval, id)] && tick == old(tick) && lastTs == old(lastTs)
    {
      ghost var inserted;
      id, inserted := Create(Every(interval, starts), {});
    }

    /** `insertEntry` with a reference to an entry that is still alive, as `extendLife` does. */
    method InsertAgain(delay: int, id: EntryId)
      requires Valid() && Live(wheels, id) && id in callbacks && callbacks[id].After?
      modifies this
      ensures Valid() && callbacks == old(callbacks)
      ensures trace == old(trace) + [Insert(delay, id)] && tick == old(tick) && lastTs == old(lastTs)
    {
      Extended(Now(), trace, fired, callbacks, nextId, delay, id);
      InsertEntry(delay, id);
      trace := trace + [Insert(delay, id)];
    }

    /** What the object recorded for a one-shot timer, whenever it was started and whatever else ran. */
    lemma OneShotRecord(before: seq<Event>, delay: int, id: EntryId, after: seq<Event>)
      requires Valid() && trace == before + ([Insert(delay, id)] + after)
      requires NoInsertOf(before, id) && NoInsertOf(after, id)
      ensures var start := Run(START, before);
              FiredTicks(fired, id)
              == if 0 < delay < TOO_LONG then
                   if tick < FireTick(start.tick, start.mid, delay) then []
                   else [FireTick(start.tick, start.mid, delay)]
                 else [start.tick]
    {
      var start := Run(START, before);
      StartHasNoEntries(id);
      NeverLive(START, before, id);
      SoundRun(START, before);
      FiresExactlyOnce(start, delay, id, after);
      RunConcat(START, before, [Insert(delay, id)] + after);
      DeathsConcat(START, before, [Insert(delay, id)] + after, id);
      assert ([Insert(delay, id)] + after)[1..] == after;
      assert EntryAgrees(Now(), trace, fired, callbacks, nextId, id, {});
      assert FiredTicks(fired, id) + [] == FiredTicks(fired, id);
    }

    /** What the object recorded for a `runEvery` timer of less than a minute: every multiple of the
        interval after its start, up to now. */
    lemma PeriodicRecord(id: EntryId)
      requires Valid() && id in callbacks && callbacks[id].Every? && callbacks[id].interval < TIMING_MINUTE
      ensures Progression(FiredTicks(fired, id), Birth(START, trace, id), callbacks[id].interval, tick)
    {
      StartHasNoEntries(id);
      assert EntryAgrees(Now(), trace, fired, callbacks, nextId, id, {});
      assert FiredTicks(fired, id) + [] == FiredTicks(fired, id);
      PeriodicFromBirth(START, trace, id, callbacks[id].interval);
    }
  }

  /** `EventLoop::runEvery`: called on the loop's own thread it starts a one-shot timer; only from
      another thread, through the posted functions, does it start a periodic one. */
  method LoopRunEvery(wheel: TimingWheel, interval: int, starts: seq<Timer>, inLoopThread: bool) returns (id: EntryId)
    requires wheel.Valid() && 0 < interval < TOO_LONG && Fine(Every(interval, starts))
    modifies wheel
    ensures wheel.Valid() && id !in old(wheel.callbacks)
    ensures wheel.callbacks
            == old(wheel.callbacks)[id := if inLoopThread then After(interval, starts) else Every(interval, starts)]
    ensures wheel.trace == old(wheel.trace) + [Insert(interval, id)]
  {
    if inLoopThread {
      ghost var inserted;
      id, inserted := wheel.RunAfter(interval, starts);
    } else {
      id := wheel.RunEvery(interval, starts);
    }
  }

  /** Entries are never forgotten. */
  predicate Grown(before: map<EntryId, Timer>, now: map<EntryId, Timer>) {
    forall id :: id in before ==> id in now && now[id] == before[id]
  }

  /** Nothing but new entries. */
  predicate OnlyNew(es: seq<Event>, before: map<EntryId, Timer>) {
    forall e :: e in es ==> e.Insert? && e.id !in before
  }

  /** Nothing but new entries and the next entries of `runEvery` timers. */
  predicate OnlyOwed(es: seq<Event>, before: map<EntryId, Timer>) {
    forall e :: e in es ==>
      e.Insert? && (e.id in before ==> before[e.id].Every? && e.delay == before[e.id].interval)
  }

  // The object's invariant, step by step.

  /** One entry's part: its record, its callback, and for `runEvery` where it stands. */
  predicate EntryAgrees(s: State, trace: seq<Event>, fired: seq<Fired>, callbacks: map<EntryId, Timer>,
                        nextId: EntryId, id: EntryId, dying: set<EntryId>)
  {
    && FiredTicks(fired, id) + (if id in dying then [s.tick] else []) == Deaths(START, trace, id)
    && (id in dying ==> id in callbacks && !Live(s.wheels, id))
    && (Live(s.wheels, id) ==> id in callbacks)
    && (id in callbacks ==> id < nextId && Fine(callbacks[id]))
    && (id !in callbacks ==> NoInsertOf(trace, id))
    && (id in callbacks && callbacks[id].Every? ==>
          DutyAfter(START, trace, id, callbacks[id].interval, Unborn) == if id in dying then Owes else Running)
  }

  ghost predicate Agrees(s: State, trace: seq<Event>, fired: seq<Fired>, callbacks: map<EntryId, Timer>,
                         nextId: EntryId, dying: set<EntryId>)
  {
    && s == Run(START, trace) && Sound(s)
    && forall id :: EntryAgrees(s, trace, fired, callbacks, nextId, id, dying)
  }

  lemma AgreesIsRun(s: State, trace: seq<Event>, fired: seq<Fired>, callbacks: map<EntryId, Timer>,
                    nextId: EntryId, dying: set<EntryId>)
    requires Agrees(s, trace, fired, callbacks, nextId, dying)
    ensures s == Run(START, trace)
  {
  }

  lemma IdsAreOld(s: State, trace: seq<Event>, fired: seq<Fired>, callbacks: map<EntryId, Timer>, nextId: EntryId,
                  dying: set<EntryId>)
    requires Agrees(s, trace, fired, callbacks, nextId, dying)
    ensures nextId !in callbacks && nextId !in dying && !Live(s.wheels, nextId)
  {
    assert EntryAgrees(s, trace, fired, callbacks, nextId, nextId, dying);
  }

  lemma DyingEntry(s: State, trace: seq<Event>, fired: seq<Fired>, callbacks: map<EntryId, Timer>,
                   nextId: EntryId, dying: set<EntryId>, id: EntryId)
    requires Agrees(s, trace, fired, callbacks, nextId, dying) && id in dying
    ensures id in callbacks && Fine(callbacks[id])
  {
    assert EntryAgrees(s, trace, fired, callbacks, nextId, id, dying);
  }

  lemma StartHasNoEntries(id: EntryId)
    ensures !Live(START.wheels, id)
  {
  }

  lemma {:induction false} SoundRun(s: State, es: seq<Event>)
    requires Sound(s)
    ensures Sound(Run(s, es))
    decreases |es|
  {
    if es != [] {
      DueStep(s, es[0], SECOND, 0, 0);
      SoundRun(Step(s, es[0]), es[1..]);
    }
  }

  lemma PopUpKeeps(ws: Wheels, k: nat, k': nat, i: nat, id: EntryId)
    requires k < TYPES && k' < TYPES && i < Length(k') && id in ws[k'][i] && (k' != k || i > 0)
    ensures Live(TimingWheels.PopUp(ws, k), id)
  {
    var ws' := TimingWheels.PopUp(ws, k);
    if k' == k {
      assert id in ws'[k][i - 1];
    } else {
      assert id in ws'[k'][i];
    }
  }

  lemma PopUpAddsNothing(ws: Wheels, k: nat, id: EntryId)
    requires k < TYPES && Live(TimingWheels.PopUp(ws, k), id)
    ensures Live(ws, id)
  {
    var ws' := TimingWheels.PopUp(ws, k);
    var k', i :| 0 <= k' < TYPES && 0 <= i < Length(k') && id in ws'[k'][i];
    if k' == k {
      assert id in ws[k][i + 1];
    } else {
      assert id in ws[k'][i];
    }
  }

  lemma InsertLive(ws: Wheels, delay: int, id: EntryId, x: EntryId)
    ensures Live(TimingWheels.InsertEntry(ws, delay, id), x) <==> Live(ws, x) || (x == id && 0 < delay < TOO_LONG)
  {
    var ws' := TimingWheels.InsertEntry(ws, delay, id);
    forall k, i | 0 <= k < TYPES && 0 <= i < Length(k)
      ensures x in ws'[k][i] <==> x in ws[k][i] || (x == id && Chosen(delay, k, i))
    {
      InsertPlacement(ws, delay, id, k, i, x);
    }
    if 0 < delay < TOO_LONG {
      DigitsSpellDelay(delay);
      var k :| 0 <= k < TYPES && Digit(k, delay) > 0;
      assert Chosen(delay, k, Digit(k, delay) - 1);
    }
  }

  lemma FiredTicksLast(log: seq<Fired>, f: Fired, id: EntryId)
    ensures FiredTicks(log + [f], id) == FiredTicks(log, id) + if f.id == id then [f.tick] else []
  {
    assert (log + [f])[..|log|] == log;
  }

  lemma Turned(s: State, trace: seq<Event>, fired: seq<Fired>, callbacks: map<EntryId, Timer>,
               nextId: EntryId, e: Event, dead: set<EntryId>)
    requires Agrees(s, trace, fired, callbacks, nextId, {})
    requires if s.mid then e.EndTick? else e.BeginTick?
    requires forall id :: id in dead <==> Live(s.wheels, id) && !Live(Step(s, e).wheels, id)
    ensures Agrees(Step(s, e), trace + [e], fired, callbacks, nextId, dead)
  {
    hide Live, TimingWheels.PopUp, TimingWheels.InsertEntry, EntryAgrees;
    DueStep(s, e, SECOND, 0, 0);
    TraceGrows(trace, e, 0, 0);
    forall id
      ensures EntryAgrees(Step(s, e), trace + [e], fired, callbacks, nextId, id, dead)
    {
      EntryTurned(s, trace, fired, callbacks, nextId, e, dead, id);
    }
  }

  lemma EntryTurned(s: State, trace: seq<Event>, fired: seq<Fired>, callbacks: map<EntryId, Timer>,
                    nextId: EntryId, e: Event, dead: set<EntryId>, id: EntryId)
    requires s == Run(START, trace) && EntryAgrees(s, trace, fired, callbacks, nextId, id, {})
    requires id in dead <==> Live(s.wheels, id) && !Live(Step(s, e).wheels, id)
    requires if s.mid then e.EndTick? else e.BeginTick?
    ensures EntryAgrees(Step(s, e), trace + [e], fired, callbacks, nextId, id, dead)
  {
    hide Live, TimingWheels.PopUp, TimingWheels.InsertEntry;
    if Live(Step(s, e).wheels, id) && !Live(s.wheels, id) {
      if s.mid && SecondTurn(s.tick) < TYPES {
        PopUpAddsNothing(s.wheels, SecondTurn(s.tick), id);
      } else if !s.mid {
        PopUpAddsNothing(s.wheels, SECOND, id);
      }
    }
    TraceGrows(trace, e, id, if id in callbacks && callbacks[id].Every? then callbacks[id].interval else 0);
  }

  lemma Ended(s: State, trace: seq<Event>, fired: seq<Fired>, callbacks: map<EntryId, Timer>,
              nextId: EntryId, dying: set<EntryId>, id: EntryId)
    requires Agrees(s, trace, fired, callbacks, nextId, dying) && id in dying
    requires id in callbacks && callbacks[id].After?
    ensures Agrees(s, trace, fired + [Fired(id, s.tick)], callbacks, nextId, dying - {id})
  {
    hide EntryAgrees;
    var fired', dying' := fired + [Fired(id, s.tick)], dying - {id};
    forall x ensures EntryAgrees(s, trace, fired', callbacks, nextId, x, dying') {
      assert EntryAgrees(s, trace, fired, callbacks, nextId, x, dying);
      EntryEnded(s, trace, fired, callbacks, nextId, dying, id, x);
    }
  }

  lemma EntryEnded(s: State, trace: seq<Event>, fired: seq<Fired>, callbacks: map<EntryId, Timer>,
                   nextId: EntryId, dying: set<EntryId>, id: EntryId, x: EntryId)
    requires id in dying && id in callbacks && callbacks[id].After?
    requires EntryAgrees(s, trace, fired, callbacks, nextId, x, dying)
    ensures EntryAgrees(s, trace, fired + [Fired(id, s.tick)], callbacks, nextId, x, dying - {id})
  {
    hide Live, Deaths, DutyAfter, FiredTicks;
    FiredTicksLast(fired, Fired(id, s.tick), x);
  }

  lemma Restarted(s: State, trace: seq<Event>, fired: seq<Fired>, callbacks: map<EntryId, Timer>,
                  nextId: EntryId, dying: set<EntryId>, id: EntryId)
    requires Agrees(s, trace, fired, callbacks, nextId, dying) && id in dying
    requires id in callbacks && callbacks[id].Every?
    ensures var e := Insert(callbacks[id].interval, id);
            Agrees(Step(s, e), trace + [e], fired + [Fired(id, s.tick)], callbacks, nextId, dying - {id})
  {
    hide Live, TimingWheels.InsertEntry, EntryAgrees;
    var e := Insert(callbacks[id].interval, id);
    TraceGrows(trace, e, 0, 0);
    assert EntryAgrees(s, trace, fired, callbacks, nextId, id, dying);
    forall x
      ensures EntryAgrees(Step(s, e), trace + [e], fired + [Fired(id, s.tick)], callbacks, nextId, x, dying - {id})
    {
      assert EntryAgrees(s, trace, fired, callbacks, nextId, x, dying);
      EntryRestarted(s, trace, fired, callbacks, nextId, dying, id, x);
    }
  }

  lemma EntryRestarted(s: State, trace: seq<Event>, fired: seq<Fired>, callbacks: map<EntryId, Timer>,
                       nextId: EntryId, dying: set<EntryId>, id: EntryId, x: EntryId)
    requires s == Run(START, trace) && id in callbacks && callbacks[id].Every?
    requires EntryAgrees(s, trace, fired, callbacks, nextId, id, dying) && id in dying
    requires EntryAgrees(s, trace, fired, callbacks, nextId, x, dying)
    ensures var e := Insert(callbacks[id].interval, id);
            EntryAgrees(Step(s, e), trace + [e], fired + [Fired(id, s.tick)], callbacks, nextId, x, dying - {id})
  {
    hide Live, TimingWheels.InsertEntry;
    var e := Insert(callbacks[id].interval, id);
    FiredTicksLast(fired, Fired(id, s.tick), x);
    InsertLive(s.wheels, e.delay, id, x);
    TraceGrows(trace, e, x, if x in callbacks && callbacks[x].Every? then callbacks[x].interval else 0);
  }

  lemma Created(s: State, trace: seq<Event>, fired: seq<Fired>, callbacks: map<EntryId, Timer>,
                nextId: EntryId, timer: Timer, dying: set<EntryId>)
    requires Agrees(s, trace, fired, callbacks, nextId, dying) && Fine(timer)
    ensures var e := Insert(Delay(timer), nextId);
            var dying' := if Live(Step(s, e).wheels, nextId) then dying else dying + {nextId};
            Agrees(Step(s, e), trace + [e], fired, callbacks[nextId := timer], nextId + 1, dying')
  {
    hide Live, TimingWheels.InsertEntry, EntryAgrees, Fine;
    var e := Insert(Delay(timer), nextId);
    var dying' := if Live(Step(s, e).wheels, nextId) then dying else dying + {nextId};
    TraceGrows(trace, e, 0, 0);
    assert EntryAgrees(s, trace, fired, callbacks, nextId, nextId, dying);
    var callbacks', next := callbacks[nextId := timer], nextId + 1;
    forall x ensures EntryAgrees(Step(s, e), trace + [e], fired, callbacks', next, x, dying') {
      assert EntryAgrees(s, trace, fired, callbacks, nextId, x, dying);
      EntryCreated(s, trace, fired, callbacks, nextId, timer, dying, x);
    }
  }

  lemma EntryCreated(s: State, trace: seq<Event>, fired: seq<Fired>, callbacks: map<EntryId, Timer>,
                     nextId: EntryId, timer: Timer, dying: set<EntryId>, x: EntryId)
    requires s == Run(START, trace) && EntryAgrees(s, trace, fired, callbacks, nextId, x, dying)
    requires EntryAgrees(s, trace, fired, callbacks, nextId, nextId, dying) && Fine(timer)
    ensures var e := Insert(Delay(timer), nextId);
            var dying' := if Live(Step(s, e).wheels, nextId) then dying else dying + {nextId};
            EntryAgrees(Step(s, e), trace + [e], fired, callbacks[nextId := timer], nextId + 1, x, dying')
  {
    hide Live, TimingWheels.InsertEntry, Deaths, DutyAfter, FiredTicks, Run;
    var e := Insert(Delay(timer), nextId);
    InsertLive(s.wheels, Delay(timer), nextId, x);
    if x == nextId {
      var p := if timer.Every? then timer.interval else 0;
      UnbornUntilInserted(START, trace, nextId, p);
      TraceGrows(trace, e, x, p);
    } else {
      TraceGrows(trace, e, x, if x in callbacks && callbacks[x].Every? then callbacks[x].interval else 0);
    }
  }

  lemma {:induction false} UnbornUntilInserted(s: State, es: seq<Event>, id: EntryId, p: nat)
    requires NoInsertOf(es, id)
    ensures DutyAfter(s, es, id, p, Unborn) == Unborn
    decreases |es|
  {
    if es != [] { UnbornUntilInserted(Step(s, es[0]), es[1..], id, p); }
  }

  lemma Extended(s: State, trace: seq<Event>, fired: seq<Fired>, callbacks: map<EntryId, Timer>,
                 nextId: EntryId, delay: int, id: EntryId)
    requires Agrees(s, trace, fired, callbacks, nextId, {}) && Live(s.wheels, id)
    requires id in callbacks && callbacks[id].After?
    ensures Agrees(Step(s, Insert(delay, id)), trace + [Insert(delay, id)], fired, callbacks, nextId, {})
  {
    hide Live, TimingWheels.InsertEntry, EntryAgrees;
    var e := Insert(delay, id);
    TraceGrows(trace, e, 0, 0);
    forall x ensures EntryAgrees(Step(s, e), trace + [e], fired, callbacks, nextId, x, {}) {
      assert EntryAgrees(s, trace, fired, callbacks, nextId, x, {});
      EntryExtended(s, trace, fired, callbacks, nextId, delay, id, x);
    }
  }

  lemma EntryExtended(s: State, trace: seq<Event>, fired: seq<Fired>, callbacks: map<EntryId, Timer>,
                      nextId: EntryId, delay: int, id: EntryId, x: EntryId)
    requires s == Run(START, trace) && EntryAgrees(s, trace, fired, callbacks, nextId, x, {})
    requires Live(s.wheels, id) && id in callbacks && callbacks[id].After?
    ensures EntryAgrees(Step(s, Insert(delay, id)), trace + [Insert(delay, id)], fired, callbacks, nextId, x, {})
  {
    hide Live, TimingWheels.InsertEntry;
    InsertLive(s.wheels, delay, id, x);
    TraceGrows(trace, Insert(delay, id), x, if x in callbacks && callbacks[x].Every? then callbacks[x].interval else 0);
  }
}
