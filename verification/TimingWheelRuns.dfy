/** When a timer fires: theorems over whole runs of the wheels, with any other insertions and any
    tick phase. */
module TimingWheelRuns {
  import opened TimingWheels

  function Later(a: nat, b: nat): nat { if a > b then a else b }

  /** The turn of wheel `k` that drops the reference an insertion at `tick` puts there. */
  function DueTurn(k: nat, tick: nat, mid: bool, delay: nat): nat
    requires k < TYPES
  {
    TurnsNow(k, tick, mid) + Digit(k, delay)
  }

  function DropTick(k: nat, tick: nat, mid: bool, delay: nat): nat
    requires k < TYPES
  {
    if Digit(k, delay) == 0 then 0 else TurnTick(k, DueTurn(k, tick, mid, delay))
  }

  /** The tick at which an entry inserted at `tick` fires: when the last of its digits is dropped. */
  function FireTick(tick: nat, mid: bool, delay: nat): nat {
    Later(Later(DropTick(SECOND, tick, mid, delay), DropTick(MINUTE, tick, mid, delay)),
        Later(DropTick(HOUR, tick, mid, delay), DropTick(DAY, tick, mid, delay)))
  }

  /** Some digit of an insertion at (`tick`, `mid`) is still to be dropped at `s`. */
  predicate Outstanding(s: State, tick: nat, mid: bool, delay: nat) {
    exists k :: 0 <= k < TYPES && Digit(k, delay) > 0
                && DueTurn(k, tick, mid, delay) > TurnsNow(k, s.tick, s.mid)
  }

  /** The entry's references are those of its latest insertion, at (`tick`, `mid`), and none that
      outlasts them on the same wheel. */
  ghost predicate Held(s: State, id: EntryId, tick: nat, mid: bool, delay: nat) {
    && Sound(s) && 0 < delay < TOO_LONG && (mid ==> tick > 0)
    && (forall k :: 0 <= k < TYPES ==> TurnsNow(k, tick, mid) <= TurnsNow(k, s.tick, s.mid))
    && (forall k, n: nat :: 0 <= k < TYPES && Due(s, k, n, id) ==>
          Digit(k, delay) > 0 && n <= DueTurn(k, tick, mid, delay))
    && (forall k :: 0 <= k < TYPES && Digit(k, delay) > 0
                    && DueTurn(k, tick, mid, delay) > TurnsNow(k, s.tick, s.mid) ==>
          Due(s, k, DueTurn(k, tick, mid, delay), id))
  }

  lemma LiveIffOutstanding(s: State, id: EntryId, tick: nat, mid: bool, delay: nat)
    requires Held(s, id, tick, mid, delay)
    ensures Live(s.wheels, id) <==> Outstanding(s, tick, mid, delay)
  {
    LiveIffDue(s, id);
  }

  /** Holding depends only on what is due and on the turns so far. */
  lemma HeldCarries(s: State, s': State, id: EntryId, tick: nat, mid: bool, delay: nat)
    requires Held(s, id, tick, mid, delay) && Sound(s')
    requires forall k :: 0 <= k < TYPES ==> TurnsNow(k, s.tick, s.mid) <= TurnsNow(k, s'.tick, s'.mid)
    requires forall k, n: nat :: 0 <= k < TYPES ==>
               (Due(s', k, n, id) <==> Due(s, k, n, id) && n > TurnsNow(k, s'.tick, s'.mid))
    ensures Held(s', id, tick, mid, delay)
  {
  }

  lemma HeldStep(s: State, e: Event, id: EntryId, tick: nat, mid: bool, delay: nat)
    requires Held(s, id, tick, mid, delay) && !(e.Insert? && e.id == id)
    ensures Held(Step(s, e), id, tick, mid, delay)
  {
    var s' := Step(s, e);
    forall k, n: nat | 0 <= k < TYPES
      ensures Due(s', k, n, id) <==> Due(s, k, n, id) && n > TurnsNow(k, s'.tick, s'.mid)
    {
      DueStep(s, e, k, n, id);
    }
    forall k | 0 <= k < TYPES
      ensures TurnsNow(k, s.tick, s.mid) <= TurnsNow(k, s'.tick, s'.mid)
    {
      DueStep(s, e, k, 0, id);
    }
    DueStep(s, e, SECOND, 0, id);
    HeldCarries(s, s', id, tick, mid, delay);
  }

  /** Inserting a new entry, or an entry again with the same delay, starts its term afresh. */
  lemma HeldInsert(s: State, id: EntryId, delay: int, tick: nat, mid: bool)
    requires Sound(s) && 0 < delay < TOO_LONG
    requires !Live(s.wheels, id) || Held(s, id, tick, mid, delay)
    ensures Held(Step(s, Insert(delay, id)), id, s.tick, s.mid, delay)
  {
    var s' := Step(s, Insert(delay, id));
    LiveIffDue(s, id);
    DigitsSpellDelay(delay);
    forall k, n: nat | 0 <= k < TYPES
      ensures Due(s', k, n, id) <==> Due(s, k, n, id) || (Digit(k, delay) > 0 && n == DueTurn(k, s.tick, s.mid, delay))
    {
      DueStep(s, Insert(delay, id), k, n, id);
      if Due(s, k, n, id) { assert n > TurnsNow(k, s.tick, s.mid); }
    }
  }

  lemma DropTickInverse(s: State, k: nat, tick: nat, mid: bool, delay: nat)
    requires Sound(s) && k < TYPES && Digit(k, delay) > 0
    ensures DueTurn(k, tick, mid, delay) > TurnsNow(k, s.tick, s.mid) <==>
              (if s.mid && k != SECOND then s.tick - 1 else s.tick) < DropTick(k, tick, mid, delay)
  {
    TurnTickInverse(k, DueTurn(k, tick, mid, delay), if s.mid && k != SECOND then s.tick - 1 else s.tick);
  }

  /** The firing tick is the latest of the drops. */
  lemma FireTickIsLatest(tick: nat, mid: bool, delay: nat) returns (k: nat)
    requires 0 < delay < TOO_LONG
    ensures k < TYPES && Digit(k, delay) > 0 && FireTick(tick, mid, delay) == DropTick(k, tick, mid, delay)
    ensures DropTick(SECOND, tick, mid, delay) <= FireTick(tick, mid, delay)
    ensures DropTick(HOUR, tick, mid, delay) <= FireTick(tick, mid, delay)
    ensures DropTick(MINUTE, tick, mid, delay) <= FireTick(tick, mid, delay)
    ensures DropTick(DAY, tick, mid, delay) <= FireTick(tick, mid, delay)
  {
    var f := FireTick(tick, mid, delay);
    assert f > 0 by {
      DigitsSpellDelay(delay);
      var j :| 0 <= j < TYPES && Digit(j, delay) > 0;
      DropTickPositive(j, tick, mid, delay);
    }
    k := if f == DropTick(SECOND, tick, mid, delay) then SECOND
         else if f == DropTick(MINUTE, tick, mid, delay) then MINUTE
         else if f == DropTick(HOUR, tick, mid, delay) then HOUR else DAY;
  }

  lemma DropTickPositive(k: nat, tick: nat, mid: bool, delay: nat)
    requires k < TYPES && Digit(k, delay) > 0
    ensures DropTick(k, tick, mid, delay) > 0
  {
  }

  /** Between ticks, an insertion is outstanding exactly until its firing tick. */
  lemma OutstandingUntilFireTick(s: State, tick: nat, mid: bool, delay: nat)
    requires Sound(s) && 0 < delay < TOO_LONG
    ensures !s.mid ==> (Outstanding(s, tick, mid, delay) <==> s.tick < FireTick(tick, mid, delay))
    ensures s.tick < FireTick(tick, mid, delay) ==> Outstanding(s, tick, mid, delay)
    ensures s.tick > FireTick(tick, mid, delay) ==> !Outstanding(s, tick, mid, delay)
  {
    hide DropTick, DueTurn, TurnsNow, Digit, FireTick;
    var last := FireTickIsLatest(tick, mid, delay);
    DropTickInverse(s, last, tick, mid, delay);
    if Outstanding(s, tick, mid, delay) {
      var k :| 0 <= k < TYPES && Digit(k, delay) > 0
               && DueTurn(k, tick, mid, delay) > TurnsNow(k, s.tick, s.mid);
      DropTickInverse(s, k, tick, mid, delay);
    }
  }

  /** The tick in which the last digit goes is the firing tick. */
  lemma DiesAtFireTick(s: State, e: Event, tick: nat, mid: bool, delay: nat)
    requires Sound(s) && Sound(Step(s, e)) && 0 < delay < TOO_LONG
    requires Outstanding(s, tick, mid, delay) && !Outstanding(Step(s, e), tick, mid, delay)
    ensures Step(s, e).tick == FireTick(tick, mid, delay)
  {
    var s' := Step(s, e);
    OutstandingUntilFireTick(s, tick, mid, delay);
    OutstandingUntilFireTick(s', tick, mid, delay);
    var k :| 0 <= k < TYPES && Digit(k, delay) > 0
             && DueTurn(k, tick, mid, delay) > TurnsNow(k, s.tick, s.mid);
    DropTickInverse(s, k, tick, mid, delay);
    DropTickInverse(s', k, tick, mid, delay);
    assert DropTick(k, tick, mid, delay) <= FireTick(tick, mid, delay);
  }

  predicate NoInsertOf(es: seq<Event>, id: EntryId) {
    forall e :: e in es && e.Insert? ==> e.id != id
  }

  lemma {:induction false} HeldRun(s: State, es: seq<Event>, id: EntryId, tick: nat, mid: bool, delay: nat)
    requires Held(s, id, tick, mid, delay) && NoInsertOf(es, id)
    ensures Held(Run(s, es), id, tick, mid, delay)
    ensures Live(Run(s, es).wheels, id) ==> Live(s.wheels, id)
    ensures Deaths(s, es, id) ==
            if Live(s.wheels, id) && !Live(Run(s, es).wheels, id) then [FireTick(tick, mid, delay)] else []
    decreases |es|
  {
    if es != [] {
      var e, s' := es[0], Step(s, es[0]);
      HeldStep(s, e, id, tick, mid, delay);
      LiveIffOutstanding(s, id, tick, mid, delay);
      LiveIffOutstanding(s', id, tick, mid, delay);
      if Live(s.wheels, id) && !Live(s'.wheels, id) {
        DiesAtFireTick(s, e, tick, mid, delay);
      }
      if !Live(s.wheels, id) {
        StaysDead(s, e, id, tick, mid, delay);
      }
      HeldRun(s', es[1..], id, tick, mid, delay);
    }
  }

  lemma StaysDead(s: State, e: Event, id: EntryId, tick: nat, mid: bool, delay: nat)
    requires Held(s, id, tick, mid, delay) && !(e.Insert? && e.id == id)
    requires !Live(s.wheels, id)
    ensures !Live(Step(s, e).wheels, id)
  {
    LiveIffDue(s, id);
    LiveIffDue(Step(s, e), id);
    if k: nat, n: nat :| k < TYPES && Due(Step(s, e), k, n, id) {
      DueStep(s, e, k, n, id);
    }
  }

  /** runAfter, whatever the delay, phase and company: an accepted delay fires once, at its firing
      tick; a refused one fires at once. */
  lemma FiresExactlyOnce(s: State, delay: int, id: EntryId, es: seq<Event>)
    requires Sound(s) && !Live(s.wheels, id) && NoInsertOf(es, id)
    ensures var s1 := Step(s, Insert(delay, id));
            var s2 := Run(s1, es);
            var deaths := Deaths(s, [Insert(delay, id)] + es, id);
            if 0 < delay < TOO_LONG then
              && deaths == (if Live(s2.wheels, id) then [] else [FireTick(s.tick, s.mid, delay)])
              && (s2.tick < FireTick(s.tick, s.mid, delay) ==> Live(s2.wheels, id))
              && (s2.tick > FireTick(s.tick, s.mid, delay) ==> !Live(s2.wheels, id))
              && (!s2.mid ==> (Live(s2.wheels, id) <==> s2.tick < FireTick(s.tick, s.mid, delay)))
            else deaths == [s.tick]
  {
    var e := Insert(delay, id);
    var s1 := Step(s, e);
    assert ([e] + es)[1..] == es;
    if 0 < delay < TOO_LONG {
      HeldInsert(s, id, delay, s.tick, s.mid);
      LiveOnInsert(s, id, delay);
      HeldRun(s1, es, id, s.tick, s.mid, delay);
      var s2 := Run(s1, es);
      LiveIffOutstanding(s2, id, s.tick, s.mid, delay);
      OutstandingUntilFireTick(s2, s.tick, s.mid, delay);
    } else {
      NeverLive(s, es, id);
    }
  }

  lemma LiveOnInsert(s: State, id: EntryId, delay: int)
    requires Sound(s) && 0 < delay < TOO_LONG
    ensures Live(Step(s, Insert(delay, id)).wheels, id)
  {
    DigitsSpellDelay(delay);
    var k :| 0 <= k < TYPES && Digit(k, delay) > 0;
    InsertPlacement(s.wheels, delay, id, k, Digit(k, delay) - 1, id);
  }

  lemma {:induction false} NeverLive(s: State, es: seq<Event>, id: EntryId)
    requires Sound(s) && !Live(s.wheels, id) && NoInsertOf(es, id)
    ensures Deaths(s, es, id) == [] && !Live(Run(s, es).wheels, id)
    decreases |es|
  {
    if es != [] {
      var s' := Step(s, es[0]);
      DueStep(s, es[0], SECOND, 0, id);
      LiveIffDue(s, id);
      LiveIffDue(s', id);
      forall k: nat, n: nat | k < TYPES ensures !Due(s', k, n, id) {
        DueStep(s, es[0], k, n, id);
      }
      NeverLive(s', es[1..], id);
    }
  }

  // The deadline.

  lemma TurnsInWindow(k: nat, t: nat, n: nat)
    requires k < TYPES && n <= Length(k)
    ensures k == MINUTE && n < 60 ==> Turns(k, t + n + 1) >= Turns(k, t) + n
    ensures k == HOUR ==> Turns(k, t + 60 * (n + 1)) >= Turns(k, t) + n
    ensures k == DAY ==> Turns(k, t + 3600 * (n + 2)) >= Turns(k, t) + n
  {
    if k == HOUR {
      var q := t / 60;
      assert (t + 60 * (n + 1)) / 60 == q + n + 1;
      assert (t + 60 * (n + 1)) / 3600 == (q + n + 1) / 60 && t / 3600 == q / 60 by {
        DivTwice(t, 60, 60);
        DivTwice(t + 60 * (n + 1), 60, 60);
      }
    } else if k == DAY {
      var q := t / 3600;
      assert (t + 3600 * (n + 2)) / 3600 == q + n + 2;
      assert (t + 3600 * (n + 2)) / 86400 == (q + n + 2) / 24 && t / 86400 == q / 24 by {
        DivTwice(t, 3600, 24);
        DivTwice(t + 3600 * (n + 2), 3600, 24);
      }
    }
  }

  lemma DivTwice(t: nat, a: nat, b: nat)
    requires (a == 60 && b == 60) || (a == 3600 && b == 24)
    ensures t / a / b == t / (a * b)
  {
  }

  /** A digit is dropped within its own share of the delay; in time exactly only for seconds. */
  lemma DropsInTime(k: nat, tick: nat, mid: bool, delay: nat)
    requires k < TYPES && 0 < delay < TOO_LONG && (mid ==> tick > 0) && Digit(k, delay) > 0
    ensures k == SECOND ==> DropTick(k, tick, mid, delay) == tick + Digit(k, delay)
    ensures k != SECOND ==> DropTick(k, tick, mid, delay) < tick + Digit(k, delay) * Unit(k)
  {
    if k != SECOND {
      DigitsSpellDelay(delay);
      assert k == MINUTE ==> Digit(k, delay) < 60;
      DropsBefore(k, if mid then tick - 1 else tick, Digit(k, delay));
    }
  }

  lemma DropsBefore(k: nat, base: nat, n: nat)
    requires k < TYPES && k != SECOND && 0 < n <= Length(k) && (k == MINUTE ==> n < 60)
    ensures TurnTick(k, Turns(k, base) + n) < base + n * Unit(k)
  {
    TurnsInWindow(k, base, n);
    var window := if k == MINUTE then n + 1 else if k == HOUR then 60 * (n + 1) else 3600 * (n + 2);
    TurnTickInverse(k, Turns(k, base) + n, base + window);
    assert window < n * Unit(k);
  }

  lemma LatestDigit(tick: nat, d: nat, h: nat, m: nat, s: nat, fd: nat, fh: nat, fm: nat, fs: nat)
    requires s < 60 && d + h + m + s > 0
    requires if s == 0 then fs == 0 else fs == tick + s
    requires if m == 0 then fm == 0 else fm < tick + m * 60
    requires if h == 0 then fh == 0 else fh < tick + h * 3600
    requires if d == 0 then fd == 0 else fd < tick + d * 86400
    ensures var delay := 86400 * d + 3600 * h + 60 * m + s;
            var fire := Later(Later(fs, fm), Later(fh, fd));
            fire <= tick + delay && (fire == tick + delay <==> delay < 60)
  {
  }

  /** Never late, and on time exactly for delays under a minute: a delay of 60 seconds or more
      always fires early. */
  lemma Deadline(tick: nat, mid: bool, delay: nat)
    requires 0 < delay < TOO_LONG && (mid ==> tick > 0)
    ensures FireTick(tick, mid, delay) <= tick + delay
    ensures FireTick(tick, mid, delay) == tick + delay <==> delay < TIMING_MINUTE
  {
    var d, h, m, s := DigitsSpell(delay);
    forall k | 0 <= k < TYPES && Digit(k, delay) > 0
      ensures k == SECOND ==> DropTick(k, tick, mid, delay) == tick + Digit(k, delay)
      ensures k != SECOND ==> DropTick(k, tick, mid, delay) < tick + Digit(k, delay) * Unit(k)
    {
      DropsInTime(k, tick, mid, delay);
    }
    LatestDigit(tick, d, h, m, s, DropTick(DAY, tick, mid, delay), DropTick(HOUR, tick, mid, delay),
                DropTick(MINUTE, tick, mid, delay), DropTick(SECOND, tick, mid, delay));
  }

  /** A timer of one minute started after the first tick fires one tick later. */
  lemma OneMinuteFiresNextTick()
    ensures FireTick(1, false, 60) == 2
    ensures Deaths(State(NoEntries(), 1, false), [Insert(60, 7), BeginTick, EndTick], 7) == [2]
  {
    var s := State(NoEntries(), 1, false);
    assert !Live(s.wheels, 7);
    assert FireTick(1, false, 60) == 2 by {
      DigitsOf(0, 0, 1, 0);
    }
    FiresExactlyOnce(s, 60, 7, [BeginTick, EndTick]);
    var s1 := Step(s, Insert(60, 7));
    assert [BeginTick, EndTick][1..] == [EndTick];
    assert Run(s1, [BeginTick, EndTick]) == Step(Step(s1, BeginTick), EndTick);
    assert [Insert(60, 7)] + [BeginTick, EndTick] == [Insert(60, 7), BeginTick, EndTick];
  }

  // runEvery: the destructor of an entry runs the callback and inserts the next entry.

  /** Where a periodic entry stands in a run: not created yet, in the wheels, or fired and about to
      be inserted again; `Broken` when the run is not one that `runEvery` makes. */
  datatype Duty = Unborn | Running | Owes | Broken

  /** Its destructor inserts it again before the wheels turn any further. */
  function DutyStep(s: State, e: Event, id: EntryId, p: nat, d: Duty): Duty {
    if e.Insert? && e.id == id then (if (d.Owes? || d.Unborn?) && e.delay == p then Running else Broken)
    else if e.Insert? || d.Unborn? then d
    else if !d.Running? then Broken
    else if Dies(s, e, id) then Owes else Running
  }

  function DutyAfter(s: State, es: seq<Event>, id: EntryId, p: nat, d: Duty): Duty
    decreases |es|
  {
    if es == [] then d else DutyAfter(Step(s, es[0]), es[1..], id, p, DutyStep(s, es[0], id, p, d))
  }

  lemma {:induction false} BrokenStays(s: State, es: seq<Event>, id: EntryId, p: nat)
    ensures DutyAfter(s, es, id, p, Broken) == Broken
    decreases |es|
  {
    if es != [] { BrokenStays(Step(s, es[0]), es[1..], id, p); }
  }

  /** The ticks of `tick + p, tick + 2p, ...`. */
  predicate MultiplesOf(ticks: seq<nat>, tick: nat, p: nat) {
    forall i :: 0 <= i < |ticks| ==> ticks[i] == tick + (i + 1) * p
  }

  /** `ticks` is that progression as far as `now`. */
  predicate Progression(ticks: seq<nat>, tick: nat, p: nat, now: nat) {
    MultiplesOf(ticks, tick, p) && tick + |ticks| * p <= now < tick + (|ticks| + 1) * p
  }

  lemma ProgressionCons(ticks: seq<nat>, tick: nat, p: nat, now: nat)
    requires Progression(ticks, tick + p, p, now)
    ensures Progression([tick + p] + ticks, tick, p, now)
  {
    var all := [tick + p] + ticks;
    forall i | 0 <= i < |all| ensures all[i] == tick + (i + 1) * p {
      if i > 0 { assert all[i] == (tick + p) + i * p; }
    }
    assert (|ticks| + 1) * p == |ticks| * p + p;
    assert (|all| + 1) * p == (|ticks| + 1) * p + p;
  }

  /** With an interval under a minute the callback runs at tick + p, tick + 2p, ... and at no other
      tick, up to the last tick of the run. */
  lemma {:induction false} Periodic(s: State, es: seq<Event>, id: EntryId, p: nat, tick: nat, mid: bool)
    requires 0 < p < TIMING_MINUTE && DutyAfter(s, es, id, p, Running) != Broken
    requires Held(s, id, tick, mid, p) && Live(s.wheels, id) && tick <= s.tick
    ensures Progression(Deaths(s, es, id), tick, p, Run(s, es).tick)
    decreases |es|
  {
    hide Digit, DropTick, DueTurn, TurnsNow, Due, FireTick, Outstanding, Live, Dies, Step;
    if es == [] {
      LiveIffOutstanding(s, id, tick, mid, p);
      SecondsGoFirst(s, tick, mid, p);
    } else {
      var s' := Step(s, es[0]);
      if es[0].Insert? && es[0].id == id {
        BrokenStays(s', es[1..], id, p);
      } else {
        TermStep(s, es[0], id, p, tick, mid);
        if Dies(s, es[0], id) {
          PeriodicFrom(s', es[1..], id, p);
          ProgressionCons(Deaths(s', es[1..], id), tick, p, Run(s', es[1..]).tick);
        } else {
          Periodic(s', es[1..], id, p, tick, mid);
        }
      }
    }
  }

  /** The same from the moment it has fired. */
  lemma {:induction false} PeriodicFrom(s: State, es: seq<Event>, id: EntryId, p: nat)
    requires 0 < p < TIMING_MINUTE && DutyAfter(s, es, id, p, Owes) != Broken
    requires Sound(s) && !Live(s.wheels, id)
    ensures Progression(Deaths(s, es, id), s.tick, p, Run(s, es).tick)
    decreases |es|
  {
    hide Digit, DropTick, DueTurn, TurnsNow, Due, FireTick, Outstanding, Live, InsertEntry, PopUp;
    if es != [] {
      var s' := Step(s, es[0]);
      if es[0] == Insert(p, id) {
        HeldInsert(s, id, p, s.tick, s.mid);
        LiveOnInsert(s, id, p);
        Periodic(s', es[1..], id, p, s.tick, s.mid);
      } else if es[0].Insert? && es[0].id != id {
        NeverLive(s, [es[0]], id);
        assert [es[0]][1..] == [] && Run(s, [es[0]]) == s';
        PeriodicFrom(s', es[1..], id, p);
      } else {
        BrokenStays(s', es[1..], id, p);
      }
    }
  }

  /** The tick at which the entry is first inserted; the last tick if it never is. */
  function Birth(s: State, es: seq<Event>, id: EntryId): nat
    decreases |es|
  {
    if es == [] || (es[0].Insert? && es[0].id == id) then s.tick else Birth(Step(s, es[0]), es[1..], id)
  }

  /** The same for the whole life of a `runEvery` timer. */
  lemma {:induction false} PeriodicFromBirth(s: State, es: seq<Event>, id: EntryId, p: nat)
    requires 0 < p < TIMING_MINUTE && DutyAfter(s, es, id, p, Unborn) != Broken
    requires Sound(s) && !Live(s.wheels, id)
    ensures Progression(Deaths(s, es, id), Birth(s, es, id), p, Run(s, es).tick)
    decreases |es|
  {
    hide Digit, DropTick, DueTurn, TurnsNow, Due, FireTick, Outstanding, Live, InsertEntry, PopUp;
    if es != [] {
      var s' := Step(s, es[0]);
      if es[0] == Insert(p, id) {
        HeldInsert(s, id, p, s.tick, s.mid);
        LiveOnInsert(s, id, p);
        Periodic(s', es[1..], id, p, s.tick, s.mid);
      } else if es[0].Insert? && es[0].id == id {
        BrokenStays(s', es[1..], id, p);
      } else {
        NeverLive(s, [es[0]], id);
        assert [es[0]][1..] == [] && Run(s, [es[0]]) == s';
        PeriodicFromBirth(s', es[1..], id, p);
      }
    }
  }

  /** For any interval, the first firing is at the firing tick of the first insertion. */
  lemma {:induction false} FirstFiring(s: State, es: seq<Event>, id: EntryId, p: nat, tick: nat, mid: bool)
    requires Held(s, id, tick, mid, p) && Live(s.wheels, id) && DutyAfter(s, es, id, p, Running) != Broken
    ensures Deaths(s, es, id) != [] ==> Deaths(s, es, id)[0] == FireTick(tick, mid, p)
    decreases |es|
  {
    hide Digit, DropTick, DueTurn, TurnsNow, InsertEntry, PopUp, SecondTurn, Due, FireTick, Live;
    if es != [] {
      var s' := Step(s, es[0]);
      if es[0].Insert? && es[0].id == id {
        BrokenStays(s', es[1..], id, p);
      } else {
        HeldStep(s, es[0], id, tick, mid, p);
        LiveIffOutstanding(s, id, tick, mid, p);
        LiveIffOutstanding(s', id, tick, mid, p);
        if Dies(s, es[0], id) {
          DiesAtFireTick(s, es[0], tick, mid, p);
        } else {
          FirstFiring(s', es[1..], id, p, tick, mid);
        }
      }
    }
  }

  /** So a minute is the exact limit of `runEvery`: a timer started at `s` first runs its callback one
      interval later if and only if the interval is under a minute. */
  lemma PeriodicOnlyUnderAMinute(s: State, es: seq<Event>, id: EntryId, p: nat)
    requires Sound(s) && !Live(s.wheels, id) && 0 < p < TOO_LONG
    requires DutyAfter(s, [Insert(p, id)] + es, id, p, Unborn) != Broken
    ensures var ticks := Deaths(s, [Insert(p, id)] + es, id);
            ticks != [] ==> (ticks[0] == s.tick + p <==> p < TIMING_MINUTE)
  {
    var s1 := Step(s, Insert(p, id));
    assert ([Insert(p, id)] + es)[1..] == es;
    HeldInsert(s, id, p, s.tick, s.mid);
    LiveOnInsert(s, id, p);
    FirstFiring(s1, es, id, p, s.tick, s.mid);
    Deadline(s.tick, s.mid, p);
  }

  function Again(p: int, id: EntryId, n: nat): (es: seq<Event>)
    ensures |es| == n
  {
    seq(n, _ => Insert(p, id))
  }

  /** An interval that the wheels refuse gives each entry's destructor another entry to destroy: a chain
      of insertions, as long as one likes, in which each fires before the next, and the wheels stand
      still. With an interval they take, not even the first fires at once. */
  lemma {:induction false} RefusedIntervalHasNoEnd(s: State, p: int, id: EntryId, n: nat)
    requires Sound(s) && (0 < p < TOO_LONG || !Live(s.wheels, id))
    ensures Deaths(s, Again(p, id, n), id) == if 0 < p < TOO_LONG then [] else seq(n, _ => s.tick)
    ensures !(0 < p < TOO_LONG) ==> Run(s, Again(p, id, n)) == s
    decreases n
  {
    hide Live;
    if n > 0 {
      var es := Again(p, id, n);
      assert es[1..] == Again(p, id, n - 1);
      if 0 < p < TOO_LONG { LiveOnInsert(s, id, p); } else { assert Step(s, es[0]) == s; }
      RefusedIntervalHasNoEnd(Step(s, es[0]), p, id, n - 1);
    }
  }

  /** Either the current entry goes on, or it fires at its time. */
  lemma TermStep(s: State, e: Event, id: EntryId, p: nat, tick: nat, mid: bool)
    requires 0 < p < TIMING_MINUTE && !(e.Insert? && e.id == id)
    requires Held(s, id, tick, mid, p) && Live(s.wheels, id) && tick <= s.tick
    ensures var s' := Step(s, e);
            && Sound(s') && !(e.Insert? && Dies(s, e, id))
            && (if Dies(s, e, id) then s'.tick == tick + p && !Live(s'.wheels, id)
                else tick <= s'.tick && Live(s'.wheels, id) && Held(s', id, tick, mid, p))
  {
    hide Digit, DropTick, DueTurn, TurnsNow, InsertEntry, PopUp, SecondTurn, Due, FireTick, Live;
    var s' := Step(s, e);
    HeldStep(s, e, id, tick, mid, p);
    LiveIffOutstanding(s, id, tick, mid, p);
    LiveIffOutstanding(s', id, tick, mid, p);
    if Dies(s, e, id) {
      DiesAtFireTick(s, e, tick, mid, p);
      Deadline(tick, mid, p);
    }
  }

  /** A delay under a minute only uses the second wheel, which turns first. */
  lemma SecondsGoFirst(s: State, tick: nat, mid: bool, p: nat)
    requires Sound(s) && 0 < p < TIMING_MINUTE && Outstanding(s, tick, mid, p)
    ensures s.tick < tick + p
  {
    DigitsOf(0, 0, 0, p);
  }

  // Real time.

  /** What `onTimer` does to `last_ts_`, and whether the call counts as a tick. */
  function Clock(last: int, now: int): (r: (int, bool)) {
    var last' := if last == 0 then now else last;
    if now - last' < 1000 then (last', false) else (now, true)
  }

  function ClockAfter(last: int, readings: seq<int>): (r: (int, nat))
    decreases |readings|
  {
    if readings == [] then (last, 0)
    else
      var c := Clock(last, readings[0]);
      var r := ClockAfter(c.0, readings[1..]);
      (r.0, r.1 + if c.1 then 1 else 0)
  }

  /** Positive, never decreasing, and at most `gap` milliseconds apart, from `previous` on. */
  predicate Steady(previous: int, readings: seq<int>, gap: nat)
    decreases |readings|
  {
    readings == [] || (0 < previous <= readings[0] <= previous + gap && Steady(readings[0], readings[1..], gap))
  }

  /** Each tick takes at least one second and less than one second and one gap, though `last_ts_`
      restarts from the reading that made the tick. */
  lemma {:induction false} TicksTakeSeconds(last: int, previous: int, readings: seq<int>, gap: nat)
    requires 0 < last <= previous < last + 1000 && Steady(previous, readings, gap)
    ensures var r := ClockAfter(last, readings);
            && last + 1000 * r.1 <= r.0
            && (if r.1 == 0 then r.0 == last else r.0 < last + r.1 * (1000 + gap))
    decreases |readings|
  {
    if readings != [] {
      var now := readings[0];
      var c := Clock(last, now);
      TicksTakeSeconds(c.0, now, readings[1..], gap);
      var n := ClockAfter(c.0, readings[1..]).1;
      assert (n + 1) * (1000 + gap) == n * (1000 + gap) + (1000 + gap);
    }
  }

  /** The wheels driven by a clock: each reading is an `onTimer` call, and between them (and in
      callbacks) other entries may be inserted. */
  datatype Call = OnTimer(now: int, during: seq<Event>, after: seq<Event>)

  function CallEvents(last: int, call: Call): seq<Event> {
    if Clock(last, call.now).1 then [BeginTick] + call.during + [EndTick] + call.after else call.after
  }

  function Events(last: int, calls: seq<Call>): seq<Event>
    decreases |calls|
  {
    if calls == [] then []
    else CallEvents(last, calls[0]) + Events(Clock(last, calls[0].now).0, calls[1..])
  }

  predicate OnlyInserts(es: seq<Event>) { forall e :: e in es ==> e.Insert? }

  predicate CallsInsert(calls: seq<Call>) {
    forall c :: c in calls ==> OnlyInserts(c.during) && OnlyInserts(c.after)
  }

  predicate WellFormed(calls: seq<Call>, id: EntryId) {
    CallsInsert(calls) && forall c :: c in calls ==> NoInsertOf(c.during, id) && NoInsertOf(c.after, id)
  }

  function Readings(calls: seq<Call>): (r: seq<int>)
    ensures |r| == |calls|
  {
    seq(|calls|, i requires 0 <= i < |calls| => calls[i].now)
  }

  lemma {:induction false} RunConcat(s: State, a: seq<Event>, b: seq<Event>)
    ensures Run(s, a + b) == Run(Run(s, a), b)
    decreases |a|
  {
    if a == [] {
      assert a + b == b;
    } else {
      assert (a + b)[1..] == a[1..] + b;
      RunConcat(Step(s, a[0]), a[1..], b);
    }
  }

  lemma {:induction false} InsertsKeepTime(s: State, es: seq<Event>)
    requires OnlyInserts(es)
    ensures Run(s, es).tick == s.tick && Run(s, es).mid == s.mid
    decreases |es|
  {
    if es != [] { InsertsKeepTime(Step(s, es[0]), es[1..]); }
  }

  lemma OneCall(s: State, last: int, call: Call)
    requires !s.mid && OnlyInserts(call.during) && OnlyInserts(call.after)
    ensures var s' := Run(s, CallEvents(last, call));
            !s'.mid && s'.tick == s.tick + if Clock(last, call.now).1 then 1 else 0
  {
    InsertsKeepTime(s, call.after);
    if Clock(last, call.now).1 {
      var s1 := Step(s, BeginTick);
      InsertsKeepTime(s1, call.during);
      var s2 := Step(Run(s1, call.during), EndTick);
      InsertsKeepTime(s2, call.after);
      var tail := [EndTick] + call.after;
      assert tail[1..] == call.after;
      assert Run(Run(s1, call.during), tail) == Run(s2, call.after);
      RunConcat(s1, call.during, tail);
      var es := CallEvents(last, call);
      assert es[1..] == call.during + tail;
    }
  }

  /** The tick counter counts the readings that made a tick. */
  lemma {:induction false} TicksAreCounted(s: State, last: int, calls: seq<Call>)
    requires !s.mid && CallsInsert(calls)
    ensures var s' := Run(s, Events(last, calls));
            !s'.mid && s'.tick == s.tick + ClockAfter(last, Readings(calls)).1
    decreases |calls|
  {
    if calls != [] {
      var head := CallEvents(last, calls[0]);
      var last' := Clock(last, calls[0].now).0;
      OneCall(s, last, calls[0]);
      RunConcat(s, head, Events(last', calls[1..]));
      assert Readings(calls)[1..] == Readings(calls[1..]);
      TicksAreCounted(Run(s, head), last', calls[1..]);
    }
  }

  lemma {:induction false} EventsInsertOthers(last: int, calls: seq<Call>, id: EntryId)
    requires WellFormed(calls, id)
    ensures NoInsertOf(Events(last, calls), id)
    decreases |calls|
  {
    if calls != [] {
      EventsInsertOthers(Clock(last, calls[0].now).0, calls[1..], id);
    }
  }

  /** The reading that completes the `n`-th tick. */
  lemma TickTime(last: int, previous: int, readings: seq<int>, now: int, n: nat, gap: nat)
    requires 0 < last <= previous < last + 1000 && Steady(previous, readings + [now], gap)
    requires ClockAfter(last, readings).1 < n <= ClockAfter(last, readings + [now]).1
    ensures 1000 * n <= now - last < n * (1000 + gap)
  {
    ClockAfterLast(last, readings, now);
    TicksTakeSeconds(last, previous, readings + [now], gap);
  }

  /** The rest of the `onTimer` call in which an entry was inserted by a callback of its first turn:
      other callbacks of that turn, the second turn, and its callbacks. Between calls there are only
      other insertions. */
  function RestOfCall(mid: bool, during: seq<Event>, after: seq<Event>): seq<Event> {
    if mid then during + [EndTick] + after else after
  }

  lemma RestKeepsTick(s: State, during: seq<Event>, after: seq<Event>)
    requires Sound(s) && OnlyInserts(during) && OnlyInserts(after)
    ensures var s' := Run(s, RestOfCall(s.mid, during, after)); s'.tick == s.tick && !s'.mid
  {
    InsertsKeepTime(s, after);
    if s.mid {
      var s1 := Run(s, during);
      InsertsKeepTime(s, during);
      var s2 := Step(s1, EndTick);
      InsertsKeepTime(s2, after);
      var tail := [EndTick] + after;
      assert tail[1..] == after && Run(s1, tail) == Run(s2, after);
      RunConcat(s, during, tail);
      assert during + tail == during + [EndTick] + after;
    }
  }

  /** Under a clock, a delay under a minute is alive until that many readings have made a tick, whether
      it was inserted between calls or by a callback. */
  lemma AliveUntilTicks(s: State, delay: nat, id: EntryId, during: seq<Event>, after: seq<Event>,
                        last: int, calls: seq<Call>)
    requires Sound(s) && !Live(s.wheels, id) && 0 < delay < TIMING_MINUTE && WellFormed(calls, id)
    requires OnlyInserts(during) && OnlyInserts(after) && NoInsertOf(during, id) && NoInsertOf(after, id)
    ensures var s1 := Step(s, Insert(delay, id));
            Live(Run(s1, RestOfCall(s.mid, during, after) + Events(last, calls)).wheels, id)
            <==> ClockAfter(last, Readings(calls)).1 < delay
  {
    hide FireTick, Live, Dies, Deaths, TimingWheels.InsertEntry, PopUp;
    var s1 := Step(s, Insert(delay, id));
    var rest := RestOfCall(s.mid, during, after);
    RestKeepsTick(s1, during, after);
    RunConcat(s1, rest, Events(last, calls));
    TicksAreCounted(Run(s1, rest), last, calls);
    EventsInsertOthers(last, calls, id);
    FiresExactlyOnce(s, delay, id, rest + Events(last, calls));
    Deadline(s.tick, s.mid, delay);
  }

  /** Real-time bound for delays under a minute, in any phase: if the entry is alive before the
      `onTimer` call of reading `call.now` and not after it, that reading is at least 1000 ms per second
      of delay after `last_ts_` at insertion, and less than one gap per second more. */
  lemma RealTimeBound(s: State, delay: nat, id: EntryId, during: seq<Event>, after: seq<Event>,
                      last: int, previous: int, before: seq<Call>, call: Call, gap: nat)
    requires Sound(s) && !Live(s.wheels, id) && 0 < delay < TIMING_MINUTE
    requires OnlyInserts(during) && OnlyInserts(after) && NoInsertOf(during, id) && NoInsertOf(after, id)
    requires WellFormed(before + [call], id)
    requires 0 < last <= previous < last + 1000 && Steady(previous, Readings(before + [call]), gap)
    requires var s1 := Step(s, Insert(delay, id));
             var rest := RestOfCall(s.mid, during, after);
             && Live(Run(s1, rest + Events(last, before)).wheels, id)
             && !Live(Run(s1, rest + Events(last, before + [call])).wheels, id)
    ensures 1000 * delay <= call.now - last < delay * (1000 + gap)
  {
    hide Live, Run, Step;
    assert WellFormed(before, id) by {
      assert forall c :: c in before ==> c in before + [call];
    }
    AliveUntilTicks(s, delay, id, during, after, last, before);
    AliveUntilTicks(s, delay, id, during, after, last, before + [call]);
    assert Readings(before + [call]) == Readings(before) + [call.now];
    TickTime(last, previous, Readings(before), call.now, delay, gap);
  }

  /** The last reading comes less than a second after the one that made the last tick. */
  lemma {:induction false} LastReading(last: int, previous: int, readings: seq<int>, gap: nat)
    requires 0 < last <= previous < last + 1000 && Steady(previous, readings, gap)
    ensures var since := (if readings == [] then previous else readings[|readings| - 1]) - ClockAfter(last, readings).0;
            0 <= since < 1000
    decreases |readings|
  {
    if readings != [] { LastReading(Clock(last, readings[0]).0, readings[0], readings[1..], gap); }
  }

  /** On a new wheel time starts with the first reading, which makes no tick: after n ticks the last reading
      is at least n seconds after it, and less than n seconds and n gaps and one second. */
  lemma NewWheelKeepsTime(calls: seq<Call>, gap: nat)
    requires calls != [] && CallsInsert(calls)
    requires var readings := Readings(calls); 0 < readings[0] && Steady(readings[0], readings[1..], gap)
    ensures var n, first, now := Run(START, Events(0, calls)).tick, calls[0].now, calls[|calls| - 1].now;
            first + 1000 * n <= now < first + n * (1000 + gap) + 1000
  {
    TicksAreCounted(START, 0, calls);
    var readings := Readings(calls);
    var first, later := readings[0], readings[1..];
    TicksTakeSeconds(first, first, later, gap);
    LastReading(first, first, later, gap);
  }

  lemma NewWheelDoesNotTick(call: Call)
    requires OnlyInserts(call.during) && OnlyInserts(call.after) && call.now > 0
    ensures Run(START, Events(0, [call])).tick == 0
  {
    NewWheelKeepsTime([call], 0);
  }

  /** The same bound for a timer started before the clock was ever read, counted from the first reading. */
  lemma RealTimeFromFirstReading(s: State, delay: nat, id: EntryId, during: seq<Event>, after: seq<Event>,
                                 before: seq<Call>, call: Call, gap: nat)
    requires Sound(s) && !Live(s.wheels, id) && 0 < delay < TIMING_MINUTE
    requires OnlyInserts(during) && OnlyInserts(after) && NoInsertOf(during, id) && NoInsertOf(after, id)
    requires WellFormed(before + [call], id)
    requires var readings := Readings(before + [call]); 0 < readings[0] && Steady(readings[0], readings[1..], gap)
    requires var s1 := Step(s, Insert(delay, id));
             var rest := RestOfCall(s.mid, during, after);
             && Live(Run(s1, rest + Events(0, before)).wheels, id)
             && !Live(Run(s1, rest + Events(0, before + [call])).wheels, id)
    ensures before != [] && 1000 * delay <= call.now - before[0].now < delay * (1000 + gap)
  {
    hide Live, Run, Step;
    assert WellFormed(before, id) by {
      assert forall c :: c in before ==> c in before + [call];
    }
    AliveUntilTicks(s, delay, id, during, after, 0, before);
    AliveUntilTicks(s, delay, id, during, after, 0, before + [call]);
    var readings := Readings(before + [call]);
    assert readings == Readings(before) + [call.now];
    assert before != [];
    var first := before[0].now;
    assert readings[1..] == Readings(before)[1..] + [call.now];
    TickTime(first, first, Readings(before)[1..], call.now, delay, gap);
  }

  /** The same between two firings of a `runEvery` timer under a minute: it fires in the first turn of
      the call at `first.now`, some callback order puts its next entry in among other insertions, and
      that entry fires in the call at `call.now`. Every period is bounded from the reading that fired. */
  lemma PeriodInRealTime(s: State, p: nat, id: EntryId, first: Call, ahead: seq<Event>, behind: seq<Event>,
                         before: seq<Call>, call: Call, gap: nat)
    requires Sound(s) && !s.mid && 0 < p < TIMING_MINUTE && Dies(s, BeginTick, id)
    requires first.during == ahead + ([Insert(p, id)] + behind)
    requires OnlyInserts(ahead) && OnlyInserts(behind) && OnlyInserts(first.after)
    requires NoInsertOf(ahead, id) && NoInsertOf(behind, id) && NoInsertOf(first.after, id)
    requires WellFormed(before + [call], id)
    requires 0 < first.now && Steady(first.now, Readings(before + [call]), gap)
    requires var s0 := Run(Step(s, BeginTick), first.during + [EndTick] + first.after);
             && Live(Run(s0, Events(first.now, before)).wheels, id)
             && !Live(Run(s0, Events(first.now, before + [call])).wheels, id)
    ensures 1000 * p <= call.now - first.now < p * (1000 + gap)
  {
    hide Live, Run, TimingWheels.InsertEntry, PopUp;
    var t := Step(s, BeginTick);
    var s1 := Run(t, ahead);
    NeverLive(t, ahead, id);
    InsertsKeepTime(t, ahead);
    SplitCall(t, ahead, p, id, behind, first.after);
    var rest := RestOfCall(true, behind, first.after);
    var s2 := Step(s1, Insert(p, id));
    RunConcat(s2, rest, Events(first.now, before));
    RunConcat(s2, rest, Events(first.now, before + [call]));
    RealTimeBound(s1, p, id, behind, first.after, first.now, first.now, before, call, gap);
  }

  lemma SplitCall(t: State, ahead: seq<Event>, p: nat, id: EntryId, behind: seq<Event>, after: seq<Event>)
    ensures Run(t, (ahead + ([Insert(p, id)] + behind)) + [EndTick] + after)
            == Run(Step(Run(t, ahead), Insert(p, id)), RestOfCall(true, behind, after))
  {
    var rest := RestOfCall(true, behind, after);
    var tail := [Insert(p, id)] + rest;
    assert tail[1..] == rest;
    assert (ahead + ([Insert(p, id)] + behind)) + [EndTick] + after == ahead + tail;
    RunConcat(t, ahead, tail);
  }

  lemma {:induction false} ClockAfterLast(last: int, readings: seq<int>, now: int)
    ensures var r := ClockAfter(last, readings);
            var c := Clock(r.0, now);
            ClockAfter(last, readings + [now]) == (c.0, r.1 + if c.1 then 1 else 0)
    decreases |readings|
  {
    if readings == [] {
      assert ([] + [now])[1..] == [];
    } else {
      assert (readings + [now])[1..] == readings[1..] + [now];
      ClockAfterLast(Clock(last, readings[0]).0, readings[1..], now);
    }
  }
}
