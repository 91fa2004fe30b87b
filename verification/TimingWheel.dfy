/** `src/network/net/TimingWheel.h` and `TimingWheel.cpp`: four wheels of slots, as they are.

    A slot is the set of entries it holds a reference to. An entry is destroyed, and its callback
    runs, when its last reference goes: it was in a slot and is in none any more, or it was never
    put in one. Two things in the source decide when that is.

    - `insertMinuteEntry`, `insertHourEntry` and `insertDayEntry` wrap the remainder of the delay
      in an entry that dies at the end of their own scope, so the remainder is inserted at once:
      the entry sits in one slot per non-zero digit of its delay from the start.
    - `onTimer` turns the second wheel on every tick, and then at most one other: the minute wheel
      on ticks that are no multiple of 60, the hour wheel on multiples of 60 but not of 3600, the
      day wheel on multiples of 3600 but not of 86400. */
module TimingWheels {

  type EntryId = nat
  type Slot = set<EntryId>
  type Wheel = seq<Slot>

  // Indices into `wheels_`, in the order the enumeration gives them.
  const SECOND: nat := 0
  const HOUR: nat := 1
  const MINUTE: nat := 2
  const DAY: nat := 3
  const TYPES: nat := 4

  const TIMING_MINUTE: nat := 60
  const TIMING_HOUR: nat := 3600
  const TIMING_DAY: nat := 86400

  /** The first delay that `insertEntry` refuses. */
  const TOO_LONG: nat := 31 * TIMING_DAY

  function Length(k: nat): (n: nat)
    requires k < TYPES
    ensures n > 0
  {
    if k == SECOND then 60 else if k == MINUTE then 60 else if k == HOUR then 24 else 30
  }

  /** Seconds that one position of wheel `k` is meant to stand for. */
  function Unit(k: nat): nat
    requires k < TYPES
  {
    if k == SECOND then 1 else if k == MINUTE then TIMING_MINUTE
    else if k == HOUR then TIMING_HOUR else TIMING_DAY
  }

  /** The digit of wheel `k` in a delay written in days, hours, minutes and seconds. */
  function Digit(k: nat, delay: nat): nat
    requires k < TYPES
  {
    if k == SECOND then delay % 60 else if k == MINUTE then delay / 60 % 60
    else if k == HOUR then delay / 3600 % 24 else delay / 86400
  }

  predicate Shape(ws: seq<Wheel>) {
    |ws| == TYPES && forall k :: 0 <= k < TYPES ==> |ws[k]| == Length(k)
  }

  function EmptyWheel(n: nat): Wheel { seq(n, _ => {}) }

  function NoEntries(): seq<Wheel> {
    [EmptyWheel(60), EmptyWheel(24), EmptyWheel(60), EmptyWheel(30)]
  }

  type Wheels = ws: seq<Wheel> | Shape(ws) witness NoEntries()

  predicate Live(ws: Wheels, id: EntryId) {
    exists k, i :: 0 <= k < TYPES && 0 <= i < Length(k) && id in ws[k][i]
  }

  // Inserting.

  function Put(ws: Wheels, k: nat, i: nat, id: EntryId): Wheels
    requires k < TYPES && i < Length(k)
  {
    ws[k := ws[k][i := ws[k][i] + {id}]]
  }

  function InsertEntry(ws: Wheels, delay: int, id: EntryId): Wheels
    decreases delay
  {
    if delay <= 0 then ws
    else if delay < TIMING_MINUTE then Put(ws, SECOND, delay - 1, id)
    else if delay < TIMING_HOUR then
      InsertEntry(Put(ws, MINUTE, delay / TIMING_MINUTE - 1, id), delay % TIMING_MINUTE, id)
    else if delay < TIMING_DAY then
      InsertEntry(Put(ws, HOUR, delay / TIMING_HOUR - 1, id), delay % TIMING_HOUR, id)
    else if delay / TIMING_DAY > 30 then ws
    else InsertEntry(Put(ws, DAY, delay / TIMING_DAY - 1, id), delay % TIMING_DAY, id)
  }

  /** Slot `i` of wheel `k` is one that an entry with this delay is put in. */
  predicate Chosen(delay: int, k: nat, i: nat)
    requires k < TYPES
  {
    0 < delay < TOO_LONG && Digit(k, delay) == i + 1
  }

  /** A numeral's digits are the ones it was written with. */
  lemma DigitsOf(d: nat, h: nat, m: nat, s: nat)
    requires h < 24 && m < 60 && s < 60
    ensures var delay := 86400 * d + 3600 * h + 60 * m + s;
            && Digit(DAY, delay) == d && Digit(HOUR, delay) == h
            && Digit(MINUTE, delay) == m && Digit(SECOND, delay) == s
  {
    var delay := 86400 * d + 3600 * h + 60 * m + s;
    assert delay / 60 == 1440 * d + 60 * h + m;
    assert delay / 3600 == 24 * d + h;
  }

  lemma DigitsSpell(delay: nat) returns (d: nat, h: nat, m: nat, s: nat)
    ensures h < 24 && m < 60 && s < 60
    ensures delay == 86400 * d + 3600 * h + 60 * m + s
    ensures d == Digit(DAY, delay) && h == Digit(HOUR, delay)
    ensures m == Digit(MINUTE, delay) && s == Digit(SECOND, delay)
  {
    var minutes := delay / 60;
    var hours := minutes / 60;
    d, h, m, s := hours / 24, hours % 24, minutes % 60, delay % 60;
    assert delay == 86400 * d + 3600 * h + 60 * m + s;
    DigitsOf(d, h, m, s);
  }

  /** The wheel `insertEntry` goes to for this delay. */
  function Top(delay: nat): (k: nat)
    ensures k < TYPES
  {
    if delay < TIMING_MINUTE then SECOND
    else if delay < TIMING_HOUR then MINUTE
    else if delay < TIMING_DAY then HOUR else DAY
  }

  /** Taking off the top digit leaves the others, and none on the top wheel. */
  lemma RemainderDigits(delay: nat, k: nat)
    requires TIMING_MINUTE <= delay && k < TYPES
    ensures var rest := delay % Unit(Top(delay));
            Digit(k, rest) == (if k == Top(delay) then 0 else Digit(k, delay))
            && (k == Top(delay) ==> Digit(k, delay) == delay / Unit(k) > 0)
  {
    var d, h, m, s := DigitsSpell(delay);
    if delay < TIMING_HOUR {
      DigitsOf(0, 0, 0, s);
    } else if delay < TIMING_DAY {
      assert delay % 3600 == 60 * m + s;
      DigitsOf(0, 0, m, s);
    } else {
      assert delay % 86400 == 3600 * h + 60 * m + s;
      DigitsOf(0, h, m, s);
    }
  }

  lemma PutAt(ws: Wheels, k: nat, i: nat, id: EntryId, k': nat, i': nat, x: EntryId)
    requires k < TYPES && i < Length(k) && k' < TYPES && i' < Length(k')
    ensures x in Put(ws, k, i, id)[k'][i'] <==> x in ws[k'][i'] || (x == id && k' == k && i' == i)
  {
  }

  /** The entry goes into exactly the slots its digits choose, and nothing else moves. */
  lemma {:induction false} InsertPlacement(ws: Wheels, delay: int, id: EntryId, k: nat, i: nat, x: EntryId)
    requires k < TYPES && i < Length(k)
    ensures x in InsertEntry(ws, delay, id)[k][i] <==> x in ws[k][i] || (x == id && Chosen(delay, k, i))
    decreases delay
  {
    if 0 < delay < TIMING_MINUTE {
      DigitsOf(0, 0, 0, delay);
      PutAt(ws, SECOND, delay - 1, id, k, i, x);
    } else if TIMING_MINUTE <= delay < TOO_LONG {
      var top := Top(delay);
      var at, rest := delay / Unit(top) - 1, delay % Unit(top);
      var ws' := Put(ws, top, at, id);
      assert InsertEntry(ws, delay, id) == InsertEntry(ws', rest, id);
      PutAt(ws, top, at, id, k, i, x);
      InsertPlacement(ws', rest, id, k, i, x);
      RemainderDigits(delay, k);
    }
  }

  /** The digits are a mixed-radix numeral: in range for their wheels, and together the delay. */
  lemma DigitsSpellDelay(delay: nat)
    requires delay < TOO_LONG
    ensures Digit(DAY, delay) * Unit(DAY) + Digit(HOUR, delay) * Unit(HOUR)
            + Digit(MINUTE, delay) * Unit(MINUTE) + Digit(SECOND, delay) == delay
    ensures forall k :: 0 <= k < TYPES ==> Digit(k, delay) <= Length(k)
    ensures delay > 0 ==> exists k :: 0 <= k < TYPES && Digit(k, delay) > 0
  {
    var d, h, m, s := DigitsSpell(delay);
    assert delay > 0 ==> Digit(DAY, delay) > 0 || Digit(HOUR, delay) > 0
                         || Digit(MINUTE, delay) > 0 || Digit(SECOND, delay) > 0;
  }

  // Turning.

  function PopUp(ws: Wheels, k: nat): Wheels
    requires k < TYPES
  {
    ws[k := ws[k][1..] + [{}]]
  }

  /** The wheel `onTimer` turns after the second wheel on this tick; TYPES for none. */
  function SecondTurn(tick: nat): nat {
    if tick % TIMING_MINUTE != 0 then MINUTE
    else if tick % TIMING_HOUR != 0 then HOUR
    else if tick % TIMING_DAY != 0 then DAY
    else TYPES
  }

  /** The wheels and where `onTimer` is: `mid` is between its two `popUp` calls, where callbacks of
      the first run and may insert. */
  datatype State = State(wheels: Wheels, tick: nat, mid: bool)

  const START: State := State(NoEntries(), 0, false)

  /** One action on the wheels. `BeginTick` counts the tick and turns the second wheel, `EndTick`
      turns the wheel the tick selects; each is idle where it cannot happen. */
  datatype Event = Insert(delay: int, id: EntryId) | BeginTick | EndTick

  function Step(s: State, e: Event): State {
    match e
    case Insert(delay, id) => s.(wheels := InsertEntry(s.wheels, delay, id))
    case BeginTick => if s.mid then s else State(PopUp(s.wheels, SECOND), s.tick + 1, true)
    case EndTick =>
      if !s.mid then s
      else if SecondTurn(s.tick) == TYPES then s.(mid := false)
      else State(PopUp(s.wheels, SecondTurn(s.tick)), s.tick, false)
  }

  function Run(s: State, es: seq<Event>): State
    decreases |es|
  {
    if es == [] then s else Run(Step(s, es[0]), es[1..])
  }

  /** The entry's destructor runs in this event. An entry inserted while in no slot is a new one:
      if the delay gives it no slot, it dies before `insertEntry`'s caller returns. */
  predicate Dies(s: State, e: Event, id: EntryId) {
    !Live(Step(s, e).wheels, id) && (if e.Insert? then e.id == id else Live(s.wheels, id))
  }

  /** The ticks at which the entry's destructor runs. */
  function Deaths(s: State, es: seq<Event>, id: EntryId): seq<nat>
    decreases |es|
  {
    if es == [] then []
    else (if Dies(s, es[0], id) then [Step(s, es[0]).tick] else []) + Deaths(Step(s, es[0]), es[1..], id)
  }

  // Absolute schedule: count the turns of each wheel instead of moving slots.

  /** How often wheel `k` has turned once tick `t` is over. */
  function Turns(k: nat, t: nat): nat
    requires k < TYPES
  {
    if k == SECOND then t
    else if k == MINUTE then t - t / 60
    else if k == HOUR then t / 60 - t / 3600
    else t / 3600 - t / 86400
  }

  function TurnsNow(k: nat, tick: nat, mid: bool): nat
    requires k < TYPES
  {
    Turns(k, if mid && tick > 0 && k != SECOND then tick - 1 else tick)
  }

  /** The tick of the `n`-th turn of wheel `k`. */
  function TurnTick(k: nat, n: nat): nat
    requires k < TYPES && n > 0
  {
    if k == SECOND then n
    else if k == MINUTE then n + (n - 1) / 59
    else if k == HOUR then 60 * (n + (n - 1) / 59)
    else 3600 * (n + (n - 1) / 23)
  }

  predicate Sound(s: State) { s.mid ==> s.tick > 0 }

  /** The entry holds a reference that the `n`-th turn of wheel `k` will drop. */
  predicate Due(s: State, k: nat, n: nat, id: EntryId)
    requires k < TYPES
  {
    var now := TurnsNow(k, s.tick, s.mid);
    now < n <= now + Length(k) && id in s.wheels[k][n - now - 1]
  }

  lemma LiveIffDue(s: State, id: EntryId)
    ensures Live(s.wheels, id) <==> exists k: nat, n: nat :: k < TYPES && Due(s, k, n, id)
  {
    if Live(s.wheels, id) {
      var k, i :| 0 <= k < TYPES && 0 <= i < Length(k) && id in s.wheels[k][i];
      assert Due(s, k, TurnsNow(k, s.tick, s.mid) + i + 1, id);
    }
    if k: nat, n: nat :| k < TYPES && Due(s, k, n, id) {
      assert id in s.wheels[k][n - TurnsNow(k, s.tick, s.mid) - 1];
    }
  }

  lemma TurnsStep(k: nat, t: nat)
    requires k < TYPES && t > 0
    ensures Turns(k, t) == Turns(k, t - 1) + if k == SECOND || SecondTurn(t) == k then 1 else 0
  {
    DivStep(t);
    Multiples(t);
  }

  lemma DivStep(t: nat)
    requires t > 0
    ensures (t - 1) / 60 == if t % 60 == 0 then t / 60 - 1 else t / 60
    ensures (t - 1) / 3600 == if t % 3600 == 0 then t / 3600 - 1 else t / 3600
    ensures (t - 1) / 86400 == if t % 86400 == 0 then t / 86400 - 1 else t / 86400
  {
  }

  lemma Multiples(t: nat)
    ensures t % 86400 == 0 ==> t % 3600 == 0
    ensures t % 3600 == 0 ==> t % 60 == 0
  {
    assert t % 3600 == 0 ==> t == 60 * (60 * (t / 3600));
    assert t % 86400 == 0 ==> t == 3600 * (24 * (t / 86400));
  }

  /** `TurnTick` is the inverse of counting: the n-th turn is over exactly from its tick on. */
  lemma TurnTickInverse(k: nat, n: nat, t: nat)
    requires k < TYPES && n > 0
    ensures Turns(k, t) >= n <==> t >= TurnTick(k, n)
  {
    if k == MINUTE {
      SkippingInverse(59, n, t);
    } else if k == HOUR {
      SkippingInverse(59, n, t / 60);
      assert t / 3600 == t / 60 / 60;
    } else if k == DAY {
      SkippingInverse(23, n, t / 3600);
      assert t / 86400 == t / 3600 / 24;
    }
  }

  /** Counting all but every (p+1)-th number. */
  lemma SkippingInverse(p: nat, n: nat, q: nat)
    requires n > 0 && (p == 59 || p == 23)
    ensures q - q / (p + 1) >= n <==> q >= n + (n - 1) / p
  {
  }

  /** One action on the rotating slots is the same action on the absolute schedule: inserting adds
      one due turn per digit, turning a wheel removes what is due at that turn. */
  lemma DueStep(s: State, e: Event, k: nat, n: nat, id: EntryId)
    requires k < TYPES && Sound(s)
    ensures Sound(Step(s, e))
    ensures TurnsNow(k, s.tick, s.mid) <= TurnsNow(k, Step(s, e).tick, Step(s, e).mid)
    ensures var now := TurnsNow(k, s.tick, s.mid);
            var now' := TurnsNow(k, Step(s, e).tick, Step(s, e).mid);
            Due(Step(s, e), k, n, id) <==>
              || (Due(s, k, n, id) && n > now')
              || (e.Insert? && e.id == id && n > now && Chosen(e.delay, k, n - now - 1))
  {
    var s' := Step(s, e);
    var now, now' := TurnsNow(k, s.tick, s.mid), TurnsNow(k, s'.tick, s'.mid);
    match e {
      case Insert(delay, id') =>
        if now < n <= now + Length(k) {
          InsertPlacement(s.wheels, delay, id', k, n - now - 1, id);
        }
        if 0 < delay < TOO_LONG { DigitsSpellDelay(delay); }
      case BeginTick =>
        if !s.mid { TurnsStep(k, s'.tick); }
      case EndTick =>
        if s.mid { TurnsStep(k, s.tick); }
    }
  }
}
