/** The send path of `src/network/net/TcpConnection.cpp` with the kernel's answer -1 as the code takes it,
    anywhere in a run: after a direct write, a region that starts one byte before the buffer is queued
    (`RestIsSizeT`); after a `writev`, 2^64 - 1 bytes count as sent (`MinusOneDropsTheList`). A record of
    all writes says what was answered to what. */
module WouldBlock {
  import opened Bytes
  import opened SendQueue

  /** A byte of the stream, or whatever lies in memory before a buffer. */
  datatype Cell = Of(b: Byte) | Stray

  datatype Range = Range(buf: seq<Byte>, base: int, len: nat)
  type Region = r: Range | -1 <= r.base && r.base + r.len <= |r.buf| witness Range([], 0, 0)

  function Cells(r: Region): (s: seq<Cell>)
    ensures |s| == r.len
  {
    seq(r.len, i requires 0 <= i < r.len => if r.base + i < 0 then Stray else Of(r.buf[r.base + i]))
  }

  function Queued(q: seq<Region>): seq<Cell> {
    if q == [] then [] else Cells(q[0]) + Queued(q[1..])
  }

  function Stream(s: seq<Byte>): (r: seq<Cell>)
    ensures |r| == |s|
  {
    seq(|s|, i requires 0 <= i < |s| => Of(s[i]))
  }

  /** The code never looks at `errno` after -1. */
  datatype RawReply = Took(count: nat, fatal: bool) | MinusOne

  /** One `write` of a buffer or `writev` of the list: what it offered and what the kernel answered. */
  datatype Write = Write(direct: bool, offered: seq<Cell>, reply: RawReply)

  datatype Link = Link(queue: seq<Region>, closed: bool, kernel: seq<RawReply>, accepted: seq<Cell>,
                       submitted: seq<Byte>, writes: seq<Write>)

  /** `sendLen` is what the code sees of the answer, in a `size_t`; no count is too large for that. */
  datatype Answer = Answer(link: Link, sendLen: nat, fatal: bool)

  function Taken(x: Write): seq<Cell> {
    if x.reply.MinusOne? then [] else x.offered[..Min(x.reply.count, |x.offered|)]
  }

  /** A kernel with no replies left takes nothing. */
  function RawWrite(l: Link, direct: bool, cells: seq<Cell>): Answer {
    if l.kernel == [] then Answer(l, 0, false)
    else
      var x := Write(direct, cells, l.kernel[0]);
      Answer(l.(kernel := l.kernel[1..], accepted := l.accepted + Taken(x), writes := l.writes + [x]),
             if x.reply.MinusOne? then ToSizeT(-1) else |Taken(x)|,
             x.reply.Took? && x.reply.fatal)
  }

  /** The inner loop of `onWrite`. */
  function Drop(q: seq<Region>, n: nat): seq<Region>
    decreases |q|
  {
    if n == 0 || q == [] then q
    else if n < q[0].len then [Range(q[0].buf, q[0].base + n, q[0].len - n)] + q[1..]
    else Drop(q[1..], n - q[0].len)
  }

  lemma {:induction false} DropQueued(q: seq<Region>, n: nat)
    ensures Queued(Drop(q, n)) == if n <= |Queued(q)| then Queued(q)[n..] else []
    ensures n > |Queued(q)| ==> Drop(q, n) == []
    decreases |q|
  {
    if n == 0 || q == [] {
    } else if n < q[0].len {
      var r: Region := Range(q[0].buf, q[0].base + n, q[0].len - n);
      assert ([r] + q[1..])[1..] == q[1..];
      assert Cells(r) == Cells(q[0])[n..];
    } else {
      DropQueued(q[1..], n - q[0].len);
    }
  }

  /** The region that `sendInLoop` queues behind a direct write. */
  function Rest(buf: seq<Byte>, reply: RawReply): Region {
    if reply.MinusOne? then Range(buf, -1, |buf| + 1)
    else var n := Min(reply.count, |buf|); Range(buf, n, |buf| - n)
  }

  /** That is what the arithmetic of the code gives: `buf + sendLen`, and `size - sendLen`. */
  lemma RestIsSizeT(buf: seq<Byte>, reply: RawReply, address: nat)
    requires 0 < address && address + |buf| + 1 < SIZE_T
    ensures var sendLen := ToSizeT(if reply.MinusOne? then -1 else Min(reply.count, |buf|));
            var r := Rest(buf, reply);
            address + r.base == ToSizeT(address + sendLen) && r.len == ToSizeT(|buf| - sendLen)
  {
    if reply.MinusOne? {
      assert ToSizeT(-1) == SIZE_T - 1;
    }
  }

  /** `sendInLoop(const void*, size_t)`. */
  function RawSend(l: Link, buf: seq<Byte>): Link {
    if l.closed then l
    else
      var l := l.(submitted := l.submitted + buf);
      if l.queue != [] then
        if buf == [] then l else l.(queue := l.queue + [Range(buf, 0, |buf|)])
      else
        var reply := if l.kernel == [] then Took(0, false) else l.kernel[0];
        var r := Rest(buf, reply);
        RawWrite(l, true, Stream(buf)).link.(queue := if r.len == 0 then [] else [r])
  }

  function Ranges(bufs: seq<seq<Byte>>): (q: seq<Region>)
    ensures |q| == |bufs|
  {
    seq(|bufs|, i requires 0 <= i < |bufs| => Range(bufs[i], 0, |bufs[i]|))
  }

  /** `sendInLoop(const std::list<BufferNodePtr>&)`. */
  function RawSendList(l: Link, bufs: seq<seq<Byte>>): Link {
    if l.closed then l else l.(queue := l.queue + Ranges(bufs), submitted := l.submitted + Concat(bufs))
  }

  /** The outer loop of `onWrite`. */
  function RawDrain(l: Link): Link
    decreases |l.kernel|
  {
    var a := RawWrite(l, false, Queued(l.queue));
    if a.sendLen > 0 then
      var l' := a.link.(queue := Drop(l.queue, a.sendLen));
      if l'.queue == [] then l' else RawDrain(l')
    else if a.fatal then a.link.(closed := true)
    else a.link
  }

  function RawOnWrite(l: Link): Link {
    if l.closed || l.queue == [] then l else RawDrain(l)
  }

  /** The write-complete callback is the last thing its caller does, so what it sends is the next events. */
  datatype RawEvent = Sends(buf: seq<Byte>) | SendsList(bufs: seq<seq<Byte>>) | CanWrite | Closes

  function RawStep(l: Link, e: RawEvent): Link {
    match e
    case Sends(buf) => RawSend(l, buf)
    case SendsList(bufs) => RawSendList(l, bufs)
    case CanWrite => RawOnWrite(l)
    case Closes => l.(closed := true)
  }

  function RawRun(l: Link, es: seq<RawEvent>): Link
    decreases |es|
  {
    if es == [] then l else RawRun(RawStep(l, es[0]), es[1..])
  }

  /** What the kernel took, followed by what is queued, is what was submitted. */
  ghost predicate Whole(l: Link) { l.accepted + Queued(l.queue) == Stream(l.submitted) }

  /** At this point of a run and at every later one. */
  ghost predicate AlwaysWhole(l: Link, es: seq<RawEvent>)
    decreases |es|
  {
    Whole(l) && (es == [] || AlwaysWhole(RawStep(l, es[0]), es[1..]))
  }

  lemma {:induction false} QueuedConcat(a: seq<Region>, b: seq<Region>)
    ensures Queued(a + b) == Queued(a) + Queued(b)
    decreases |a|
  {
    if a == [] {
      assert a + b == b;
    } else {
      assert (a + b)[1..] == a[1..] + b;
      QueuedConcat(a[1..], b);
    }
  }

  lemma QueuedOne(r: Region)
    ensures Queued([r]) == Cells(r)
  {
    assert [r][1..] == [];
  }

  lemma {:induction false} QueuedRanges(bufs: seq<seq<Byte>>)
    ensures Queued(Ranges(bufs)) == Stream(Concat(bufs))
  {
    if bufs != [] {
      assert Ranges(bufs)[1..] == Ranges(bufs[1..]);
      QueuedRanges(bufs[1..]);
      assert Cells(Range(bufs[0], 0, |bufs[0]|)) == Stream(bufs[0]);
    }
  }

  lemma StreamConcat(a: seq<Byte>, b: seq<Byte>)
    ensures Stream(a + b) == Stream(a) + Stream(b)
  {
  }

  // What was written, reply by reply.

  /** These writes were made from `l` to `t`. */
  ghost predicate Wrote(l: Link, writes: seq<Write>, t: Link) { t.writes == l.writes + writes }

  function RepliesOf(writes: seq<Write>): (r: seq<RawReply>)
    ensures |r| == |writes|
  {
    seq(|writes|, i requires 0 <= i < |writes| => writes[i].reply)
  }

  function TakenBy(writes: seq<Write>): seq<Cell>
    decreases |writes|
  {
    if writes == [] then [] else TakenBy(writes[..|writes| - 1]) + Taken(writes[|writes| - 1])
  }

  lemma {:induction false} TakenByConcat(a: seq<Write>, b: seq<Write>)
    ensures TakenBy(a + b) == TakenBy(a) + TakenBy(b)
    decreases |b|
  {
    hide Taken;
    if b == [] {
      assert a + b == a;
    } else {
      var all, front, last := a + b, b[..|b| - 1], b[|b| - 1];
      assert all[..|all| - 1] == a + front && all[|all| - 1] == last;
      TakenByConcat(a, front);
      Associate(TakenBy(a), TakenBy(front), Taken(last));
    }
  }

  /** The record of writes answers for the kernel's replies, in order, and for all that was taken. */
  ghost predicate Recorded(l: Link, writes: seq<Write>, t: Link) {
    && Wrote(l, writes, t) && l.kernel == RepliesOf(writes) + t.kernel
    && t.accepted == l.accepted + TakenBy(writes)
  }

  lemma RecordedThen(l: Link, a: seq<Write>, m: Link, b: seq<Write>, t: Link)
    requires Recorded(l, a, m) && Recorded(m, b, t)
    ensures Recorded(l, a + b, t)
  {
    TakenByConcat(a, b);
    hide TakenBy;
    assert RepliesOf(a + b) == RepliesOf(a) + RepliesOf(b);
    Associate(RepliesOf(a), RepliesOf(b), t.kernel);
    Associate(l.accepted, TakenBy(a), TakenBy(b));
    Associate(l.writes, a, b);
  }

  lemma Associate<T>(a: seq<T>, b: seq<T>, c: seq<T>)
    ensures a + (b + c) == (a + b) + c
  {
  }

  lemma RecordedWrite(l: Link, direct: bool, cells: seq<Cell>) returns (writes: seq<Write>)
    ensures Recorded(l, writes, RawWrite(l, direct, cells).link)
    ensures writes == if l.kernel == [] then [] else [Write(direct, cells, l.kernel[0])]
  {
    writes := if l.kernel == [] then [] else [Write(direct, cells, l.kernel[0])];
    if l.kernel != [] {
      assert l.kernel == [l.kernel[0]] + l.kernel[1..];
      assert RepliesOf(writes) == [l.kernel[0]];
      assert writes[..0] == [] && TakenBy(writes) == TakenBy([]) + Taken(writes[0]);
    }
  }

  lemma {:induction false} RecordedDrain(l: Link) returns (writes: seq<Write>)
    ensures Recorded(l, writes, RawDrain(l))
    decreases |l.kernel|
  {
    hide Drop, Recorded, Taken;
    var cells := Queued(l.queue);
    var first := RecordedWrite(l, false, cells);
    var a := RawWrite(l, false, cells);
    writes := first;
    if a.sendLen > 0 {
      var l' := a.link.(queue := Drop(l.queue, a.sendLen));
      SameRecord(l, first, a.link, l');
      if l'.queue != [] {
        var more := RecordedDrain(l');
        RecordedThen(l, first, l', more, RawDrain(l'));
        writes := first + more;
      }
    } else {
      SameRecord(l, first, a.link, RawDrain(l));
    }
  }

  lemma SameRecord(l: Link, writes: seq<Write>, m: Link, t: Link)
    requires Recorded(l, writes, m) && m.kernel == t.kernel && m.accepted == t.accepted && m.writes == t.writes
    ensures Recorded(l, writes, t)
  {
  }

  lemma NothingRecorded(l: Link, t: Link)
    requires l.kernel == t.kernel && l.accepted == t.accepted && l.writes == t.writes
    ensures Recorded(l, [], t)
  {
    assert TakenBy([]) == [] && RepliesOf([]) == [];
  }

  lemma RecordedStep(l: Link, e: RawEvent) returns (writes: seq<Write>)
    ensures Recorded(l, writes, RawStep(l, e))
  {
    hide Recorded, RawDrain;
    var t := RawStep(l, e);
    if e.Sends? && !l.closed && l.queue == [] {
      var m := l.(submitted := l.submitted + e.buf);
      writes := RecordedWrite(m, true, Stream(e.buf));
      SameStart(m, l, writes, RawWrite(m, true, Stream(e.buf)).link);
      SameRecord(l, writes, RawWrite(m, true, Stream(e.buf)).link, t);
    } else if e.CanWrite? && !l.closed && l.queue != [] {
      writes := RecordedDrain(l);
    } else {
      writes := [];
      NothingRecorded(l, t);
    }
  }

  lemma SameStart(m: Link, l: Link, writes: seq<Write>, t: Link)
    requires Recorded(m, writes, t) && m.kernel == l.kernel && m.accepted == l.accepted && m.writes == l.writes
    ensures Recorded(l, writes, t)
  {
  }

  /** Over every run the record is exact: it has the replies that the kernel gave, in order, each with what
      it was an answer to, and what was taken by these writes is what was accepted. */
  lemma {:induction false} RecordIsExact(l: Link, es: seq<RawEvent>)
    ensures exists writes :: Recorded(l, writes, RawRun(l, es))
    decreases |es|
  {
    hide Recorded, RawStep;
    if es == [] {
      NothingRecorded(l, l);
      assert Recorded(l, [], RawRun(l, es));
    } else {
      var l' := RawStep(l, es[0]);
      var first := RecordedStep(l, es[0]);
      RecordIsExact(l', es[1..]);
      var more :| Recorded(l', more, RawRun(l', es[1..]));
      RecordedThen(l, first, l', more, RawRun(l', es[1..]));
      assert Recorded(l, first + more, RawRun(l, es));
    }
  }

  /** A list that the kernel answers with -1 is dropped whole, as sent, without a byte taken. */
  lemma MinusOneDropsTheList(l: Link)
    requires l.queue != [] && |Queued(l.queue)| < SIZE_T - 1 && l.kernel != [] && l.kernel[0].MinusOne?
    ensures Drop(l.queue, ToSizeT(-1)) == []
    ensures RawDrain(l) == l.(queue := [], kernel := l.kernel[1..],
                              writes := l.writes + [Write(false, Queued(l.queue), MinusOne)])
  {
    assert ToSizeT(-1) == SIZE_T - 1;
    DropQueued(l.queue, ToSizeT(-1));
    assert l.accepted + [] == l.accepted;
  }

  /** A write of a buffer, or of a list with bytes in it, is answered with -1. */
  predicate Spoils(x: Write) { x.reply.MinusOne? && (x.direct || x.offered != []) }

  /** No such write between the two. */
  ghost predicate Unspoiled(l: Link, t: Link) {
    l.writes <= t.writes && forall i :: |l.writes| <= i < |t.writes| ==> !Spoils(t.writes[i])
  }

  lemma UnspoiledThen(l: Link, m: Link, t: Link)
    requires l.writes <= m.writes <= t.writes
    ensures Unspoiled(l, t) <==> Unspoiled(l, m) && Unspoiled(m, t)
  {
    assert forall i :: 0 <= i < |m.writes| ==> t.writes[i] == m.writes[i];
  }

  lemma StepRecords(l: Link, e: RawEvent)
    ensures l.writes <= RawStep(l, e).writes
  {
    hide RawStep;
    var writes := RecordedStep(l, e);
  }

  lemma {:induction false} RunRecords(l: Link, es: seq<RawEvent>)
    ensures l.writes <= RawRun(l, es).writes
    decreases |es|
  {
    hide RawStep;
    if es != [] {
      StepRecords(l, es[0]);
      RunRecords(RawStep(l, es[0]), es[1..]);
    }
  }

  // When the stream is conserved.

  lemma SendKeepsWhole(l: Link, buf: seq<Byte>)
    requires Whole(l)
    ensures Whole(RawSend(l, buf)) <==> Unspoiled(l, RawSend(l, buf))
  {
    hide Whole, Stream;
    var t := RawSend(l, buf);
    if !l.closed {
      if l.queue != [] {
        QueueBehind(l, buf);
      } else if l.kernel == [] {
        assert Stream(buf[..0]) == [] && l.accepted + [] == l.accepted;
        TakeAtOnce(l, buf, 0, t);
      } else if l.kernel[0].MinusOne? {
        assert l.accepted + [] == l.accepted;
        OneTooMany(l, buf, t);
        assert Spoils(t.writes[|l.writes|]);
      } else {
        var n := Min(l.kernel[0].count, |buf|);
        StreamPrefix(buf, n);
        TakeAtOnce(l, buf, n, t);
      }
    }
  }

  lemma StreamPrefix(buf: seq<Byte>, n: nat)
    requires n <= |buf|
    ensures Stream(buf)[..n] == Stream(buf[..n])
  {
  }

  lemma QueueBehind(l: Link, buf: seq<Byte>)
    requires Whole(l) && l.queue != [] && !l.closed
    ensures Whole(RawSend(l, buf))
  {
    hide Cells, Stream;
    var r := Range(buf, 0, |buf|);
    QueuedOne(r);
    QueuedConcat(l.queue, [r]);
    StreamConcat(l.submitted, buf);
    assert Cells(r) == Stream(buf) by { WholeRange(buf, 0); }
    assert buf == [] ==> l.submitted + buf == l.submitted;
  }

  lemma WholeRange(buf: seq<Byte>, n: nat)
    requires n <= |buf|
    ensures Cells(Range(buf, n, |buf| - n)) == Stream(buf[n..])
  {
  }

  lemma OneTooMany(l: Link, buf: seq<Byte>, t: Link)
    requires Whole(l) && l.queue == [] && t.queue == [Range(buf, -1, |buf| + 1)]
    requires t.accepted == l.accepted && t.submitted == l.submitted + buf
    ensures !Whole(t)
  {
    hide Cells, Stream;
    QueuedOne(Range(buf, -1, |buf| + 1));
    assert |l.accepted + Queued([Range(buf, -1, |buf| + 1)])| == |l.submitted| + |buf| + 1;
  }

  lemma TakeAtOnce(l: Link, buf: seq<Byte>, n: nat, t: Link)
    requires Whole(l) && l.queue == [] && n <= |buf|
    requires t.queue == if n == |buf| then [] else [Range(buf, n, |buf| - n)]
    requires t.accepted == l.accepted + Stream(buf[..n]) && t.submitted == l.submitted + buf
    ensures Whole(t)
  {
    hide Cells, Stream;
    assert l.accepted == Stream(l.submitted);
    StreamConcat(l.submitted, buf);
    StreamConcat(buf[..n], buf[n..]);
    assert buf[..n] + buf[n..] == buf;
    WholeRange(buf, n);
    QueuedOne(Range(buf, n, |buf| - n));
    assert n == |buf| ==> buf[..n] == buf;
    assert l.accepted + (Stream(buf[..n]) + Stream(buf[n..])) == l.accepted + Stream(buf[..n]) + Stream(buf[n..]);
  }

  lemma SendListKeepsWhole(l: Link, bufs: seq<seq<Byte>>)
    requires Whole(l)
    ensures Whole(RawSendList(l, bufs))
  {
    QueuedConcat(l.queue, Ranges(bufs));
    QueuedRanges(bufs);
    StreamConcat(l.submitted, Concat(bufs));
  }

  /** A drain never gives back what it has lost. */
  lemma {:induction false} DrainNeverGains(l: Link)
    ensures var t := RawDrain(l);
            && |t.accepted| + |Queued(t.queue)| <= |l.accepted| + |Queued(l.queue)|
            && t.submitted == l.submitted && l.accepted <= t.accepted && l.writes <= t.writes
    decreases |l.kernel|
  {
    hide Drop;
    var a := RawWrite(l, false, Queued(l.queue));
    DropQueued(l.queue, a.sendLen);
    if a.sendLen > 0 {
      var l' := a.link.(queue := Drop(l.queue, a.sendLen));
      if l'.queue != [] { DrainNeverGains(l'); }
    }
  }

  lemma {:induction false} DrainKeepsWhole(l: Link)
    requires Whole(l) && l.queue != []
    ensures Whole(RawDrain(l)) <==> Unspoiled(l, RawDrain(l))
    decreases |l.kernel|
  {
    hide Drop, Queued;
    var t := RawDrain(l);
    DrainNeverGains(l);
    var cells := Queued(l.queue);
    var a := RawWrite(l, false, cells);
    if a.sendLen > 0 {
      var l' := a.link.(queue := Drop(l.queue, a.sendLen));
      DropQueued(l.queue, a.sendLen);
      if l'.queue != [] { DrainNeverGains(l'); }
      if l.kernel[0].Took? {
        Moves(l.accepted, cells, a.sendLen);
        if l'.queue != [] { DrainKeepsWhole(l'); }
        UnspoiledThen(l, l', t);
      } else if cells != [] {
        assert t.writes[|l.writes|] == Write(false, cells, MinusOne);
        assert |t.accepted| + |Queued(t.queue)| < |t.submitted|;
      } else {
        assert l'.queue == [] && Queued(l'.queue) == [];
        assert l.accepted + [] == l.accepted;
      }
    } else {
      assert l.accepted + cells[..0] == l.accepted;
    }
  }

  lemma Moves(a: seq<Cell>, cells: seq<Cell>, n: nat)
    requires n <= |cells|
    ensures (a + cells[..n]) + cells[n..] == a + cells
  {
  }

  lemma StepKeepsWhole(l: Link, e: RawEvent)
    requires Whole(l)
    ensures Whole(RawStep(l, e)) <==> Unspoiled(l, RawStep(l, e))
  {
    hide Whole, RawDrain, RawSend;
    match e {
      case Sends(buf) => SendKeepsWhole(l, buf);
      case SendsList(bufs) => SendListKeepsWhole(l, bufs);
      case CanWrite => if !l.closed && l.queue != [] { DrainKeepsWhole(l); }
      case Closes => SameStream(l, RawStep(l, e));
    }
  }

  lemma SameStream(l: Link, t: Link)
    requires l.queue == t.queue && l.accepted == t.accepted && l.submitted == t.submitted
    ensures Whole(l) <==> Whole(t)
  {
  }

  /** The stream is conserved at every point of a run if and only if no write of a buffer, and no write of
      a list with bytes in it, was answered with -1. */
  lemma {:induction false} WholeIffNeverMinusOne(l: Link, es: seq<RawEvent>)
    requires Whole(l)
    ensures AlwaysWhole(l, es) <==> Unspoiled(l, RawRun(l, es))
    decreases |es|
  {
    hide Whole, RawStep;
    if es != [] {
      var l' := RawStep(l, es[0]);
      StepKeepsWhole(l, es[0]);
      StepRecords(l, es[0]);
      RunRecords(l', es[1..]);
      UnspoiledThen(l, l', RawRun(l, es));
      if Whole(l') { WholeIffNeverMinusOne(l', es[1..]); }
    }
  }

  /** A stray byte has been sent, or bytes are missing, or a stray byte is the next to go. */
  ghost predicate Damaged(l: Link) {
    var cells := Queued(l.queue);
    || Stray in l.accepted
    || |l.accepted| + |cells| < |l.submitted|
    || (|cells| >= 2 && cells[0] == Stray && |l.accepted| + |cells| <= |l.submitted| + 1)
  }

  lemma DamagedIsNotWhole(l: Link)
    requires Damaged(l)
    ensures !Whole(l)
  {
    var all, stream := l.accepted + Queued(l.queue), Stream(l.submitted);
    assert forall i :: 0 <= i < |stream| ==> stream[i] != Stray;
    if Stray in l.accepted {
      var i :| 0 <= i < |l.accepted| && l.accepted[i] == Stray;
      assert all[i] == Stray;
    } else if |all| >= |stream| {
      assert all[|l.accepted|] == Stray;
    }
  }

  /** Damaged, or conserved until a spoiling write between the two. */
  ghost predicate Hurt(l: Link, t: Link) { Damaged(l) || (Whole(l) && !Unspoiled(l, t)) }

  lemma SendKeepsDamage(l: Link, buf: seq<Byte>)
    requires buf != [] && Hurt(l, RawSend(l, buf))
    ensures Damaged(RawSend(l, buf))
  {
    if !l.closed {
      QueuedOne(Range(buf, 0, |buf|));
      if l.queue != [] {
        QueuedConcat(l.queue, [Range(buf, 0, |buf|)]);
      } else {
        QueuedOne(Rest(buf, if l.kernel == [] then Took(0, false) else l.kernel[0]));
      }
    }
  }

  lemma {:induction false} DrainKeepsDamage(l: Link)
    requires l.queue != [] && Hurt(l, RawDrain(l))
    ensures Damaged(RawDrain(l))
    decreases |l.kernel|
  {
    hide Drop, Queued;
    var t, cells := RawDrain(l), Queued(l.queue);
    DrainNeverGains(l);
    var a := RawWrite(l, false, cells);
    if a.sendLen > 0 {
      var l' := a.link.(queue := Drop(l.queue, a.sendLen));
      DropQueued(l.queue, a.sendLen);
      if l'.queue != [] { DrainNeverGains(l'); }
      if l.kernel[0].Took? {
        if Damaged(l) {
          TakingKeepsDamage(l, l', a.sendLen);
        } else {
          Moves(l.accepted, cells, a.sendLen);
          UnspoiledThen(l, l', t);
        }
        if l'.queue != [] { DrainKeepsDamage(l'); }
      } else if cells != [] {
        assert t.writes[|l.writes|] == Write(false, cells, MinusOne);
        StraySent(l, t);
      } else {
        assert l'.queue == [] && Queued(l'.queue) == [];
      }
    } else {
      assert l.accepted + cells[..0] == l.accepted;
    }
  }

  lemma StraySent(l: Link, t: Link)
    requires l.accepted <= t.accepted
    ensures Stray in l.accepted ==> Stray in t.accepted
  {
  }

  lemma TakingKeepsDamage(l: Link, t: Link, n: nat)
    requires Damaged(l) && 0 < n <= |Queued(l.queue)| && t.submitted == l.submitted
    requires t.accepted == l.accepted + Queued(l.queue)[..n] && Queued(t.queue) == Queued(l.queue)[n..]
    ensures Damaged(t)
  {
    if Stray !in l.accepted && Queued(l.queue)[0] == Stray { assert t.accepted[|l.accepted|] == Stray; }
  }

  lemma StepKeepsDamage(l: Link, e: RawEvent)
    requires e != Sends([]) && Hurt(l, RawStep(l, e))
    ensures Damaged(RawStep(l, e))
  {
    hide RawSend, RawDrain, Whole;
    match e {
      case Sends(buf) => SendKeepsDamage(l, buf);
      case SendsList(bufs) =>
        QueuedConcat(l.queue, Ranges(bufs));
        QueuedRanges(bufs);
      case CanWrite => if !l.closed && l.queue != [] { DrainKeepsDamage(l); }
      case Closes =>
    }
  }

  lemma {:induction false} StaysDamaged(l: Link, es: seq<RawEvent>)
    requires Sends([]) !in es && Damaged(l)
    ensures !Whole(RawRun(l, es))
    decreases |es|
  {
    hide Whole, Damaged, RawStep;
    if es == [] {
      DamagedIsNotWhole(l);
    } else {
      StepKeepsDamage(l, es[0]);
      StaysDamaged(RawStep(l, es[0]), es[1..]);
    }
  }

  /** With no empty buffers sent by themselves it never heals: the stream is conserved at the end of a run
      if and only if no such write was answered with -1. */
  lemma {:induction false} DamageIsForGood(l: Link, es: seq<RawEvent>)
    requires Sends([]) !in es && Whole(l)
    ensures Whole(RawRun(l, es)) <==> Unspoiled(l, RawRun(l, es))
    decreases |es|
  {
    hide Whole, Damaged, RawStep;
    if es != [] {
      var l' := RawStep(l, es[0]);
      StepKeepsWhole(l, es[0]);
      StepRecords(l, es[0]);
      RunRecords(l', es[1..]);
      UnspoiledThen(l, l', RawRun(l, es));
      if Whole(l') {
        DamageIsForGood(l', es[1..]);
      } else {
        StepKeepsDamage(l, es[0]);
        StaysDamaged(l', es[1..]);
      }
    }
  }

  // With replies of 0 or more this is the send path of the other runs.

  function RangesOf(q: seq<IoVec>): (r: seq<Region>)
    ensures |r| == |q|
  {
    seq(|q|, i requires 0 <= i < |q| => Range(q[i].buf, q[i].base, q[i].len))
  }

  function Replies(kernel: seq<Reply>): (r: seq<RawReply>)
    ensures |r| == |kernel|
  {
    seq(|kernel|, i requires 0 <= i < |kernel| => Took(kernel[i].count, kernel[i].fatal))
  }

  /** Apart from the record, this is the connection. */
  ghost predicate Raw(l: Link, c: Conn) {
    && l.queue == RangesOf(c.queue) && l.closed == c.closed && l.kernel == Replies(c.kernel)
    && l.accepted == Stream(c.accepted) && l.submitted == c.submitted
  }

  lemma {:induction false} RawPending(q: seq<IoVec>)
    ensures Queued(RangesOf(q)) == Stream(Pending(q))
  {
    if q != [] {
      assert RangesOf(q)[1..] == RangesOf(q[1..]);
      RawPending(q[1..]);
      StreamConcat(Unsent(q[0]), Pending(q[1..]));
      assert Cells(RangesOf(q)[0]) == Stream(Unsent(q[0]));
    }
  }

  lemma {:induction false} RawConsume(q: seq<IoVec>, n: nat)
    ensures Drop(RangesOf(q), n) == RangesOf(Consume(q, n))
    decreases |q|
  {
    if n > 0 && q != [] {
      assert RangesOf(q)[1..] == RangesOf(q[1..]);
      if n >= q[0].len { RawConsume(q[1..], n - q[0].len); }
    }
  }

  lemma RawKernelWrite(l: Link, c: Conn, direct: bool, bytes: seq<Byte>)
    requires Raw(l, c)
    ensures var a, w := RawWrite(l, direct, Stream(bytes)), KernelWrite(c, bytes);
            Raw(a.link, w.conn) && a.sendLen == w.count && a.fatal == w.fatal
  {
    if c.kernel == [] {
      assert c.accepted + bytes[..0] == c.accepted;
    } else {
      var n := Min(c.kernel[0].count, |bytes|);
      assert Replies(c.kernel)[1..] == Replies(c.kernel[1..]);
      StreamPrefix(bytes, n);
      StreamConcat(c.accepted, bytes[..n]);
    }
  }

  lemma {:induction false} RawDrains(l: Link, c: Conn)
    requires Raw(l, c)
    ensures Raw(RawDrain(l), Drain(c).conn)
    decreases |Pending(c.queue)|
  {
    hide Consume, Drop, KernelWrite, RawWrite;
    RawPending(c.queue);
    var w := KernelWrite(c, Pending(c.queue));
    RawKernelWrite(l, c, false, Pending(c.queue));
    var a := RawWrite(l, false, Stream(Pending(c.queue)));
    if w.count > 0 {
      ConsumePending(c.queue, w.count);
      RawConsume(c.queue, w.count);
      var l', c' := a.link.(queue := Drop(l.queue, a.sendLen)), w.conn.(queue := Consume(c.queue, w.count));
      if c'.queue != [] { RawDrains(l', c'); }
    }
  }

  lemma RawSends(l: Link, c: Conn, buf: seq<Byte>)
    requires Raw(l, c)
    ensures Raw(RawSend(l, buf), SendBuffer(c, buf).conn)
  {
    hide KernelWrite, RawWrite;
    if !c.closed && c.queue == [] {
      RawKernelWrite(l.(submitted := l.submitted + buf), c.(submitted := c.submitted + buf), true, buf);
      FirstReply(c.(submitted := c.submitted + buf), buf);
    }
  }

  lemma FirstReply(c: Conn, buf: seq<Byte>)
    ensures KernelWrite(c, buf).count == if c.kernel == [] then 0 else Min(c.kernel[0].count, |buf|)
  {
  }

  /** Each step of a connection is the same step here. */
  lemma RawIsSendQueue(l: Link, c: Conn, buf: seq<Byte>, bufs: seq<seq<Byte>>)
    requires Raw(l, c)
    ensures Raw(RawStep(l, Sends(buf)), SendBuffer(c, buf).conn)
    ensures Raw(RawStep(l, SendsList(bufs)), SendList(c, bufs).conn)
    ensures Raw(RawStep(l, CanWrite), SendQueue.OnWrite(c).conn)
    ensures Raw(RawStep(l, Closes), OnClose(c))
  {
    hide RawSend, SendBuffer, RawDrain, Drain;
    RawSends(l, c, buf);
    RawDrains(l, c);
    assert RangesOf(c.queue) + Ranges(bufs) == RangesOf(c.queue + Wholes(bufs));
  }
}
