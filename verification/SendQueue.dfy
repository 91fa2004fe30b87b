/** The outgoing side of `src/network/net/TcpConnection.cpp`: `io_vec_list_`, write interest, and the
    point at which the write-complete callback is due.

    The kernel is a list of replies, one per `write` or `writev`: how many of the offered bytes it
    takes, and whether `errno` then says to close. When the list is used up it takes nothing. */
module SendQueue {
  import opened Bytes

  /** `struct iovec`: `len` bytes of a caller's buffer from `base` on. */
  datatype Span = Span(buf: seq<Byte>, base: nat, len: nat)
  type IoVec = v: Span | v.base + v.len <= |v.buf| witness Span([], 0, 0)

  function Whole(buf: seq<Byte>): IoVec { Span(buf, 0, |buf|) }

  function Unsent(v: IoVec): (s: seq<Byte>)
    ensures |s| == v.len
  {
    v.buf[v.base..v.base + v.len]
  }

  function Pending(q: seq<IoVec>): seq<Byte> {
    if q == [] then [] else Unsent(q[0]) + Pending(q[1..])
  }

  datatype Reply = Reply(count: nat, fatal: bool)

  /** The fields the send path uses. `accepted` is what the kernel has taken, `submitted` what
      `sendInLoop` was given while the connection was open. */
  datatype Conn = Conn(queue: seq<IoVec>, writing: bool, registered: bool, closed: bool,
                       kernel: seq<Reply>, accepted: seq<Byte>, submitted: seq<Byte>)

  /** A connection the server has just registered with its loop. */
  function Accepted(kernel: seq<Reply>): Conn {
    Conn([], false, true, false, kernel, [], [])
  }

  datatype Written = Written(conn: Conn, count: nat, fatal: bool)

  /** `write` / `writev` of these bytes. */
  function KernelWrite(c: Conn, bytes: seq<Byte>): (w: Written)
    ensures w.count <= |bytes|
    ensures w.conn.accepted == c.accepted + bytes[..w.count]
    ensures w.conn == c.(kernel := w.conn.kernel, accepted := w.conn.accepted)
  {
    if c.kernel == [] then
      assert c.accepted + [] == c.accepted;
      Written(c, 0, false)
    else
      var n := Min(c.kernel[0].count, |bytes|);
      Written(c.(kernel := c.kernel[1..], accepted := c.accepted + bytes[..n]), n, c.kernel[0].fatal)
  }

  /** `enableEventWriting`: nothing happens for a descriptor the loop does not know. */
  function EnableWriting(c: Conn, enable: bool): Conn {
    if c.registered then c.(writing := enable) else c
  }

  /** `onClose`: the server unregisters the connection, then it is marked closed. */
  function OnClose(c: Conn): Conn {
    if c.closed then c else c.(registered := false, closed := true)
  }

  /** The inner loop of `onWrite`: drop `n` bytes from the front of the list. */
  function Consume(q: seq<IoVec>, n: nat): seq<IoVec>
    decreases |q|
  {
    if n == 0 || q == [] then q
    else if n < q[0].len then [Span(q[0].buf, q[0].base + n, q[0].len - n)] + q[1..]
    else Consume(q[1..], n - q[0].len)
  }

  lemma ConsumeNothing(q: seq<IoVec>, n: nat)
    requires n == 0 || q == []
    ensures Consume(q, n) == q
  {
  }

  /** One turn of the inner loop. */
  lemma ConsumeStep(q: seq<IoVec>, n: nat)
    requires q != [] && 0 < n <= |Pending(q)|
    ensures if n < q[0].len then Consume(q, n) == [Span(q[0].buf, q[0].base + n, q[0].len - n)] + q[1..]
            else Consume(q, n) == Consume(q[1..], n - q[0].len) && n - q[0].len <= |Pending(q[1..])|
  {
  }

  lemma {:induction false} ConsumePending(q: seq<IoVec>, n: nat)
    ensures Pending(Consume(q, n)) == if n <= |Pending(q)| then Pending(q)[n..] else []
    ensures n >= |Pending(q)| && n > 0 ==> |Pending(Consume(q, n))| == 0
    ensures n > |Pending(q)| ==> Consume(q, n) == []
    decreases |q|
  {
    if n == 0 || q == [] {
    } else if n < q[0].len {
      var rest := [Span(q[0].buf, q[0].base + n, q[0].len - n)] + q[1..];
      assert rest[1..] == q[1..];
      assert Unsent(rest[0]) == Unsent(q[0])[n..];
    } else {
      ConsumePending(q[1..], n - q[0].len);
    }
  }

  /** A connection after a step, and whether its write-complete callback is now due. The callback is
      always the last thing its caller does. */
  datatype Sent = Sent(conn: Conn, complete: bool)

  /** The outer loop of `onWrite`: offer the list until the kernel takes nothing or all is taken. */
  function Drain(c: Conn): Sent
    decreases |Pending(c.queue)|
  {
    var w := KernelWrite(c, Pending(c.queue));
    if w.count > 0 then
      ConsumePending(c.queue, w.count);
      var c' := w.conn.(queue := Consume(c.queue, w.count));
      if c'.queue == [] then Sent(EnableWriting(c', false), true) else Drain(c')
    else if w.fatal then Sent(OnClose(w.conn), false)
    else Sent(w.conn, false)
  }

  function OnWrite(c: Conn): Sent {
    if c.closed then Sent(c, false)
    else if c.queue != [] then Drain(c)
    else Sent(EnableWriting(c, false), true)
  }

  /** `sendInLoop(const void*, size_t)`. */
  function SendBuffer(c: Conn, buf: seq<Byte>): Sent {
    if c.closed then Sent(c, false)
    else
      var c := c.(submitted := c.submitted + buf);
      var w := if c.queue == [] then KernelWrite(c, buf) else Written(c, 0, false);
      var size := |buf| - w.count;
      if c.queue == [] && size == 0 then Sent(w.conn, true)
      else if size > 0 then
        Sent(EnableWriting(w.conn.(queue := c.queue + [Span(buf, w.count, size)]), true), false)
      else Sent(w.conn, false)
  }

  function Wholes(bufs: seq<seq<Byte>>): (q: seq<IoVec>)
    ensures |q| == |bufs|
  {
    seq(|bufs|, i requires 0 <= i < |bufs| => Whole(bufs[i]))
  }

  function Concat(bufs: seq<seq<Byte>>): seq<Byte> {
    if bufs == [] then [] else bufs[0] + Concat(bufs[1..])
  }

  /** `sendInLoop(const std::list<BufferNodePtr>&)`. */
  function SendList(c: Conn, bufs: seq<seq<Byte>>): Sent {
    if c.closed then Sent(c, false)
    else
      var c' := c.(queue := c.queue + Wholes(bufs), submitted := c.submitted + Concat(bufs));
      Sent(if c'.queue != [] then EnableWriting(c', true) else c', false)
  }

  // Conservation and write interest.

  /** What the kernel took, followed by what is pending, is what was submitted, in order. */
  ghost predicate Conserved(c: Conn) { c.accepted + Pending(c.queue) == c.submitted }

  /** A registered connection watches for writability exactly while something is queued. */
  ghost predicate InterestTracksQueue(c: Conn) { c.registered ==> (c.writing <==> c.queue != []) }

  /** Only open connections are registered. */
  ghost predicate Inv(c: Conn) {
    Conserved(c) && InterestTracksQueue(c) && (c.closed ==> !c.registered)
  }

  lemma {:induction false} PendingConcat(a: seq<IoVec>, b: seq<IoVec>)
    ensures Pending(a + b) == Pending(a) + Pending(b)
    decreases |a|
  {
    if a == [] {
      assert a + b == b;
    } else {
      assert (a + b)[1..] == a[1..] + b;
      PendingConcat(a[1..], b);
    }
  }

  lemma {:induction false} PendingWholes(bufs: seq<seq<Byte>>)
    ensures Pending(Wholes(bufs)) == Concat(bufs)
  {
    if bufs != [] {
      assert Wholes(bufs)[1..] == Wholes(bufs[1..]);
      PendingWholes(bufs[1..]);
    }
  }

  lemma PendingOne(v: IoVec)
    ensures Pending([v]) == Unsent(v)
  {
    assert [v][1..] == [];
  }

  /** Each kernel reply moves bytes from the front of the queue to the end of `accepted`; the drain
      ends with an empty queue and no interest, or with both. */
  lemma {:induction false} DrainInv(c: Conn)
    requires Conserved(c) && c.queue != [] && !c.closed && (c.registered ==> c.writing)
    ensures var r := Drain(c);
            && Inv(r.conn) && r.conn.submitted == c.submitted && c.accepted <= r.conn.accepted
            && (r.complete <==> !r.conn.closed && r.conn.queue == [])
            && (r.conn.closed || r.conn.registered == c.registered)
            && (r.conn.queue == [] <==> r.complete)
    decreases |Pending(c.queue)|
  {
    hide Pending, Consume;
    var w := KernelWrite(c, Pending(c.queue));
    ConsumePending(c.queue, w.count);
    if w.count > 0 {
      var c' := w.conn.(queue := Consume(c.queue, w.count));
      assert Conserved(c') by { Moved(c.accepted, Pending(c.queue), w.count); }
      if c'.queue != [] { DrainInv(c'); }
    }
  }

  lemma Moved(a: seq<Byte>, p: seq<Byte>, n: nat)
    requires n <= |p|
    ensures (a + p[..n]) + p[n..] == a + p
  {
  }

  lemma OnWriteInv(c: Conn)
    requires Inv(c)
    ensures var r := OnWrite(c);
            && Inv(r.conn) && r.conn.submitted == c.submitted && c.accepted <= r.conn.accepted
            && (r.complete <==> !r.conn.closed && r.conn.queue == [])
            && (r.conn.closed || r.conn.registered == c.registered)
            && (c.closed ==> r.conn == c)
            && (r.conn.queue == [] <==> c.queue == [] || r.complete)
  {
    if !c.closed && c.queue != [] { DrainInv(c); }
  }

  lemma SendBufferInv(c: Conn, buf: seq<Byte>)
    requires Inv(c)
    ensures var r := SendBuffer(c, buf);
            && Inv(r.conn) && c.accepted <= r.conn.accepted
            && r.conn.submitted == (if c.closed then c.submitted else c.submitted + buf)
            && r.conn.closed == c.closed && r.conn.registered == c.registered
            && (r.complete ==> r.conn.queue == [])
            && (!c.closed ==> (r.complete <==> r.conn.queue == []))
  {
    if !c.closed {
      if c.queue == [] { SendBufferAtOnce(c, buf); } else { SendBufferQueued(c, buf); }
    }
  }

  lemma SendBufferAtOnce(c: Conn, buf: seq<Byte>)
    requires Inv(c) && !c.closed && c.queue == []
    ensures var r := SendBuffer(c, buf);
            && Inv(r.conn) && c.accepted <= r.conn.accepted && r.conn.submitted == c.submitted + buf
            && !r.conn.closed && r.conn.registered == c.registered
            && (r.complete <==> r.conn.queue == [])
  {
    hide Pending;
    var w := KernelWrite(c.(submitted := c.submitted + buf), buf);
    assert c.accepted == c.submitted by { NonePending(c.accepted); }
    if w.count < |buf| {
      var v := Span(buf, w.count, |buf| - w.count);
      assert c.queue + [v] == [v];
      PendingOne(v);
      assert Unsent(v) == buf[w.count..];
      Moved(c.accepted, buf, w.count);
    } else {
      NonePending(w.conn.accepted);
      assert buf[..w.count] == buf;
    }
  }

  lemma NonePending(a: seq<Byte>)
    ensures a + Pending([]) == a
  {
  }

  lemma SendBufferQueued(c: Conn, buf: seq<Byte>)
    requires Inv(c) && !c.closed && c.queue != []
    ensures var r := SendBuffer(c, buf);
            && Inv(r.conn) && r.conn.accepted == c.accepted && r.conn.submitted == c.submitted + buf
            && !r.conn.closed && r.conn.registered == c.registered && !r.complete && r.conn.queue != []
  {
    PendingConcat(c.queue, [Whole(buf)]);
    PendingOne(Whole(buf));
    assert c.accepted + (Pending(c.queue) + buf) == c.accepted + Pending(c.queue) + buf;
  }

  lemma SendListInv(c: Conn, bufs: seq<seq<Byte>>)
    requires Inv(c)
    ensures var r := SendList(c, bufs);
            && Inv(r.conn) && r.conn.accepted == c.accepted && !r.complete
            && r.conn.submitted == (if c.closed then c.submitted else c.submitted + Concat(bufs))
            && r.conn.closed == c.closed && r.conn.registered == c.registered
  {
    hide Pending, Wholes, Concat;
    PendingConcat(c.queue, Wholes(bufs));
    PendingWholes(bufs);
    assert c.accepted + (Pending(c.queue) + Concat(bufs)) == c.accepted + Pending(c.queue) + Concat(bufs);
  }

  // Whole runs, with a write-complete callback that may send again.

  datatype Submission = Buffer(buf: seq<Byte>) | List(bufs: seq<seq<Byte>>)

  /** What the callback does each time it runs: the i-th entry is what its i-th run sends. Any
      behaviour of a callback in a run is such a script. */
  type Script = seq<seq<Submission>>

  datatype Outcome = Outcome(conn: Conn, script: Script)

  function Submit(c: Conn, x: Submission, script: Script): (o: Outcome)
    ensures |o.script| <= |script|
    decreases |script|, 0
  {
    var r := match x case Buffer(buf) => SendBuffer(c, buf) case List(bufs) => SendList(c, bufs);
    if r.complete && script != [] then SubmitAll(r.conn, script[0], script[1..]) else Outcome(r.conn, script)
  }

  function SubmitAll(c: Conn, xs: seq<Submission>, script: Script): (o: Outcome)
    ensures |o.script| <= |script|
    decreases |script|, 1 + |xs|
  {
    if xs == [] then Outcome(c, script)
    else var o := Submit(c, xs[0], script); SubmitAll(o.conn, xs[1..], o.script)
  }

  datatype LoopEvent = Submitting(x: Submission) | Writable | Closing

  function LoopStep(c: Conn, e: LoopEvent, script: Script): Outcome {
    match e
    case Submitting(x) => Submit(c, x, script)
    case Writable =>
      var r := OnWrite(c);
      if r.complete && script != [] then SubmitAll(r.conn, script[0], script[1..]) else Outcome(r.conn, script)
    case Closing => Outcome(OnClose(c), script)
  }

  function LoopRun(c: Conn, es: seq<LoopEvent>, script: Script): Outcome
    decreases |es|
  {
    if es == [] then Outcome(c, script)
    else var o := LoopStep(c, es[0], script); LoopRun(o.conn, es[1..], o.script)
  }

  lemma {:induction false} SubmitInv(c: Conn, x: Submission, script: Script)
    requires Inv(c)
    ensures var o := Submit(c, x, script);
            Inv(o.conn) && c.accepted <= o.conn.accepted && c.submitted <= o.conn.submitted
    decreases |script|, 0
  {
    match x {
      case Buffer(buf) => SendBufferInv(c, buf);
      case List(bufs) => SendListInv(c, bufs);
    }
    var r := match x case Buffer(buf) => SendBuffer(c, buf) case List(bufs) => SendList(c, bufs);
    if r.complete && script != [] { SubmitAllInv(r.conn, script[0], script[1..]); }
  }

  lemma {:induction false} SubmitAllInv(c: Conn, xs: seq<Submission>, script: Script)
    requires Inv(c)
    ensures var o := SubmitAll(c, xs, script);
            Inv(o.conn) && c.accepted <= o.conn.accepted && c.submitted <= o.conn.submitted
    decreases |script|, 1 + |xs|
  {
    if xs != [] {
      SubmitInv(c, xs[0], script);
      var o := Submit(c, xs[0], script);
      SubmitAllInv(o.conn, xs[1..], o.script);
    }
  }

  /** Over any interleaving of both kinds of send, writability and closing, any kernel replies, and
      any sends by the callback: nothing is lost, repeated or reordered; and between loop steps the
      write bit of a registered connection is set exactly while its queue is not empty. */
  lemma {:induction false} StreamIsConserved(c: Conn, es: seq<LoopEvent>, script: Script)
    requires Inv(c)
    ensures var o := LoopRun(c, es, script);
            && Inv(o.conn) && c.accepted <= o.conn.accepted && c.submitted <= o.conn.submitted
            && o.conn.accepted <= o.conn.submitted
            && (o.conn.queue == [] ==> o.conn.accepted == o.conn.submitted)
    decreases |es|
  {
    if es != [] {
      var e := es[0];
      var o := LoopStep(c, e, script);
      assert Inv(o.conn) && c.accepted <= o.conn.accepted && c.submitted <= o.conn.submitted by {
        match e {
          case Submitting(x) => SubmitInv(c, x, script);
          case Writable =>
            OnWriteInv(c);
            var r := OnWrite(c);
            if r.complete && script != [] { SubmitAllInv(r.conn, script[0], script[1..]); }
          case Closing =>
        }
      }
      StreamIsConserved(o.conn, es[1..], o.script);
    }
  }

  /** The kernel takes all of a direct write. */
  predicate TakesAll(kernel: seq<Reply>, len: nat) { len == 0 || (kernel != [] && kernel[0].count >= len) }

  /** Nothing is left to send after this step of an open connection: the callback is due. */
  predicate Empties(c: Conn, e: LoopEvent) {
    && !c.closed
    && match e
       case Submitting(Buffer(buf)) => c.queue == [] && TakesAll(c.kernel, |buf|)
       case Submitting(List(_)) => false
       case Writable => !OnWrite(c).conn.closed && OnWrite(c).conn.queue == []
       case Closing => false
  }

  function Direct(e: LoopEvent): seq<Byte> { if e.Submitting? && e.x.Buffer? then e.x.buf else [] }

  /** The callback runs in a step if and only if the step leaves nothing to send; what it sends first then
      follows what the step sent. */
  lemma CallbackRunsWhenEmptied(c: Conn, e: LoopEvent, script: Script)
    requires Inv(c) && script != []
    ensures var o := LoopStep(c, e, script);
            && (|o.script| < |script| <==> Empties(c, e))
            && (Empties(c, e) && script[0] != [] && script[0][0].Buffer? ==>
                  c.submitted + Direct(e) + script[0][0].buf <= o.conn.submitted)
            && (e.Closing? ==> o.conn.closed)
  {
    hide Pending, Drain;
    OnWriteInv(c);
    if e.Submitting? && e.x.Buffer? { SendBufferInv(c, e.x.buf); }
    if Empties(c, e) {
      var r := if e.Writable? then OnWrite(c) else SendBuffer(c, e.x.buf);
      assert r.complete && r.conn.submitted == c.submitted + Direct(e);
      CallbackSends(r.conn, script[0], script[1..]);
    }
  }

  lemma CallbackSends(c: Conn, xs: seq<Submission>, script: Script)
    requires Inv(c) && !c.closed
    ensures xs != [] && xs[0].Buffer? ==> c.submitted + xs[0].buf <= SubmitAll(c, xs, script).conn.submitted
  {
    if xs != [] && xs[0].Buffer? {
      SendBufferInv(c, xs[0].buf);
      var r := SendBuffer(c, xs[0].buf);
      if r.complete && script != [] { SubmitAllInv(r.conn, script[0], script[1..]); }
      var o := Submit(c, xs[0], script);
      SubmitInv(c, xs[0], script);
      SubmitAllInv(o.conn, xs[1..], o.script);
    }
  }

  /** A queue with bytes is emptied by one `onWrite` if the kernel takes all it is offered. */
  lemma {:induction false} GenerousKernelDrains(c: Conn, rest: seq<Reply>, n: nat)
    requires Inv(c) && !c.closed && |Pending(c.queue)| > 0 && n >= |Pending(c.queue)|
    requires c.kernel == [Reply(n, false)] + rest
    requires forall v :: v in c.queue ==> v.len > 0
    ensures var r := OnWrite(c);
            r.complete && r.conn.queue == [] && r.conn.accepted == c.submitted
  {
    var w := KernelWrite(c, Pending(c.queue));
    ConsumePending(c.queue, w.count);
    ConsumeKeepsPositive(c.queue, w.count);
    var c' := w.conn.(queue := Consume(c.queue, w.count));
    if c'.queue != [] { SomethingPending(c'.queue); }
  }

  lemma SomethingPending(q: seq<IoVec>)
    requires q != [] && forall v :: v in q ==> v.len > 0
    ensures |Pending(q)| > 0
  {
    assert q[0] in q;
  }

  lemma {:induction false} ConsumeKeepsPositive(q: seq<IoVec>, n: nat)
    requires forall v :: v in q ==> v.len > 0
    ensures forall v :: v in Consume(q, n) ==> v.len > 0
    decreases |q|
  {
    if n > 0 && q != [] && n >= q[0].len { ConsumeKeepsPositive(q[1..], n - q[0].len); }
  }

  // When a drain closes the connection.

  ghost predicate NoEmptyNode(q: seq<IoVec>) { forall v :: v in q ==> v.len > 0 }

  /** The bytes that these replies would take together. */
  function Total(kernel: seq<Reply>): nat {
    if kernel == [] then 0 else kernel[0].count + Total(kernel[1..])
  }

  /** With `pending` bytes to write, the kernel answers some write with 0 and an error that is fatal:
      every write before it took something, and together they did not take all. */
  ghost predicate Fails(kernel: seq<Reply>, pending: nat) {
    exists k :: 0 <= k < |kernel| && kernel[k].count == 0 && kernel[k].fatal
                && (forall j :: 0 <= j < k ==> kernel[j].count > 0) && Total(kernel[..k]) < pending
  }

  lemma FailsLater(kernel: seq<Reply>, pending: nat)
    requires kernel != [] && kernel[0].count > 0
    ensures Fails(kernel, pending) <==> kernel[0].count < pending && Fails(kernel[1..], pending - kernel[0].count)
  {
    var rest := kernel[1..];
    forall k | 0 < k <= |kernel| ensures Total(kernel[..k]) == kernel[0].count + Total(rest[..k - 1]) {
      assert kernel[..k][1..] == rest[..k - 1];
    }
    if Fails(kernel, pending) {
      var k :| 0 <= k < |kernel| && kernel[k].count == 0 && kernel[k].fatal
               && (forall j :: 0 <= j < k ==> kernel[j].count > 0) && Total(kernel[..k]) < pending;
      assert rest[k - 1] == kernel[k] && forall j :: 0 <= j < k - 1 ==> rest[j] == kernel[j + 1];
    }
    if kernel[0].count < pending && Fails(rest, pending - kernel[0].count) {
      var k :| 0 <= k < |rest| && rest[k].count == 0 && rest[k].fatal
               && (forall j :: 0 <= j < k ==> rest[j].count > 0) && Total(rest[..k]) < pending - kernel[0].count;
      assert kernel[k + 1] == rest[k] && forall j :: 0 < j < k + 1 ==> kernel[j] == rest[j - 1];
    }
  }

  /** A drain closes the connection if and only if the kernel fails it before all is taken. */
  lemma {:induction false} DrainCloses(c: Conn)
    requires !c.closed && c.queue != [] && NoEmptyNode(c.queue)
    ensures Drain(c).conn.closed <==> Fails(c.kernel, |Pending(c.queue)|)
    decreases |Pending(c.queue)|
  {
    hide Fails, Consume, Pending;
    var w := KernelWrite(c, Pending(c.queue));
    SomethingPending(c.queue);
    if c.kernel == [] {
      NeverFails(|Pending(c.queue)|);
    } else if c.kernel[0].count == 0 {
      FailsAtOnce(c.kernel, |Pending(c.queue)|);
    } else {
      FailsLater(c.kernel, |Pending(c.queue)|);
      ConsumePending(c.queue, w.count);
      ConsumeKeepsPositive(c.queue, w.count);
      var c' := w.conn.(queue := Consume(c.queue, w.count));
      if c'.queue != [] {
        SomethingPending(c'.queue);
        DrainCloses(c');
      } else {
        NonePending([]);
      }
    }
  }

  lemma NeverFails(pending: nat)
    ensures !Fails([], pending)
  {
  }

  lemma FailsAtOnce(kernel: seq<Reply>, pending: nat)
    requires kernel != [] && kernel[0].count == 0 && pending > 0
    ensures Fails(kernel, pending) <==> kernel[0].fatal
  {
    assert Total(kernel[..0]) == 0;
  }

  lemma {:induction false} DrainKeepsNoEmptyNode(c: Conn)
    requires NoEmptyNode(c.queue)
    ensures NoEmptyNode(Drain(c).conn.queue)
    decreases |Pending(c.queue)|
  {
    hide Consume;
    var w := KernelWrite(c, Pending(c.queue));
    if w.count > 0 {
      ConsumePending(c.queue, w.count);
      ConsumeKeepsPositive(c.queue, w.count);
      DrainKeepsNoEmptyNode(w.conn.(queue := Consume(c.queue, w.count)));
    }
  }

  // What a reply of -1 does. `sendLen` is a size_t.

  const SIZE_T: nat := 0x1_0000_0000_0000_0000

  function ToSizeT(x: int): nat { x % SIZE_T }

  /** `sendInLoop` queues exactly the unsent suffix for every reply but -1: the test `sendLen < 0`
      never holds, and the queued region would start one byte early and be one byte too long. */
  lemma DirectWriteQueuesSuffix(address: nat, len: nat, reply: int)
    requires 0 < address && 0 < len && address + len < SIZE_T && -1 <= reply <= len
    ensures var sendLen := ToSizeT(reply);
            var start, size := ToSizeT(address + sendLen), ToSizeT(len - sendLen);
            && !(sendLen < 0)
            && (start == address + Max(reply, 0) && size == len - Max(reply, 0) <==> reply >= 0)
            && (reply == -1 ==> start == address - 1 && size == len + 1)
  {
    if reply == -1 {
      assert ToSizeT(reply) == SIZE_T - 1;
    }
  }

  /** `onWrite` takes a reply of -1 for more than everything: it drops the whole queue as sent. */
  lemma WouldBlockDropsQueue(q: seq<IoVec>, reply: int)
    requires |Pending(q)| < SIZE_T - 1 && -1 <= reply <= |Pending(q)|
    ensures reply >= 0 ==> Pending(Consume(q, ToSizeT(reply))) == Pending(q)[reply..]
    ensures reply == -1 ==> Consume(q, ToSizeT(reply)) == []
  {
    hide Pending, Consume;
    ConsumePending(q, ToSizeT(reply));
    if reply == -1 {
      assert ToSizeT(-1) == SIZE_T - 1;
    } else {
      assert ToSizeT(reply) == reply;
    }
  }
}
