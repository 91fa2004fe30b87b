/** Typed values through the buffer of `src/network/base/MsgBuffer.h`: `appendIntN`, `prependIntN`,
    `readIntN`, with room made, bytes moved and storage replaced in between. */
module TypedBuffers {
  import opened Bytes
  import opened MsgBuffers

  datatype TypedInt = TypedInt(width: Width, v: int)

  type Value = x: TypedInt | Fits(x.v, x.width) witness TypedInt(W8, 0)

  function EncodeValue(x: Value): (s: seq<Byte>)
    ensures |s| == x.width.Size()
  {
    Encode(x.v, x.width)
  }

  function EncodeAll(xs: seq<Value>): seq<Byte> {
    if xs == [] then [] else EncodeValue(xs[0]) + EncodeAll(xs[1..])
  }

  /** Reads typed values off the front, returning them and the bytes left; `None` when the bytes run out. */
  function ReadAll(s: seq<Byte>, ws: seq<Width>): Option<(seq<TypedInt>, seq<Byte>)>
    decreases |ws|
  {
    if ws == [] then Some(([], s))
    else if |s| < ws[0].Size() then None
    else match ReadAll(s[ws[0].Size()..], ws[1..])
      case None => None
      case Some((xs, rest)) => Some(([TypedInt(ws[0], Decode(s, ws[0]))] + xs, rest))
  }

  function Widths(xs: seq<Value>): (ws: seq<Width>)
    ensures |ws| == |xs|
  {
    seq(|xs|, i requires 0 <= i < |xs| => xs[i].width)
  }

  lemma {:induction false} TypedRoundTrip(xs: seq<Value>, rest: seq<Byte>)
    ensures ReadAll(EncodeAll(xs) + rest, Widths(xs)) == Some((xs, rest))
    decreases |xs|
  {
    var s := EncodeAll(xs) + rest;
    if xs == [] {
      assert s == rest;
    } else {
      var x := xs[0];
      var tail := EncodeAll(xs[1..]) + rest;
      assert s == EncodeValue(x) + tail;
      DecodeEncode(x.v, x.width, tail);
      assert s[x.width.Size()..] == tail;
      assert Widths(xs)[1..] == Widths(xs[1..]);
      TypedRoundTrip(xs[1..], rest);
      assert [TypedInt(x.width, x.v)] + xs[1..] == xs;
    }
  }

  // Runs that write and read in any order.

  datatype TypedOp =
    | Put(x: Value)           // appendIntN
    | PutFront(x: Value)      // prependIntN
    | Take(width: Width)      // readIntN
    | Reserve(len: nat)       // ensureWritableBytes
    | Compact(reserve: nat)   // shrink

  /** The call on the buffer; reading a value is peeking at it and then retrieving its bytes. */
  function BufferOp(t: TypedOp): Op {
    match t
    case Put(x) => Appending(EncodeValue(x))
    case PutFront(x) => Prepending(EncodeValue(x))
    case Take(width) => Retrieving(width.Size())
    case Reserve(len) => Ensuring(len)
    case Compact(reserve) => Shrinking(reserve)
  }

  function BufferOps(ts: seq<TypedOp>): seq<Op> {
    if ts == [] then [] else [BufferOp(ts[0])] + BufferOps(ts[1..])
  }

  /** The values that the reads of a run decode from the bytes. */
  function Decoded(g: Geometry, s: seq<Byte>, ts: seq<TypedOp>): seq<TypedInt>
    requires g.Ok() && |s| == g.Readable() && Legal(g, BufferOps(ts))
    decreases |ts|
  {
    if ts == [] then []
    else
      var op := BufferOp(ts[0]);
      assert BufferOps(ts)[1..] == BufferOps(ts[1..]);
      (if ts[0].Take? then [TypedInt(ts[0].width, Decode(s, ts[0].width))] else [])
      + Decoded(StepGeometry(g, op), StepBytes(g, s, op), ts[1..])
  }

  // The queue of values that the bytes stand for.

  function QueueStep(q: seq<Value>, t: TypedOp): seq<Value> {
    match t
    case Put(x) => q + [x]
    case PutFront(x) => [x] + q
    case Take(_) => if q == [] then q else q[1..]
    case Reserve(_) => q
    case Compact(_) => q
  }

  /** The caller reads the width that was written, never more than there is, and prepends only into
      the space in front. */
  predicate Agreed(g: Geometry, q: seq<Value>, ts: seq<TypedOp>)
    requires g.Ok()
    decreases |ts|
  {
    ts == [] ||
    (&& (ts[0].Take? ==> q != [] && q[0].width == ts[0].width)
     && LegalOp(g, BufferOp(ts[0]))
     && Agreed(StepGeometry(g, BufferOp(ts[0])), QueueStep(q, ts[0]), ts[1..]))
  }

  function QueueAfter(q: seq<Value>, ts: seq<TypedOp>): seq<Value>
    decreases |ts|
  {
    if ts == [] then q else QueueAfter(QueueStep(q, ts[0]), ts[1..])
  }

  function Taken(q: seq<Value>, ts: seq<TypedOp>): seq<Value>
    decreases |ts|
  {
    if ts == [] then []
    else (if ts[0].Take? && q != [] then [q[0]] else []) + Taken(QueueStep(q, ts[0]), ts[1..])
  }

  lemma {:induction false} EncodeAllConcat(a: seq<Value>, b: seq<Value>)
    ensures EncodeAll(a + b) == EncodeAll(a) + EncodeAll(b)
    decreases |a|
  {
    if a == [] {
      assert a + b == b;
    } else {
      assert (a + b)[1..] == a[1..] + b;
      EncodeAllConcat(a[1..], b);
    }
  }

  /** One call on the bytes is one step of the queue, and a read decodes the front value. */
  lemma TypedStep(g: Geometry, q: seq<Value>, t: TypedOp)
    requires g.Ok() && g.Readable() == |EncodeAll(q)| && LegalOp(g, BufferOp(t))
    requires t.Take? ==> q != [] && q[0].width == t.width
    ensures StepBytes(g, EncodeAll(q), BufferOp(t)) == EncodeAll(QueueStep(q, t))
    ensures t.Take? ==> t.width.Size() <= |EncodeAll(q)| && TypedInt(t.width, Decode(EncodeAll(q), t.width)) == q[0]
  {
    match t {
      case Put(x) =>
        EncodeAllConcat(q, [x]);
        EncodeOne(x);
      case PutFront(x) =>
        EncodeAllConcat([x], q);
        EncodeOne(x);
      case Take(width) =>
        var rest := EncodeAll(q[1..]);
        assert EncodeAll(q) == EncodeValue(q[0]) + rest;
        DecodeEncode(q[0].v, width, rest);
        assert (EncodeValue(q[0]) + rest)[width.Size()..] == rest;
      case Reserve(_) =>
      case Compact(_) =>
    }
  }

  lemma EncodeOne(x: Value)
    ensures EncodeAll([x]) == EncodeValue(x)
  {
    assert [x][1..] == [];
    assert EncodeValue(x) + [] == EncodeValue(x);
  }

  /** Any interleaving of typed writes at either end, typed reads, reservations and shrinks, from any
      indices and contents, behaves as a queue of values: the reads decode what the queue gives, and
      the bytes left are the values left. Growth, the forward copy and the index resets do not show. */
  lemma {:induction false} TypedRunIsQueue(g: Geometry, q: seq<Value>, ts: seq<TypedOp>)
    requires g.Ok() && g.Readable() == |EncodeAll(q)| && Agreed(g, q, ts)
    ensures Legal(g, BufferOps(ts))
    ensures RunBytes(g, EncodeAll(q), BufferOps(ts)) == EncodeAll(QueueAfter(q, ts))
    ensures Decoded(g, EncodeAll(q), ts) == Taken(q, ts)
    decreases |ts|
  {
    if ts != [] {
      var op := BufferOp(ts[0]);
      assert BufferOps(ts)[0] == op && BufferOps(ts)[1..] == BufferOps(ts[1..]);
      TypedStep(g, q, ts[0]);
      hide StepBytes, StepGeometry, EncodeAll, Decode;
      TypedRunIsQueue(StepGeometry(g, op), QueueStep(q, ts[0]), ts[1..]);
    }
  }

  /** The values written at the end, in order. */
  function Puts(ts: seq<TypedOp>): seq<Value> {
    if ts == [] then [] else (if ts[0].Put? then [ts[0].x] else []) + Puts(ts[1..])
  }

  /** Without prepending, what has been read is a prefix of what was there and what was appended, and
      what is left is the rest. */
  lemma {:induction false} FirstInFirstOut(q: seq<Value>, ts: seq<TypedOp>)
    requires forall t :: t in ts ==> !t.PutFront?
    ensures Taken(q, ts) + QueueAfter(q, ts) == q + Puts(ts)
    decreases |ts|
  {
    if ts != [] {
      var t, q' := ts[0], QueueStep(q, ts[0]);
      assert t in ts;
      FirstInFirstOut(q', ts[1..]);
      var taken := if t.Take? && q != [] then [q[0]] else [];
      var put := if t.Put? then [t.x] else [];
      assert taken + q' == q + put;
      Reassociate(taken, Taken(q', ts[1..]), QueueAfter(q', ts[1..]), q, put, q', Puts(ts[1..]));
    }
  }

  lemma Reassociate(a: seq<Value>, b: seq<Value>, c: seq<Value>, q: seq<Value>, p: seq<Value>,
                    q': seq<Value>, r: seq<Value>)
    requires b + c == q' + r && a + q' == q + p
    ensures (a + b) + c == q + (p + r)
  {
    assert (a + b) + c == a + (b + c) == a + (q' + r) == (a + q') + r == (q + p) + r;
  }

  /** A prepended length is the next value read, and the values behind it stay as they were. */
  lemma PrependedLengthReadsFirst(q: seq<Value>, length: Value)
    ensures var frame := [PutFront(length), Take(length.width)];
            QueueAfter(q, frame) == q && Taken(q, frame) == [length]
  {
    var frame := [PutFront(length), Take(length.width)];
    assert frame[1..] == [Take(length.width)] && frame[1..][1..] == [];
    assert ([length] + q)[1..] == q;
    assert QueueAfter([length] + q, frame[1..]) == q;
    assert Taken([length] + q, frame[1..]) == [length];
  }

  /** Such runs do meet compaction: after two writes of n bytes into 2n and one read, a third write is
      made where the forward copy has moved the second one down. */
  lemma CompactionHappens(n: nat)
    requires n > 0
    ensures Geometry(8 + 2 * n, 8, 8 + 2 * n).Retrieve(n) == Geometry(8 + 2 * n, 8 + n, 8 + 2 * n)
    ensures Geometry(8 + 2 * n, 8 + n, 8 + 2 * n).Append(n) == Geometry(8 + 2 * n, 8, 8 + 2 * n)
  {
  }
}
