/** The reader/writer byte buffer of `src/network/base/MsgBuffer.h` and `MsgBuffer.cpp`.

    `Geometry` is what the indices do; the class is what the bytes do. Every method says both: the
    new readable bytes in terms of the old ones, and the new indices. */
module MsgBuffers {
  import opened Bytes

  const CHEAP_PREPEND: nat := 8
  const INITIAL_SIZE: nat := 1024
  const EXTRA_BUFFER: nat := 65536

  datatype Geometry = Geometry(size: nat, reader: nat, writer: nat) {
    predicate Ok() { reader <= writer <= size && CHEAP_PREPEND <= size }

    function Readable(): nat requires Ok() { writer - reader }

    function Writable(): nat requires Ok() { size - writer }

    /** The most one `readv` over the free space and the stack buffer can deliver. */
    function ReadCapacity(): (n: nat)
      requires Ok()
      ensures 65536 <= n && Writable() <= n && (n <= 131071 || n == Writable())
    {
      if Writable() < EXTRA_BUFFER then Writable() + EXTRA_BUFFER else Writable()
    }

    /** Growing keeps the indices where they are; compacting moves the readable bytes down to 8. */
    function MakeSpace(len: nat): (r: Geometry)
      requires Ok() && Writable() < len
      ensures r.Ok() && r.Readable() == Readable() && r.Writable() >= len
    {
      if Writable() + reader < len + CHEAP_PREPEND then this.(size := writer + len)
      else this.(reader := CHEAP_PREPEND, writer := CHEAP_PREPEND + Readable())
    }

    function EnsureWritable(len: nat): (r: Geometry)
      requires Ok()
      ensures r.Ok() && r.Readable() == Readable() && r.Writable() >= len
    {
      if Writable() < len then MakeSpace(len) else this
    }

    function Append(len: nat): (r: Geometry)
      requires Ok()
      ensures r.Ok() && r.Readable() == Readable() + len
    {
      var e := EnsureWritable(len);
      e.(writer := e.writer + len)
    }

    function Retrieve(len: nat): (r: Geometry)
      requires Ok() && len <= Readable()
      ensures r.Ok() && r.Readable() == Readable() - len
      ensures r.Readable() == 0 ==> r.reader == 8 && r.writer == 8
    {
      if len < Readable() then this.(reader := reader + len)
      else this.(reader := CHEAP_PREPEND, writer := CHEAP_PREPEND)
    }

    function Prepend(len: nat): (r: Geometry)
      requires Ok() && len <= reader
      ensures r.Ok() && r.Readable() == Readable() + len
    {
      this.(reader := reader - len)
    }

    function Unwrite(len: nat): (r: Geometry)
      requires Ok() && len <= Readable()
      ensures r.Ok() && r.Readable() == Readable() - len
    {
      this.(writer := writer - len)
    }

    function Shrink(reserve: nat): (r: Geometry)
      requires Ok()
      ensures r.Ok() && r.Readable() == Readable() && r.Writable() >= reserve && r.reader == 8
    {
      Fresh(INITIAL_SIZE).EnsureWritable(Readable() + reserve).Append(Readable())
    }

    function ReadFd(n: nat): (r: Geometry)
      requires Ok() && n <= ReadCapacity()
      ensures r.Ok() && r.Readable() == Readable() + n
    {
      if n <= Writable() then this.(writer := writer + n)
      else this.(writer := size).Append(n - Writable())
    }
  }

  function Fresh(initialSize: nat): (g: Geometry)
    ensures g.Ok() && g.Readable() == 0 && g.Writable() == initialSize && g.reader == 8
  {
    Geometry(CHEAP_PREPEND + initialSize, CHEAP_PREPEND, CHEAP_PREPEND)
  }

  class MsgBuffer {
    var buffer: array<Byte>
    var readerIndex: nat
    var writerIndex: nat

    ghost predicate Valid()
      reads this
    {
      Indices().Ok()
    }

    function Indices(): Geometry
      reads this
    {
      Geometry(buffer.Length, readerIndex, writerIndex)
    }

    /** The readable region: all that a user of the buffer can observe. */
    ghost function Contents(): (s: seq<Byte>)
      reads this, buffer
      requires Valid()
      ensures |s| == Indices().Readable()
    {
      buffer[readerIndex..writerIndex]
    }

    constructor (initialSize: nat)
      ensures Valid() && fresh(buffer)
      ensures Contents() == [] && Indices() == Fresh(initialSize)
    {
      buffer := new Byte[CHEAP_PREPEND + initialSize](_ => 0);
      readerIndex, writerIndex := CHEAP_PREPEND, CHEAP_PREPEND;
    }

    function ReadableBytes(): nat
      reads this
      requires Valid()
    {
      writerIndex - readerIndex
    }

    function WritableBytes(): nat
      reads this
      requires Valid()
    {
      buffer.Length - writerIndex
    }

    /** The first `len` bytes from `peek()` on. */
    method Peek(len: nat) returns (s: seq<Byte>)
      requires Valid() && len <= ReadableBytes()
      ensures s == Contents()[..len]
    {
      s := buffer[readerIndex..readerIndex + len];
    }

    method Swap(rhs: MsgBuffer)
      requires Valid() && rhs.Valid()
      modifies this, rhs
      ensures buffer == old(rhs.buffer) && rhs.buffer == old(buffer)
      ensures Valid() && rhs.Valid()
      ensures Contents() == old(rhs.Contents()) && Indices() == old(rhs.Indices())
      ensures rhs.Contents() == old(Contents()) && rhs.Indices() == old(Indices())
    {
      buffer, rhs.buffer := rhs.buffer, buffer;
      readerIndex, rhs.readerIndex := rhs.readerIndex, readerIndex;
      writerIndex, rhs.writerIndex := rhs.writerIndex, writerIndex;
    }

    method RetrieveAll()
      requires Valid()
      modifies this
      ensures Valid() && buffer == old(buffer)
      ensures Contents() == [] && Indices() == old(Indices()).Retrieve(old(ReadableBytes()))
    {
      readerIndex, writerIndex := CHEAP_PREPEND, CHEAP_PREPEND;
    }

    method Retrieve(len: nat)
      requires Valid() && len <= ReadableBytes()
      modifies this
      ensures Valid() && buffer == old(buffer)
      ensures Contents() == old(Contents())[len..]
      ensures Indices() == old(Indices()).Retrieve(len)
    {
      if len < ReadableBytes() {
        readerIndex := readerIndex + len;
      } else {
        RetrieveAll();
      }
    }

    method RetrieveAsString(len: nat) returns (result: seq<Byte>)
      requires Valid() && len <= ReadableBytes()
      modifies this
      ensures Valid() && buffer == old(buffer)
      ensures result + Contents() == old(Contents()) && |result| == len
      ensures Indices() == old(Indices()).Retrieve(len)
    {
      result := Peek(len);
      Retrieve(len);
    }

    /** `buffer_.resize(n)`: the old bytes, then zeros. */
    method Resize(n: nat)
      requires n >= buffer.Length
      modifies this
      ensures fresh(buffer) && buffer.Length == n
      ensures readerIndex == old(readerIndex) && writerIndex == old(writerIndex)
      ensures buffer[..] == old(buffer[..]) + Zeros(n - old(buffer.Length))
    {
      var bytes := buffer[..] + Zeros(n - buffer.Length);
      buffer := new Byte[n](i requires 0 <= i < |bytes| => bytes[i]);
    }

    method MakeSpace(len: nat)
      requires Valid() && WritableBytes() < len
      modifies this, buffer
      ensures Valid() && (buffer == old(buffer) || fresh(buffer))
      ensures Contents() == old(Contents())
      ensures Indices() == old(Indices()).MakeSpace(len)
    {
      if WritableBytes() + readerIndex < len + CHEAP_PREPEND {
        Resize(writerIndex + len);
      } else {
        assert CHEAP_PREPEND < readerIndex;
        var readable := ReadableBytes();
        ghost var was := Contents();
        // std::copy runs forward, and the target starts below the source
        for i := 0 to readable
          invariant buffer == old(buffer)
          invariant readerIndex == old(readerIndex) && writerIndex == old(writerIndex)
          invariant forall j :: 0 <= j < i ==> buffer[CHEAP_PREPEND + j] == was[j]
          invariant forall j :: i <= j < readable ==> buffer[readerIndex + j] == was[j]
        {
          buffer[CHEAP_PREPEND + i] := buffer[readerIndex + i];
        }
        readerIndex := CHEAP_PREPEND;
        writerIndex := readerIndex + readable;
      }
    }

    method EnsureWritableBytes(len: nat)
      requires Valid()
      modifies this, buffer
      ensures Valid() && (buffer == old(buffer) || fresh(buffer))
      ensures Contents() == old(Contents()) && WritableBytes() >= len
      ensures Indices() == old(Indices()).EnsureWritable(len)
    {
      if WritableBytes() < len {
        MakeSpace(len);
      }
    }

    method Append(data: seq<Byte>)
      requires Valid()
      modifies this, buffer
      ensures Valid() && (buffer == old(buffer) || fresh(buffer))
      ensures Contents() == old(Contents()) + data
      ensures Indices() == old(Indices()).Append(|data|)
    {
      EnsureWritableBytes(|data|);
      WriteInPlace(data);
    }

    /** Copies into the writable region and advances: `std::copy` to `beginWrite()`, `hasWritten`. */
    method WriteInPlace(data: seq<Byte>)
      requires Valid() && |data| <= WritableBytes()
      modifies this, buffer
      ensures Valid() && buffer == old(buffer)
      ensures Contents() == old(Contents()) + data
      ensures Indices() == old(Indices()).(writer := old(writerIndex) + |data|)
    {
      ghost var was := Contents();
      CopyIn(data, writerIndex);
      writerIndex := writerIndex + |data|;
      assert Contents()[..|was|] == was;
      assert Contents()[|was|..] == data;
    }

    /** `std::copy(d, d + len, begin() + at)` from memory outside the buffer. */
    method CopyIn(data: seq<Byte>, at: nat)
      requires at + |data| <= buffer.Length
      modifies buffer
      ensures buffer[at..at + |data|] == data
      ensures forall j :: 0 <= j < at || at + |data| <= j < buffer.Length ==> buffer[j] == old(buffer[j])
    {
      for i := 0 to |data|
        invariant forall j :: 0 <= j < i ==> buffer[at + j] == data[j]
        invariant forall j :: 0 <= j < at || at + i <= j < buffer.Length ==> buffer[j] == old(buffer[j])
      {
        buffer[at + i] := data[i];
      }
    }

    method Prepend(data: seq<Byte>)
      requires Valid() && |data| <= readerIndex
      modifies this, buffer
      ensures Valid() && buffer == old(buffer)
      ensures Contents() == data + old(Contents())
      ensures Indices() == old(Indices()).Prepend(|data|)
    {
      ghost var was := Contents();
      readerIndex := readerIndex - |data|;
      CopyIn(data, readerIndex);
      assert buffer[readerIndex + |data|..writerIndex] == was;
    }

    method Unwrite(len: nat)
      requires Valid() && len <= ReadableBytes()
      modifies this
      ensures Valid() && buffer == old(buffer)
      ensures Contents() == old(Contents())[..|old(Contents())| - len]
      ensures Indices() == old(Indices()).Unwrite(len)
    {
      writerIndex := writerIndex - len;
    }

    method Shrink(reserve: nat)
      requires Valid()
      modifies this
      ensures Valid() && fresh(buffer)
      ensures Contents() == old(Contents())
      ensures Indices() == old(Indices()).Shrink(reserve)
    {
      var other := new MsgBuffer(INITIAL_SIZE);
      other.EnsureWritableBytes(ReadableBytes() + reserve);
      other.Append(buffer[readerIndex..writerIndex]);
      Swap(other);
    }

    /** `readFd`: the kernel offers bytes (or an error), `readv` fills the free space first and a
        64 KiB stack buffer next, and the overflow is appended. */
    method ReadFd(offer: Option<seq<Byte>>) returns (n: int)
      requires Valid()
      modifies this, buffer
      ensures Valid() && (buffer == old(buffer) || fresh(buffer))
      ensures offer.None? ==> n == -1 && Contents() == old(Contents()) && Indices() == old(Indices())
      ensures offer.Some? ==> n == Min(|offer.value|, old(Indices()).ReadCapacity())
                              && Contents() == old(Contents()) + offer.value[..n]
                              && Indices() == old(Indices()).ReadFd(n)
    {
      if offer.None? {
        return -1;
      }
      var writable := WritableBytes();
      var capacity := if writable < EXTRA_BUFFER then writable + EXTRA_BUFFER else writable;
      n := Min(|offer.value|, capacity);
      ghost var was := Contents();
      if n <= writable {
        WriteInPlace(offer.value[..n]);
      } else {
        WriteInPlace(offer.value[..writable]);
        Append(offer.value[writable..n]);
        JoinSegments(was, offer.value, writable, n);
      }
    }

    method AppendInt(v: int, w: Width)
      requires Valid() && Fits(v, w)
      modifies this, buffer
      ensures Valid() && (buffer == old(buffer) || fresh(buffer))
      ensures Contents() == old(Contents()) + Encode(v, w)
      ensures Indices() == old(Indices()).Append(w.Size())
    {
      var be := HostToBigEndian(AsUnsigned(v, w), w.Size());
      Append(ToMemory(be, w.Size()));
    }

    method PrependInt(v: int, w: Width)
      requires Valid() && Fits(v, w) && w.Size() <= readerIndex
      modifies this, buffer
      ensures Valid() && buffer == old(buffer)
      ensures Contents() == Encode(v, w) + old(Contents())
      ensures Indices() == old(Indices()).Prepend(w.Size())
    {
      var be := HostToBigEndian(AsUnsigned(v, w), w.Size());
      Prepend(ToMemory(be, w.Size()));
    }

    method PeekInt(w: Width) returns (v: int)
      requires Valid() && w.Size() <= ReadableBytes()
      ensures v == Decode(Contents(), w)
    {
      var raw := Peek(w.Size());
      v := AsSigned(HostToBigEndian(FromMemory(raw), w.Size()), w);
    }

    method ReadInt(w: Width) returns (v: int)
      requires Valid() && w.Size() <= ReadableBytes()
      modifies this
      ensures Valid() && buffer == old(buffer)
      ensures v == Decode(old(Contents()), w) && Contents() == old(Contents())[w.Size()..]
      ensures Indices() == old(Indices()).Retrieve(w.Size())
    {
      v := PeekInt(w);
      Retrieve(w.Size());
    }

    method Call(op: Op)
      requires Valid() && LegalOp(Indices(), op)
      modifies this, buffer
      ensures Valid() && (buffer == old(buffer) || fresh(buffer))
      ensures Contents() == StepBytes(old(Indices()), old(Contents()), op)
      ensures Indices() == StepGeometry(old(Indices()), op)
    {
      match op {
        case Appending(data) => Append(data);
        case Prepending(data) => Prepend(data);
        case Retrieving(len) => Retrieve(len);
        case Unwriting(len) => Unwrite(len);
        case Ensuring(len) => EnsureWritableBytes(len);
        case Shrinking(reserve) => Shrink(reserve);
        case Reading(offer) => var _ := ReadFd(Some(offer));
      }
    }

    /** Any sequence of legal calls, carried out on the array, reads as the plain byte sequence. */
    method Perform(ops: seq<Op>)
      requires Valid() && Legal(Indices(), ops)
      modifies this, buffer
      ensures Valid() && (buffer == old(buffer) || fresh(buffer))
      ensures Contents() == RunBytes(old(Indices()), old(Contents()), ops)
      ensures Indices() == RunGeometry(old(Indices()), ops)
      decreases |ops|
    {
      if ops != [] {
        Call(ops[0]);
        Perform(ops[1..]);
      }
    }
  }

  /** The two segments of a scatter read make one. */
  lemma JoinSegments(s: seq<Byte>, data: seq<Byte>, m: nat, n: nat)
    requires m <= n <= |data|
    ensures (s + data[..m]) + data[m..n] == s + data[..n]
  {
  }

  // Runs of calls: what the caller asked for, on bytes and on indices.

  datatype Op =
    | Appending(data: seq<Byte>)
    | Prepending(data: seq<Byte>)
    | Retrieving(len: nat)
    | Unwriting(len: nat)
    | Ensuring(len: nat)
    | Shrinking(reserve: nat)
    | Reading(offer: seq<Byte>)

  /** The asserts the source states about its callers. */
  predicate LegalOp(g: Geometry, op: Op)
    requires g.Ok()
  {
    match op
    case Prepending(data) => |data| <= g.reader
    case Retrieving(len) => len <= g.Readable()
    case Unwriting(len) => len <= g.Readable()
    case _ => true
  }

  function StepGeometry(g: Geometry, op: Op): (r: Geometry)
    requires g.Ok() && LegalOp(g, op)
    ensures r.Ok()
  {
    match op
    case Appending(data) => g.Append(|data|)
    case Prepending(data) => g.Prepend(|data|)
    case Retrieving(len) => g.Retrieve(len)
    case Unwriting(len) => g.Unwrite(len)
    case Ensuring(len) => g.EnsureWritable(len)
    case Shrinking(reserve) => g.Shrink(reserve)
    case Reading(offer) => g.ReadFd(Min(|offer|, g.ReadCapacity()))
  }

  /** The byte sequence the buffer stands for; the indices only decide how much one read delivers. */
  function StepBytes(g: Geometry, s: seq<Byte>, op: Op): (r: seq<Byte>)
    requires g.Ok() && LegalOp(g, op) && |s| == g.Readable()
    ensures |r| == StepGeometry(g, op).Readable()
  {
    match op
    case Appending(data) => s + data
    case Prepending(data) => data + s
    case Retrieving(len) => s[len..]
    case Unwriting(len) => s[..|s| - len]
    case Ensuring(_) => s
    case Shrinking(_) => s
    case Reading(offer) => s + offer[..Min(|offer|, g.ReadCapacity())]
  }

  predicate Legal(g: Geometry, ops: seq<Op>)
    requires g.Ok()
    decreases |ops|
  {
    ops == [] || (LegalOp(g, ops[0]) && Legal(StepGeometry(g, ops[0]), ops[1..]))
  }

  function RunGeometry(g: Geometry, ops: seq<Op>): (r: Geometry)
    requires g.Ok() && Legal(g, ops)
    ensures r.Ok()
    decreases |ops|
  {
    if ops == [] then g else RunGeometry(StepGeometry(g, ops[0]), ops[1..])
  }

  function RunBytes(g: Geometry, s: seq<Byte>, ops: seq<Op>): (r: seq<Byte>)
    requires g.Ok() && Legal(g, ops) && |s| == g.Readable()
    ensures |r| == RunGeometry(g, ops).Readable()
    decreases |ops|
  {
    if ops == [] then s else RunBytes(StepGeometry(g, ops[0]), StepBytes(g, s, ops[0]), ops[1..])
  }

  // Space.

  /** `readableBytes()` plus the requested length, when a call may have to make room. */
  function Demand(g: Geometry, op: Op): nat
    requires g.Ok()
  {
    match op
    case Appending(data) => g.Readable() + |data|
    case Ensuring(len) => g.Readable() + len
    case Reading(offer) =>
      if |offer| > g.Writable() then g.Readable() + Min(|offer|, g.ReadCapacity()) else 0
    case _ => 0
  }

  function Peak(g: Geometry, ops: seq<Op>): nat
    requires g.Ok() && Legal(g, ops)
    decreases |ops|
  {
    if ops == [] then 0 else Max(Demand(g, ops[0]), Peak(StepGeometry(g, ops[0]), ops[1..]))
  }

  /** One call grows the storage to at most twice its demand plus seven, and never shrinks it. */
  lemma StepSpace(g: Geometry, op: Op)
    requires g.Ok() && LegalOp(g, op) && !op.Shrinking?
    ensures g.size <= StepGeometry(g, op).size
    ensures StepGeometry(g, op).size <= Max(g.size, 2 * Demand(g, op) + 7)
  {
  }

  /** Over every run without `shrink`: size stays within the larger of the first size and twice the
      peak demand plus seven. */
  lemma {:induction false} SpaceBound(g: Geometry, ops: seq<Op>)
    requires g.Ok() && Legal(g, ops)
    requires forall op :: op in ops ==> !op.Shrinking?
    ensures g.size <= RunGeometry(g, ops).size <= Max(g.size, 2 * Peak(g, ops) + 7)
    decreases |ops|
  {
    if ops != [] {
      StepSpace(g, ops[0]);
      SpaceBound(StepGeometry(g, ops[0]), ops[1..]);
    }
  }

  /** The bound cannot be lowered by more than one byte: fill a fresh buffer, consume all but one
      byte, then ask for one byte more than compaction could give. */
  lemma SpaceBoundIsTight(initialSize: nat)
    requires initialSize >= 2
    ensures var ops := [Appending(Zeros(initialSize)), Retrieving(initialSize - 1), Ensuring(initialSize)];
            var g := Fresh(initialSize);
            Legal(g, ops) && RunGeometry(g, ops).size == 2 * Peak(g, ops) + 6
  {
    var ops := [Appending(Zeros(initialSize)), Retrieving(initialSize - 1), Ensuring(initialSize)];
    var g := Fresh(initialSize);
    var g1 := StepGeometry(g, ops[0]);
    var g2 := StepGeometry(g1, ops[1]);
    assert g2 == Geometry(8 + initialSize, 7 + initialSize, 8 + initialSize);
    var last := [ops[2]];
    assert ops[1..][0] == ops[1] && ops[1..][1..] == last && last[1..] == [];
    assert Legal(g2, last) && Legal(g1, ops[1..]);
    assert Peak(g2, last) == initialSize + 1;
    assert Peak(g1, ops[1..]) == initialSize + 1;
    assert RunGeometry(g1, ops[1..]) == RunGeometry(g2, last) == StepGeometry(g2, ops[2]);
  }
}
