/** Bytes, host integers and their network (big-endian) form.

    `appendIntN` stores `htobeN(x)` with `memcpy`, `peekIntN` loads with `memcpy` and swaps again.
    Both sides are modelled as a little-endian host does them: an integer in memory is its bytes,
    least significant first, and `htobe` reverses them. */
module Bytes {

  type Byte = b: int | 0 <= b < 256

  datatype Option<+T> = None | Some(value: T)

  function Min(a: int, b: int): int { if a < b then a else b }

  function Max(a: int, b: int): int { if a > b then a else b }

  function Zeros(n: nat): (s: seq<Byte>)
    ensures |s| == n
  {
    seq(n, _ => 0)
  }

  function Reverse(s: seq<Byte>): (r: seq<Byte>)
    ensures |r| == |s|
    ensures forall k :: 0 <= k < |s| ==> r[k] == s[|s| - 1 - k]
  {
    seq(|s|, i requires 0 <= i < |s| => s[|s| - 1 - i])
  }

  function Pow256(n: nat): (p: nat)
    ensures p > 0
  {
    if n == 0 then 1 else 256 * Pow256(n - 1)
  }

  /** The memory image of an `n`-byte unsigned integer on a little-endian host. */
  function ToMemory(x: nat, n: nat): (s: seq<Byte>)
    requires x < Pow256(n)
    ensures |s| == n
    decreases n
  {
    if n == 0 then [] else [x % 256] + ToMemory(x / 256, n - 1)
  }

  function FromMemory(s: seq<Byte>): (x: nat)
    ensures x < Pow256(|s|)
  {
    if s == [] then 0 else s[0] + 256 * FromMemory(s[1..])
  }

  /** `htobe16/32/64`: the integer whose memory image is the reverse. */
  function HostToBigEndian(x: nat, n: nat): (y: nat)
    requires x < Pow256(n)
    ensures y < Pow256(n)
  {
    FromMemory(Reverse(ToMemory(x, n)))
  }

  lemma {:induction false} FromToMemory(x: nat, n: nat)
    requires x < Pow256(n)
    ensures FromMemory(ToMemory(x, n)) == x
    decreases n
  {
    if n > 0 {
      FromToMemory(x / 256, n - 1);
      assert ToMemory(x, n)[1..] == ToMemory(x / 256, n - 1);
    }
  }

  lemma LowByte(b: Byte, rest: nat)
    ensures (b + 256 * rest) % 256 == b && (b + 256 * rest) / 256 == rest
  {
  }

  lemma {:induction false} ToFromMemory(s: seq<Byte>)
    ensures ToMemory(FromMemory(s), |s|) == s
  {
    if s != [] {
      ToFromMemory(s[1..]);
      var rest := FromMemory(s[1..]);
      LowByte(s[0], rest);
      assert FromMemory(s) == s[0] + 256 * rest;
      assert ToMemory(FromMemory(s), |s|) == [s[0]] + ToMemory(rest, |s| - 1);
      assert s == [s[0]] + s[1..];
    }
  }

  /** Swapping to network order and storing leaves the reversed image in the buffer. */
  lemma StoredImage(x: nat, n: nat)
    requires x < Pow256(n)
    ensures ToMemory(HostToBigEndian(x, n), n) == Reverse(ToMemory(x, n))
  {
    ToFromMemory(Reverse(ToMemory(x, n)));
  }

  /** The stored image is big-endian: byte `k` is the digit of weight 256^(n-1-k). */
  lemma {:induction false} StoredImageIsBigEndian(x: nat, n: nat, k: nat)
    requires x < Pow256(n) && k < n
    ensures ToMemory(HostToBigEndian(x, n), n)[k] == x / Pow256(n - 1 - k) % 256
  {
    StoredImage(x, n);
    MemoryDigit(x, n, n - 1 - k);
  }

  lemma {:induction false} MemoryDigit(x: nat, n: nat, i: nat)
    requires x < Pow256(n) && i < n
    ensures ToMemory(x, n)[i] == x / Pow256(i) % 256
    decreases i
  {
    if i > 0 {
      MemoryDigit(x / 256, n - 1, i - 1);
      DivDiv(x, Pow256(i - 1));
    }
  }

  lemma DivDiv(x: nat, b: nat)
    requires b > 0
    ensures x / 256 / b == x / (256 * b)
  {
    var q, r, s := x / 256 / b, x / 256 % b, x % 256;
    assert x / 256 == q * b + r;
    assert x == 256 * (q * b + r) + s;
    assert x == q * (256 * b) + (256 * r + s);
    DivUnique(x, 256 * b, q, 256 * r + s);
  }

  lemma DivUnique(x: nat, m: nat, q: nat, r: nat)
    requires m > 0 && r < m && x == q * m + r
    ensures x / m == q
  {
    var d := x / m - q;
    assert x == (x / m) * m + x % m;
    assert d * m == r - x % m;
    if d > 0 {
      FactorAtLeast(d, m);
    } else if d < 0 {
      FactorAtMost(d, m);
    }
  }

  lemma FactorAtLeast(d: int, m: int)
    requires d >= 1 && m >= 0
    ensures d * m >= m
  {
  }

  lemma FactorAtMost(d: int, m: int)
    requires d <= -1 && m >= 0
    ensures d * m <= -m
  {
    FactorAtLeast(-d, m);
    assert -d * m == -(d * m);
  }

  /** Loading and swapping undoes swapping and storing. */
  lemma LoadAfterStore(x: nat, n: nat)
    requires x < Pow256(n)
    ensures HostToBigEndian(FromMemory(ToMemory(HostToBigEndian(x, n), n)), n) == x
  {
    FromToMemory(HostToBigEndian(x, n), n);
    StoredImage(x, n);
    assert Reverse(Reverse(ToMemory(x, n))) == ToMemory(x, n);
    FromToMemory(x, n);
  }

  // Signed values: `int8_t`, `int16_t`, `int32_t`, `int64_t` in two's complement.

  datatype Width = W8 | W16 | W32 | W64 {
    function Size(): (n: nat)
      ensures n > 0
    {
      match this
      case W8 => 1
      case W16 => 2
      case W32 => 4
      case W64 => 8
    }
  }

  predicate Fits(v: int, w: Width) {
    -(Pow256(w.Size()) / 2) <= v < Pow256(w.Size()) / 2
  }

  function AsUnsigned(v: int, w: Width): (x: nat)
    requires Fits(v, w)
    ensures x < Pow256(w.Size())
  {
    if v < 0 then v + Pow256(w.Size()) else v
  }

  function AsSigned(x: nat, w: Width): (v: int)
    requires x < Pow256(w.Size())
  {
    if x >= Pow256(w.Size()) / 2 then x - Pow256(w.Size()) else x
  }

  /** The bytes `appendIntN` / `prependIntN` copies into the buffer. */
  function Encode(v: int, w: Width): (s: seq<Byte>)
    requires Fits(v, w)
    ensures |s| == w.Size()
  {
    ToMemory(HostToBigEndian(AsUnsigned(v, w), w.Size()), w.Size())
  }

  /** The value `peekIntN` returns for the first bytes of the buffer. */
  function Decode(s: seq<Byte>, w: Width): (v: int)
    requires |s| >= w.Size()
  {
    AsSigned(HostToBigEndian(FromMemory(s[..w.Size()]), w.Size()), w)
  }

  lemma DecodeEncode(v: int, w: Width, rest: seq<Byte>)
    requires Fits(v, w)
    ensures Decode(Encode(v, w) + rest, w) == v
  {
    var e := Encode(v, w);
    assert (e + rest)[..w.Size()] == e;
    LoadAfterStore(AsUnsigned(v, w), w.Size());
    Pow256Even(w.Size());
  }

  /** What each `appendIntN` takes and how many bytes it writes. */
  lemma IntWidths(v: int)
    ensures Fits(v, W8) <==> -0x80 <= v < 0x80
    ensures Fits(v, W16) <==> -0x8000 <= v < 0x8000
    ensures Fits(v, W32) <==> -0x8000_0000 <= v < 0x8000_0000
    ensures Fits(v, W64) <==> -0x8000_0000_0000_0000 <= v < 0x8000_0000_0000_0000
    ensures Fits(v, W8) ==> |Encode(v, W8)| == 1
    ensures Fits(v, W16) ==> |Encode(v, W16)| == 2
    ensures Fits(v, W32) ==> |Encode(v, W32)| == 4
    ensures Fits(v, W64) ==> |Encode(v, W64)| == 8
  {
    assert Pow256(1) == 0x100 && Pow256(2) == 0x1_0000 && Pow256(3) == 0x100_0000;
    assert Pow256(4) == 0x1_0000_0000 && Pow256(5) == 0x100_0000_0000 && Pow256(6) == 0x1_0000_0000_0000;
    assert Pow256(7) == 0x100_0000_0000_0000 && Pow256(8) == 0x1_0000_0000_0000_0000;
  }

  lemma Pow256Even(n: nat)
    requires n > 0
    ensures Pow256(n) / 2 * 2 == Pow256(n)
  {
    assert Pow256(n) == 2 * (128 * Pow256(n - 1));
  }
}
