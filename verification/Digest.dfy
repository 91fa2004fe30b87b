/** The RTMP handshake packets of `src/mmedia/rtmp/RtmpHandshake.cpp`: what `createC1S1`, `checkC1S1`
    and `createC2S2` write and accept. HMAC-SHA256 is a parameter: any function of a key and a message
    with a 32-byte result. Random fills and the clock are parameters too. */
module Digests {
  import opened Bytes

  const DIGEST_LENGTH: nat := 32
  const PACKET_SIZE: nat := 1536
  const HELLO_SIZE: nat := 1537
  const RTMP_VERSION: Byte := 3
  const DIGEST_MOD: nat := 728

  /** Where the four bytes that locate the digest start, in the two layouts of C1 and S1. */
  const FIRST_LAYOUT: nat := 8
  const SECOND_LAYOUT: nat := 764 + 8

  type Digest = s: seq<Byte> | |s| == DIGEST_LENGTH witness Zeros(DIGEST_LENGTH)
  type Packet = s: seq<Byte> | |s| == PACKET_SIZE witness Zeros(PACKET_SIZE)
  type Hello = s: seq<Byte> | |s| == HELLO_SIZE witness Zeros(HELLO_SIZE)
  type Hmac = (seq<Byte>, seq<Byte>) -> Digest

  function Ascii(s: string): seq<Byte> {
    seq(|s|, i requires 0 <= i < |s| => s[i] as int % 256)
  }

  // The open parts of the two keys, and the version words.
  const SERVER_KEY: seq<Byte> := Ascii("Genuine Adobe Flash Media Server 001")
  const PLAYER_KEY: seq<Byte> := Ascii("Genuine Adobe Flash Player 001")
  const SERVER_VERSION: seq<Byte> := [0x0D, 0x0E, 0x0A, 0x0D]
  const CLIENT_VERSION: seq<Byte> := [0x0C, 0x00, 0x0D, 0x0E]

  function OwnKey(isClient: bool): seq<Byte> { if isClient then PLAYER_KEY else SERVER_KEY }

  function PeerKey(isClient: bool): seq<Byte> { if isClient then SERVER_KEY else PLAYER_KEY }

  function OwnVersion(isClient: bool): (v: seq<Byte>)
    ensures |v| == 4 && v != Zeros(4)
  {
    var v := if isClient then CLIENT_VERSION else SERVER_VERSION;
    assert v[0] != Zeros(4)[0];
    v
  }

  /** `GetDigestOffset`. The result leaves the locating bytes alone, and a digest there fits. */
  function GetDigestOffset(p: seq<Byte>, layout: nat): (offset: nat)
    requires |p| == PACKET_SIZE && (layout == FIRST_LAYOUT || layout == SECOND_LAYOUT)
    ensures layout + 4 <= offset && offset + DIGEST_LENGTH <= layout + 764 <= PACKET_SIZE
  {
    (p[layout] + p[layout + 1] + p[layout + 2] + p[layout + 3]) % DIGEST_MOD + (layout + 4)
  }

  /** `CalculateDigest`: with a positive gap, the 32 bytes at the gap are left out. */
  function CalculateDigest(hmac: Hmac, src: seq<Byte>, gap: nat, key: seq<Byte>): Digest
    requires gap > 0 ==> gap + DIGEST_LENGTH <= |src|
  {
    if gap == 0 then hmac(key, src) else hmac(key, src[..gap] + src[gap + DIGEST_LENGTH..])
  }

  predicate VerifyDigest(hmac: Hmac, p: seq<Byte>, pos: nat, key: seq<Byte>)
    requires 0 < pos && pos + DIGEST_LENGTH <= |p|
  {
    p[pos..pos + DIGEST_LENGTH] == CalculateDigest(hmac, p, pos, key)
  }

  /** `memcpy` into the middle of an array. */
  function Overwrite(s: seq<Byte>, at: nat, data: seq<Byte>): (r: seq<Byte>)
    requires at + |data| <= |s|
    ensures |r| == |s|
    ensures forall i :: 0 <= i < |s| ==> r[i] == if at <= i < at + |data| then data[i - at] else s[i]
  {
    s[..at] + data + s[at + |data|..]
  }

  datatype Greeting = Greeting(bytes: Hello, digest: Digest, offset: nat)

  /** `createC1S1` over a random fill; a complex handshake always uses the first layout. `digest` is
      what `digest_` held before, and keeps in a simple handshake. */
  function CreateC1S1(hmac: Hmac, isClient: bool, isComplex: bool, fill: Hello, digest: Digest): Greeting {
    var b := Overwrite([RTMP_VERSION] + fill[1..], 1, Zeros(4));
    if !isComplex then Greeting(Overwrite(b, 5, Zeros(4)), digest, 0)
    else
      var offset := GetDigestOffset(b[1..], FIRST_LAYOUT);
      var v := Overwrite(b, 5, OwnVersion(isClient));
      var d := CalculateDigest(hmac, v[1..], offset, OwnKey(isClient));
      Greeting(Overwrite(v, 1 + offset, d), d, offset)
  }

  datatype Check = Check(offset: int, isComplex: bool)

  /** `checkC1S1`: a negative offset is a refusal. A zero version word makes the handshake simple. */
  function CheckC1S1(hmac: Hmac, isClient: bool, isComplex: bool, data: seq<Byte>): (c: Check)
    ensures c.offset >= 0 ==> |data| == HELLO_SIZE && data[0] == RTMP_VERSION
    ensures c.offset > 0 ==> c.offset + DIGEST_LENGTH <= PACKET_SIZE
                             && VerifyDigest(hmac, data[1..], c.offset, PeerKey(isClient))
    ensures c.offset == 0 <==> |data| == HELLO_SIZE && data[0] == RTMP_VERSION && data[5..9] == Zeros(4)
    ensures c.isComplex == (isComplex && c.offset != 0)
    ensures !isComplex ==> c.offset <= 0
  {
    if |data| != HELLO_SIZE then Check(-1, isComplex)
    else if data[0] != RTMP_VERSION then Check(-1, isComplex)
    else if data[5..9] == Zeros(4) then Check(0, false)
    else if !isComplex then Check(-1, isComplex)
    else
      var first := GetDigestOffset(data[1..], FIRST_LAYOUT);
      if VerifyDigest(hmac, data[1..], first, PeerKey(isClient)) then Check(first, true)
      else
        var second := GetDigestOffset(data[1..], SECOND_LAYOUT);
        if VerifyDigest(hmac, data[1..], second, PeerKey(isClient)) then Check(second, true)
        else Check(-1, true)
  }

  /** `createC2S2` over a random fill. The key of the digest is made from the sender's own digest. */
  function CreateC2S2(hmac: Hmac, isClient: bool, isComplex: bool, digest: Digest,
                      peer: seq<Byte>, fill: Packet, time: nat): Packet
    requires |peer| >= 8 && time < Pow256(4)
  {
    var b := Overwrite(Overwrite(fill, 0, peer[..8]), 0, Reverse(ToMemory(time, 4)));
    if !isComplex then b
    else
      var key := CalculateDigest(hmac, digest, 0, OwnKey(isClient));
      var at := PACKET_SIZE - DIGEST_LENGTH;
      Overwrite(b, at, CalculateDigest(hmac, b[..at], 0, key))
  }

  /** The packet before its digest is written. */
  function Undigested(isClient: bool, fill: Hello): Hello {
    Overwrite(Overwrite([RTMP_VERSION] + fill[1..], 1, Zeros(4)), 5, OwnVersion(isClient))
  }

  lemma UndigestedAt(isClient: bool, fill: Hello)
    ensures var v := Undigested(isClient, fill);
            && v[0] == RTMP_VERSION && v[1..5] == Zeros(4) && v[5..9] == OwnVersion(isClient)
            && v[9..] == fill[9..]
  {
  }

  /** Writing the version leaves the locating bytes as the random fill made them. */
  lemma CreatedFromUndigested(hmac: Hmac, isClient: bool, fill: Hello, digest: Digest)
    ensures var v := Undigested(isClient, fill);
            var g := CreateC1S1(hmac, isClient, true, fill, digest);
            && g.offset == GetDigestOffset(v[1..], FIRST_LAYOUT)
            && g.digest == CalculateDigest(hmac, v[1..], g.offset, OwnKey(isClient))
            && g.bytes == Overwrite(v, 1 + g.offset, g.digest)
  {
    hide CalculateDigest, Overwrite, OwnVersion, OwnKey, Zeros;
    var b := Overwrite([RTMP_VERSION] + fill[1..], 1, Zeros(4));
    var v := Undigested(isClient, fill);
    assert forall i :: 8 <= i < 12 ==> v[1..][i] == b[1..][i];
  }

  lemma OverwriteParts(s: seq<Byte>, at: nat, data: seq<Byte>)
    requires at + |data| <= |s|
    ensures var r := Overwrite(s, at, data);
            r[..at] == s[..at] && r[at..at + |data|] == data && r[at + |data|..] == s[at + |data|..]
  {
  }

  lemma TailParts(s: seq<Byte>, a: nat, b: nat)
    requires a <= b < |s|
    ensures s[1..][..a] == s[..1 + a][1..] && s[1..][a..b] == s[1 + a..1 + b] && s[1..][b..] == s[1 + b..]
  {
    var t := s[1..];
    assert forall i :: 0 <= i < |t| ==> t[i] == s[1 + i];
    assert t[..a] == s[..1 + a][1..];
    assert t[a..b] == s[1 + a..1 + b];
    assert t[b..] == s[1 + b..];
  }

  /** Writing a digest where the locating bytes say leaves those bytes, and so the offset, and all
      that the digest is computed from, as they were. */
  lemma DigestIsStable(v: Hello, layout: nat, offset: nat, d: Digest)
    requires layout == FIRST_LAYOUT || layout == SECOND_LAYOUT
    requires offset == GetDigestOffset(v[1..], layout)
    ensures var p := Overwrite(v, 1 + offset, d)[1..];
            && GetDigestOffset(p, layout) == offset
            && p[offset..offset + DIGEST_LENGTH] == d
            && p[..offset] + p[offset + DIGEST_LENGTH..] == v[1..][..offset] + v[1..][offset + DIGEST_LENGTH..]
  {
    var w := Overwrite(v, 1 + offset, d);
    assert forall i :: layout <= i < layout + 4 ==> w[1..][i] == w[i + 1] == v[i + 1] == v[1..][i];
    hide Overwrite;
    OverwriteParts(v, 1 + offset, d);
    TailParts(v, offset, offset + DIGEST_LENGTH);
    TailParts(w, offset, offset + DIGEST_LENGTH);
  }

  /** What one role creates, the other accepts, at the offset it was created with; the digest it saved
      is the one in the packet. */
  lemma DigestRoundTrip(hmac: Hmac, isClient: bool, fill: Hello, digest: Digest)
    ensures var g := CreateC1S1(hmac, isClient, true, fill, digest);
            && CheckC1S1(hmac, !isClient, true, g.bytes) == Check(g.offset, true)
            && g.bytes[1..][g.offset..g.offset + DIGEST_LENGTH] == g.digest
            && g.bytes[1..5] == Zeros(4) && g.bytes[5..9] == OwnVersion(isClient)
  {
    hide Undigested, CreateC1S1, Overwrite, GetDigestOffset;
    var v := Undigested(isClient, fill);
    var g := CreateC1S1(hmac, isClient, true, fill, digest);
    CreatedFromUndigested(hmac, isClient, fill, digest);
    DigestIsStable(v, FIRST_LAYOUT, g.offset, g.digest);
    UndigestedAt(isClient, fill);
    assert g.bytes[0] == v[0] && g.bytes[1..5] == v[1..5] && g.bytes[5..9] == v[5..9];
    assert VerifyDigest(hmac, g.bytes[1..], g.offset, OwnKey(isClient));
  }

  /** Both layouts are understood: any packet with a version word that carries its digest where either
      layout puts it is accepted as complex, at an offset where a digest verifies. */
  lemma EitherLayoutIsAccepted(hmac: Hmac, isClient: bool, v: Hello, layout: nat)
    requires layout == FIRST_LAYOUT || layout == SECOND_LAYOUT
    requires v[0] == RTMP_VERSION && v[5..9] != Zeros(4)
    ensures var offset := GetDigestOffset(v[1..], layout);
            var d := CalculateDigest(hmac, v[1..], offset, PeerKey(isClient));
            var p := Overwrite(v, 1 + offset, d);
            var c := CheckC1S1(hmac, isClient, true, p);
            && c.isComplex && (c.offset == offset || (c.offset > 0 && layout == SECOND_LAYOUT))
  {
    var offset := GetDigestOffset(v[1..], layout);
    var d := CalculateDigest(hmac, v[1..], offset, PeerKey(isClient));
    var p := Overwrite(v, 1 + offset, d);
    DigestIsStable(v, layout, offset, d);
    hide Overwrite, GetDigestOffset;
    assert p[0] == v[0] && p[5..9] == v[5..9];
    assert VerifyDigest(hmac, p[1..], offset, PeerKey(isClient));
  }

  // The wire format of a complex C1 or S1, piece by piece.

  /** What comes before the four locating bytes, those, the bytes up to the digest, the digest, the rest. */
  datatype Pieces = Pieces(head: seq<Byte>, locator: seq<Byte>, before: seq<Byte>, digest: seq<Byte>,
                           after: seq<Byte>)

  function Assembled(x: Pieces): seq<Byte> { x.head + x.locator + x.before + x.digest + x.after }

  function SumOfFour(s: seq<Byte>): nat
    requires |s| == 4
  {
    var a: int, b: int, c: int, d: int := s[0], s[1], s[2], s[3];
    a + b + c + d
  }

  /** The sum of the locating bytes, modulo 728, says how far behind them the digest is, and it is the MAC
      of all the rest. */
  predicate Signed(hmac: Hmac, key: seq<Byte>, x: Pieces) {
    && |x.locator| == 4 && |x.before| == SumOfFour(x.locator) % 728
    && |x.digest| == 32 && x.digest == hmac(key, x.head + x.locator + x.before + x.after)
  }

  /** A packet that is made of such pieces, with `head` bytes before the locating ones. */
  ghost predicate Carries(hmac: Hmac, key: seq<Byte>, p: seq<Byte>, head: nat) {
    exists x: Pieces :: |x.head| == head && Signed(hmac, key, x) && Assembled(x) == p
  }

  /** The pieces that a packet has in one layout. */
  function Cut(p: Packet, layout: nat): (x: Pieces)
    requires layout == FIRST_LAYOUT || layout == SECOND_LAYOUT
    ensures Assembled(x) == p && |x.head| == layout && |x.locator| == 4 && |x.digest| == DIGEST_LENGTH
    ensures GetDigestOffset(p, layout) == layout + 4 + |x.before|
  {
    var at := GetDigestOffset(p, layout);
    var x := Pieces(p[..layout], p[layout..layout + 4], p[layout + 4..at], p[at..at + DIGEST_LENGTH],
                    p[at + DIGEST_LENGTH..]);
    assert x.head + x.locator == p[..layout + 4];
    assert p[..layout + 4] + x.before == p[..at];
    assert p[..at] + x.digest == p[..at + DIGEST_LENGTH];
    assert Assembled(x) == p[..at + DIGEST_LENGTH] + x.after == p;
    x
  }

  /** A packet in which the digest verifies is one that is signed, and has no other such pieces. */
  lemma VerifiesIfSigned(hmac: Hmac, key: seq<Byte>, p: Packet, layout: nat)
    requires layout == FIRST_LAYOUT || layout == SECOND_LAYOUT
    ensures VerifyDigest(hmac, p, GetDigestOffset(p, layout), key) <==> Carries(hmac, key, p, layout)
    ensures Carries(hmac, key, p, layout) ==> Signed(hmac, key, Cut(p, layout))
  {
    var x, at := Cut(p, layout), GetDigestOffset(p, layout);
    assert p[..at] + p[at + DIGEST_LENGTH..] == x.head + x.locator + x.before + x.after;
    assert x.digest == p[at..at + DIGEST_LENGTH];
    assert |x.before| == SumOfFour(x.locator) % 728;
    forall y: Pieces | |y.head| == layout && Signed(hmac, key, y) && Assembled(y) == p ensures y == x {
      OnlyPieces(hmac, key, p, layout, y);
    }
  }

  lemma OnlyPieces(hmac: Hmac, key: seq<Byte>, p: Packet, layout: nat, y: Pieces)
    requires layout == FIRST_LAYOUT || layout == SECOND_LAYOUT
    requires |y.head| == layout && Signed(hmac, key, y) && Assembled(y) == p
    ensures y == Cut(p, layout)
  {
    CutAssembled(y);
    var locator := p[layout..layout + 4];
    assert locator[0] == p[layout] && locator[1] == p[layout + 1];
    assert locator[2] == p[layout + 2] && locator[3] == p[layout + 3];
    assert GetDigestOffset(p, layout) == layout + 4 + |y.before|;
  }

  lemma CutAssembled(x: Pieces)
    ensures var p, a := Assembled(x), |x.head|;
            var b := a + |x.locator|;
            var c := b + |x.before|;
            var d := c + |x.digest|;
            && |p| == d + |x.after| && p[..a] == x.head && p[a..b] == x.locator && p[b..c] == x.before
            && p[c..d] == x.digest && p[d..] == x.after
  {
  }

  /** A first message of full length and version 3 that has a version word is accepted if and only if its
      packet is signed by the peer with 8 or with 772 bytes before the locating ones; the offset is where
      the digest is, by the first of the two if both do. */
  lemma AcceptedByWireFormat(hmac: Hmac, isClient: bool, data: Hello)
    requires data[0] == 3 && data[5..9] != [0, 0, 0, 0]
    ensures var key := if isClient then SERVER_KEY else PLAYER_KEY;
            var c := CheckC1S1(hmac, isClient, true, data);
            var first, second := Carries(hmac, key, data[1..], 8), Carries(hmac, key, data[1..], 772);
            && c.isComplex && (c.offset > 0 <==> first || second) && (c.offset < 0 <==> !first && !second)
            && (forall x: Pieces :: Signed(hmac, key, x) && Assembled(x) == data[1..]
                                    && (|x.head| == 8 || (|x.head| == 772 && !first)) ==>
                  c.offset == |x.head| + 4 + |x.before|)
  {
    hide CalculateDigest, Signed, Assembled, GetDigestOffset;
    var key, p: Packet := PeerKey(isClient), data[1..];
    assert Zeros(4) == [0, 0, 0, 0];
    VerifiesIfSigned(hmac, key, p, FIRST_LAYOUT);
    VerifiesIfSigned(hmac, key, p, SECOND_LAYOUT);
    forall x: Pieces | Signed(hmac, key, x) && Assembled(x) == p && (|x.head| == 8 || |x.head| == 772)
      ensures Carries(hmac, key, p, |x.head|) && x == Cut(p, |x.head|)
    {
      OnlyPieces(hmac, key, p, |x.head|, x);
    }
  }

  /** What `createC1S1` makes in a complex handshake is signed by its own role in the first layout: four
      zero bytes and the version word come first, the digest is the one it saves, and the rest is fill. */
  lemma CreatedInWireFormat(hmac: Hmac, isClient: bool, fill: Hello, saved: Digest)
    ensures var g := CreateC1S1(hmac, isClient, true, fill, saved);
            exists x: Pieces ::
              && Signed(hmac, if isClient then PLAYER_KEY else SERVER_KEY, x) && g.bytes == [3] + Assembled(x)
              && x.head == [0, 0, 0, 0] + (if isClient then [0x0C, 0x00, 0x0D, 0x0E] else [0x0D, 0x0E, 0x0A, 0x0D])
              && x.digest == g.digest && x.locator == fill[9..13]
              && x.before == fill[13..][..|x.before|] && x.after == fill[13..][|x.before| + 32..]
  {
    hide Overwrite, CalculateDigest, Undigested, CreateC1S1, GetDigestOffset;
    var v := Undigested(isClient, fill);
    var g := CreateC1S1(hmac, isClient, true, fill, saved);
    CreatedFromUndigested(hmac, isClient, fill, saved);
    UndigestedAt(isClient, fill);
    DigestIsStable(v, FIRST_LAYOUT, g.offset, g.digest);
    CreatedVerifies(hmac, isClient, v, g);
    VerifiesIfSigned(hmac, OwnKey(isClient), g.bytes[1..], FIRST_LAYOUT);
    var x := Cut(g.bytes[1..], FIRST_LAYOUT);
    CreatedPieces(isClient, fill, v, g, x);
  }

  lemma CreatedVerifies(hmac: Hmac, isClient: bool, v: Hello, g: Greeting)
    requires g.offset == GetDigestOffset(v[1..], FIRST_LAYOUT)
    requires g.digest == CalculateDigest(hmac, v[1..], g.offset, OwnKey(isClient))
    requires g.bytes == Overwrite(v, 1 + g.offset, g.digest)
    ensures GetDigestOffset(g.bytes[1..], FIRST_LAYOUT) == g.offset
    ensures VerifyDigest(hmac, g.bytes[1..], g.offset, OwnKey(isClient))
  {
    DigestIsStable(v, FIRST_LAYOUT, g.offset, g.digest);
    hide Overwrite, GetDigestOffset;
  }

  lemma CreatedPieces(isClient: bool, fill: Hello, v: Hello, g: Greeting, x: Pieces)
    requires v[0] == 3 && v[1..5] == Zeros(4) && v[5..9] == OwnVersion(isClient) && v[9..] == fill[9..]
    requires g.offset + DIGEST_LENGTH <= PACKET_SIZE && g.offset == 12 + |x.before|
    requires g.bytes == Overwrite(v, 1 + g.offset, g.digest)
    requires Assembled(x) == g.bytes[1..] && |x.head| == 8 && |x.locator| == 4 && |x.digest| == DIGEST_LENGTH
    ensures g.bytes == [3] + Assembled(x)
    ensures x.head == [0, 0, 0, 0] + (if isClient then [0x0C, 0x00, 0x0D, 0x0E] else [0x0D, 0x0E, 0x0A, 0x0D])
    ensures x.digest == g.digest && x.locator == fill[9..13]
    ensures x.before == fill[13..][..|x.before|] && x.after == fill[13..][|x.before| + 32..]
  {
    var b := g.bytes;
    var n := |x.before|;
    hide Overwrite, Assembled;
    CutAssembled(x);
    TailSlices(b, n);
    TailSlices(fill, n);
    OverwrittenSlices(v, n, g.digest);
    assert v[9..13] == fill[9..13] && v[13..13 + n] == fill[13..13 + n] && v[45 + n..] == fill[45 + n..] by {
      assert forall i :: 9 <= i < 1537 ==> v[i] == v[9..][i - 9] == fill[9..][i - 9] == fill[i];
    }
    assert v[1..9] == v[1..5] + v[5..9];
    assert [3] + b[1..] == b;
  }

  lemma OverwrittenSlices(v: Hello, n: nat, digest: Digest)
    requires 45 + n <= HELLO_SIZE
    ensures var b := Overwrite(v, 13 + n, digest);
            && b[0] == v[0] && b[1..9] == v[1..9] && b[9..13] == v[9..13] && b[13..13 + n] == v[13..13 + n]
            && b[13 + n..45 + n] == digest && b[45 + n..] == v[45 + n..]
  {
    OverwriteParts(v, 13 + n, digest);
  }

  lemma TailSlices(b: Hello, n: nat)
    requires 45 + n <= HELLO_SIZE
    ensures b[1..][..8] == b[1..9] && b[1..][8..12] == b[9..13] && b[1..][12..12 + n] == b[13..13 + n]
    ensures b[1..][12 + n..44 + n] == b[13 + n..45 + n] && b[1..][44 + n..] == b[45 + n..]
    ensures b[13..][..n] == b[13..13 + n] && b[13..][n + 32..] == b[45 + n..]
  {
  }

  /** A simple packet is accepted as simple by either role. */
  lemma SimpleRoundTrip(hmac: Hmac, isClient: bool, complexBefore: bool, fill: Hello, digest: Digest)
    ensures var g := CreateC1S1(hmac, isClient, false, fill, digest);
            CheckC1S1(hmac, !isClient, complexBefore, g.bytes) == Check(0, false) && g.digest == digest
  {
    var g := CreateC1S1(hmac, isClient, false, fill, digest);
    assert g.bytes[5..9] == Zeros(4);
  }

  /** The layout of C2 and S2: the time, big-endian; the second word of the peer's packet; the fill; and
      in a complex handshake a digest of all that under a key made from the sender's own digest. */
  lemma EchoLayout(hmac: Hmac, isClient: bool, isComplex: bool, digest: Digest,
                   peer: seq<Byte>, fill: Packet, time: nat)
    requires |peer| >= 8 && time < Pow256(4)
    ensures var e := CreateC2S2(hmac, isClient, isComplex, digest, peer, fill, time);
            var at := PACKET_SIZE - DIGEST_LENGTH;
            && (forall k :: 0 <= k < 4 ==> e[k] == time / Pow256(3 - k) % 256)
            && e[4..8] == peer[4..8] && e[8..at] == fill[8..at]
            && e[at..] == if isComplex then hmac(hmac(OwnKey(isClient), digest), e[..at]) else fill[at..]
  {
    var at := PACKET_SIZE - DIGEST_LENGTH;
    var e := CreateC2S2(hmac, isClient, isComplex, digest, peer, fill, time);
    var t := Reverse(ToMemory(time, 4));
    var b := Overwrite(Overwrite(fill, 0, peer[..8]), 0, t);
    assert e[..at] == b[..at];
    forall k | 0 <= k < 4 ensures e[k] == time / Pow256(3 - k) % 256 {
      MemoryDigit(time, 4, 3 - k);
    }
  }

  /** The digest in a packet of the peer, where the check found it. */
  function PeerDigest(hmac: Hmac, isClient: bool, data: Hello): Digest
    requires CheckC1S1(hmac, isClient, true, data).offset > 0
  {
    var offset := CheckC1S1(hmac, isClient, true, data).offset;
    data[1..][offset..offset + DIGEST_LENGTH]
  }

  /** Deriving keys from these two digests, and then signing this message, `hmac` does not collide. */
  predicate TellsApart(hmac: Hmac, key: seq<Byte>, a: Digest, b: Digest, m: seq<Byte>) {
    && (hmac(key, a) == hmac(key, b) ==> a == b)
    && (hmac(hmac(key, a), m) == hmac(hmac(key, b), m) ==> hmac(key, a) == hmac(key, b))
  }

  /** In a complex handshake C2 and S2 carry the digest under the key made from the peer's digest if and
      only if that digest and the sender's own are the same. */
  lemma EchoKeyIsOwn(hmac: Hmac, isClient: bool, own: Digest, data: Hello, fill: Packet, time: nat)
    requires time < Pow256(4) && CheckC1S1(hmac, isClient, true, data).offset > 0
    requires var m := CreateC2S2(hmac, isClient, true, own, data[1..], fill, time)[..PACKET_SIZE - DIGEST_LENGTH];
             TellsApart(hmac, OwnKey(isClient), own, PeerDigest(hmac, isClient, data), m)
    ensures var e := CreateC2S2(hmac, isClient, true, own, data[1..], fill, time);
            var at := PACKET_SIZE - DIGEST_LENGTH;
            var peer := PeerDigest(hmac, isClient, data);
            e[at..] == hmac(hmac(OwnKey(isClient), peer), e[..at]) <==> own == peer
  {
    hide CreateC2S2, CheckC1S1, PeerDigest;
    EchoLayout(hmac, isClient, true, own, data[1..], fill, time);
  }

  /** A MAC for the example: a digest derives itself as a key, a derived key signs as itself, and the open
      parts sign with their length. */
  function PlainMac(key: seq<Byte>, message: seq<Byte>): Digest {
    if |message| == DIGEST_LENGTH then message
    else if |key| == DIGEST_LENGTH then key
    else seq(DIGEST_LENGTH, _ => |key| % 256)
  }

  /** They can differ: under this MAC, which tells the two digests apart, a server's S2 never carries the
      digest that the client's C1 would give it. */
  lemma EchoKeysDiffer(clientFill: Hello, serverFill: Hello, saved: Digest, fill: Packet, time: nat)
    requires time < Pow256(4)
    ensures var client, server := CreateC1S1(PlainMac, true, true, clientFill, saved),
                                  CreateC1S1(PlainMac, false, true, serverFill, saved);
            var at := PACKET_SIZE - DIGEST_LENGTH;
            var e := CreateC2S2(PlainMac, false, true, server.digest, client.bytes[1..], fill, time);
            && CheckC1S1(PlainMac, false, true, client.bytes).offset > 0
            && PeerDigest(PlainMac, false, client.bytes) == client.digest != server.digest
            && TellsApart(PlainMac, SERVER_KEY, server.digest, client.digest, e[..at])
            && e[at..] != PlainMac(PlainMac(SERVER_KEY, client.digest), e[..at])
  {
    hide CreateC1S1, CreateC2S2, CheckC1S1, GetDigestOffset;
    var client, server := CreateC1S1(PlainMac, true, true, clientFill, saved),
                          CreateC1S1(PlainMac, false, true, serverFill, saved);
    DigestRoundTrip(PlainMac, true, clientFill, saved);
    PlainDigest(true, clientFill, saved);
    PlainDigest(false, serverFill, saved);
    assert client.digest[0] == 30 && server.digest[0] == 36;
    EchoKeyIsOwn(PlainMac, false, server.digest, client.bytes, fill, time);
  }

  lemma PlainDigest(isClient: bool, fill: Hello, saved: Digest)
    ensures CreateC1S1(PlainMac, isClient, true, fill, saved).digest
            == seq(DIGEST_LENGTH, _ => if isClient then 30 else 36)
  {
    CreatedFromUndigested(PlainMac, isClient, fill, saved);
    assert |SERVER_KEY| == 36 && |PLAYER_KEY| == 30;
  }
}
