/**
  Internet addresses as Go's package net stores them: 16 bytes, an IPv4 address being the last
  four bytes after the prefix of section 2.5.5.2 of RFC 4291. bytes.Compare orders them; an IPv4
  network is four bytes and a prefix length (section 3.1 of RFC 4632).
 */
module Address {
  import opened Text

  type Byte = x: int | 0 <= x < 256
  type IP = s: seq<Byte> | |s| == 16 witness [0, 0, 0, 0, 0, 0, 0, 0, 0, 0, 0, 0, 0, 0, 0, 0]
  type Quad = s: seq<Byte> | |s| == 4 witness [0, 0, 0, 0]

  const V4_PREFIX: seq<Byte> := [0, 0, 0, 0, 0, 0, 0, 0, 0, 0, 255, 255]
  const TWO_32: int := 0x1_0000_0000

  // ---- order ----

  /** bytes.Compare. */
  function Compare(a: seq<Byte>, b: seq<Byte>): int
  {
    if a == [] then (if b == [] then 0 else -1)
    else if b == [] then 1
    else if a[0] < b[0] then -1
    else if a[0] > b[0] then 1
    else Compare(a[1..], b[1..])
  }

  /** The big-endian number the bytes write. */
  function Value(bs: seq<Byte>): nat
  {
    if bs == [] then 0 else Value(bs[..|bs| - 1]) * 256 + bs[|bs| - 1]
  }

  lemma {:induction false} CompareSnoc(a: seq<Byte>, x: Byte, b: seq<Byte>, y: Byte)
    requires |a| == |b|
    ensures Compare(a + [x], b + [y]) ==
            if Compare(a, b) != 0 then Compare(a, b) else if x < y then -1 else if x > y then 1 else 0
  {
    if a == [] {
      assert (a + [x])[1..] == [] && (b + [y])[1..] == [];
    } else {
      assert (a + [x])[1..] == a[1..] + [x] && (b + [y])[1..] == b[1..] + [y];
      CompareSnoc(a[1..], x, b[1..], y);
    }
  }

  /** Byte order on strings of one length is numeric order. */
  lemma {:induction false} CompareIsNumeric(a: seq<Byte>, b: seq<Byte>)
    requires |a| == |b|
    ensures Compare(a, b) < 0 <==> Value(a) < Value(b)
    ensures Compare(a, b) == 0 <==> Value(a) == Value(b)
    ensures Compare(a, b) == 0 <==> a == b
  {
    if a != [] {
      var n := |a| - 1;
      assert a == a[..n] + [a[n]] && b == b[..n] + [b[n]];
      CompareIsNumeric(a[..n], b[..n]);
      CompareSnoc(a[..n], a[n], b[..n], b[n]);
    }
  }

  // ---- IPv4 addresses inside the 16-byte form ----

  /** IP.To4. */
  function To4(ip: IP): Option<Quad>
  {
    if ip[..12] == V4_PREFIX then Some(ip[12..]) else None
  }

  /** The 16-byte form of an IPv4 address. */
  function Mapped(q: Quad): IP
  {
    V4_PREFIX + q
  }

  predicate IsV4(ip: IP)
  {
    To4(ip).Some?
  }

  /** ipToUint32, whose shifts and ors place the four bytes side by side. */
  function ToUint32(q: Quad): (n: nat)
    ensures n < TWO_32
  {
    Octets(q[0], q[1], q[2], q[3])
  }

  function Octets(a: int, b: int, c: int, d: int): int
  {
    ((a * 256 + b) * 256 + c) * 256 + d
  }

  /** The four bytes of a 32-bit number. */
  function FromUint32(n: nat): (q: Quad)
    requires n < TWO_32
    ensures ToUint32(q) == n
  {
    var n1 := n / 256;
    var n2 := n1 / 256;
    var n3 := n2 / 256;
    assert n == n1 * 256 + n % 256 && n1 == n2 * 256 + n1 % 256 && n2 == n3 * 256 + n2 % 256;
    [n3, n2 % 256, n1 % 256, n % 256]
  }

  lemma QuadValue(q: Quad)
    ensures Value(q) == ToUint32(q)
  {
    assert q[..3][..2][..1][..0] == [];
    assert q[..3][..2][..1] == [q[0]];
    assert q[..3][..2] == [q[0], q[1]];
    assert q[..3] == [q[0], q[1], q[2]];
    assert Value(q[..3][..2][..1]) == q[0];
    var a: int, b: int := q[0], q[1];
    assert Value(q[..3][..2]) == a * 256 + b;
  }

  /** bytes.Compare agrees with the order of ipToUint32. */
  lemma QuadOrder(a: Quad, b: Quad)
    ensures Compare(a, b) <= 0 <==> ToUint32(a) <= ToUint32(b)
    ensures ToUint32(a) == ToUint32(b) <==> a == b
  {
    CompareIsNumeric(a, b);
    QuadValue(a);
    QuadValue(b);
  }

  lemma {:induction false} ComparePrefixed(p: seq<Byte>, a: seq<Byte>, b: seq<Byte>)
    ensures Compare(p + a, p + b) == Compare(a, b)
  {
    if p == [] {
      assert p + a == a && p + b == b;
    } else {
      assert (p + a)[1..] == p[1..] + a && (p + b)[1..] == p[1..] + b;
      ComparePrefixed(p[1..], a, b);
    }
  }

  /** On IPv4 addresses the 16-byte comparison is the 32-bit comparison. */
  lemma V4Order(a: IP, b: IP)
    requires IsV4(a) && IsV4(b)
    ensures Compare(a, b) <= 0 <==> ToUint32(To4(a).value) <= ToUint32(To4(b).value)
    ensures a == b <==> ToUint32(To4(a).value) == ToUint32(To4(b).value)
  {
    var qa, qb := a[12..], b[12..];
    assert a == V4_PREFIX + qa && b == V4_PREFIX + qb;
    ComparePrefixed(V4_PREFIX, qa, qb);
    QuadOrder(qa, qb);
  }

  /** What lies between two strings of one length shares their common prefix. */
  lemma {:induction false} BetweenSharesPrefix(a: seq<Byte>, x: seq<Byte>, b: seq<Byte>, n: nat)
    requires |a| == |x| == |b| && n <= |a|
    requires Compare(a, x) <= 0 && Compare(x, b) <= 0
    requires a[..n] == b[..n]
    ensures x[..n] == a[..n]
    ensures Compare(a[n..], x[n..]) <= 0 && Compare(x[n..], b[n..]) <= 0
  {
    if n > 0 {
      assert a[0] == a[..n][0] == b[..n][0] == b[0];
      assert a[1..][..n - 1] == a[..n][1..] == b[..n][1..] == b[1..][..n - 1];
      BetweenSharesPrefix(a[1..], x[1..], b[1..], n - 1);
      assert x[..n] == [x[0]] + x[1..][..n - 1];
      assert a[1..][n - 1..] == a[n..] && x[1..][n - 1..] == x[n..] && b[1..][n - 1..] == b[n..];
    } else {
      assert a[n..] == a && x[n..] == x && b[n..] == b;
    }
  }

  // ---- networks ----

  datatype IPNet = IPNet(ip: Quad, ones: nat)

  /** The weight of the lowest bit that a mask byte with this many leading ones keeps. */
  function Unit(ones: nat): (u: int)
    ensures 1 <= u <= 256
    ensures ones >= 8 ==> u == 1
  {
    match ones
    case 0 => 256
    case 1 => 128
    case 2 => 64
    case 3 => 32
    case 4 => 16
    case 5 => 8
    case 6 => 4
    case 7 => 2
    case _ => 1
  }

  /** x & m, where m is the mask byte with `ones` leading ones: the low bits are cleared. */
  function MaskByte(x: Byte, ones: nat): (r: int)
  {
    Floor(x, Unit(ones))
  }

  function Floor(x: nat, u: int): int
    requires u > 0
  {
    u * (x / u)
  }

  lemma FloorConvex(a: nat, x: nat, b: nat, u: int)
    requires u > 0
    requires a <= x <= b
    requires Floor(a, u) == Floor(b, u)
    ensures Floor(x, u) == Floor(a, u)
  {
    FloorBounds(a, u);
    FloorBounds(x, u);
    FloorBounds(b, u);
    SameMultiple(u, x / u, a / u);
  }

  lemma FloorBounds(x: nat, u: int)
    requires u > 0
    ensures Floor(x, u) <= x < Floor(x, u) + u
  {
    assert x == u * (x / u) + x % u;
  }

  /** Two multiples of u less than u apart are the same. */
  lemma SameMultiple(u: int, p: int, q: int)
    requires u > 0
    requires -u < u * p - u * q < u
    ensures p == q
  {
    if p > q {
      MulAtLeast(u, p, q);
    } else if p < q {
      MulAtLeast(u, q, p);
    }
  }

  lemma {:induction false} MulAtLeast(u: int, p: int, q: int)
    requires u > 0 && p > q
    ensures u * p >= u * q + u
    decreases p - q
  {
    assert u * p == u * (p - 1) + u;
    if p > q + 1 {
      MulAtLeast(u, p - 1, q);
    }
  }

  /** IP.Mask with a prefix mask of `ones` ones. */
  function Mask(bs: seq<Byte>, ones: nat): (r: seq<Byte>)
    ensures |r| == |bs|
  {
    if bs == [] then []
    else [MaskByte(bs[0], ones)] + Mask(bs[1..], if ones > 8 then ones - 8 else 0)
  }

  /** IPNet.Contains for an IPv4 network. */
  predicate Contains(net: IPNet, ip: IP)
  {
    match To4(ip)
    case Some(q) => Mask(net.ip, net.ones) == Mask(q, net.ones)
    case None => false
  }

  lemma MaskByteConvex(a: Byte, x: Byte, b: Byte, ones: nat)
    requires a <= x <= b
    requires MaskByte(a, ones) == MaskByte(b, ones)
    ensures MaskByte(x, ones) == MaskByte(a, ones)
    ensures ones >= 8 ==> a == b
  {
    FloorConvex(a, x, b, Unit(ones));
  }

  lemma {:induction false} MaskZero(a: seq<Byte>, b: seq<Byte>)
    requires |a| == |b|
    ensures Mask(a, 0) == Mask(b, 0)
  {
    if a != [] {
      MaskZero(a[1..], b[1..]);
    }
  }

  /** A masked block is convex in byte order. */
  lemma {:induction false} MaskConvex(a: seq<Byte>, x: seq<Byte>, b: seq<Byte>, ones: nat)
    requires |a| == |x| == |b|
    requires Compare(a, x) <= 0 && Compare(x, b) <= 0
    requires Mask(a, ones) == Mask(b, ones)
    ensures Mask(x, ones) == Mask(a, ones)
  {
    if a != [] {
      var rest := if ones > 8 then ones - 8 else 0;
      assert Mask(a, ones)[0] == Mask(b, ones)[0];
      assert Mask(a, ones)[1..] == Mask(b, ones)[1..];
      MaskByteConvex(a[0], x[0], b[0], ones);
      if ones >= 8 {
        MaskConvex(a[1..], x[1..], b[1..], rest);
      } else {
        MaskZero(a[1..], x[1..]);
      }
    }
  }

  /** A CIDR block that holds two addresses holds everything between them. */
  lemma BlockIsConvex(net: IPNet, lo: IP, ip: IP, hi: IP)
    requires Contains(net, lo) && Contains(net, hi)
    requires Compare(lo, ip) <= 0 && Compare(ip, hi) <= 0
    ensures Contains(net, ip)
  {
    BetweenSharesPrefix(lo, ip, hi, 12);
    MaskConvex(lo[12..], ip[12..], hi[12..], net.ones);
  }
}
