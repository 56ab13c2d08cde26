/**
  Which addresses an IPv4 network holds: a prefix of n bits is one aligned block of 2^(32 - n)
  addresses (section 3.1 of RFC 4632).
 */
module Network {
  import opened Text
  import opened Address

  function Pow2(n: nat): (p: nat)
    ensures p > 0
  {
    if n == 0 then 1 else 2 * Pow2(n - 1)
  }

  lemma {:induction false} Pow2Sum(m: nat, n: nat)
    ensures Pow2(m + n) == Pow2(m) * Pow2(n)
  {
    if m > 0 {
      Pow2Sum(m - 1, n);
      var p, q := Pow2(m - 1), Pow2(n);
      assert 2 * (p * q) == (2 * p) * q;
    }
  }

  lemma Pow2Bytes()
    ensures Pow2(0) == 1 && Pow2(8) == 256 && Pow2(16) == 0x1_0000 && Pow2(24) == 0x100_0000 && Pow2(32) == TWO_32
  {
    assert Pow2(4) == 16 && Pow2(8) == 256;
    Pow2Sum(8, 8);
    Pow2Sum(16, 8);
    Pow2Sum(16, 16);
  }

  /** A mask byte with n leading ones keeps the multiples of 2^(8 - n). */
  lemma UnitIsPower(ones: nat)
    requires ones <= 8
    ensures Unit(ones) == Pow2(8 - ones)
  {
    Pow2Bytes();
    assert Pow2(1) == 2 && Pow2(2) == 4 && Pow2(3) == 8 && Pow2(4) == 16;
    assert Pow2(5) == 32 && Pow2(6) == 64 && Pow2(7) == 128;
  }

  // ---- division ----

  lemma QuotientIs(n: nat, d: nat, q: nat, r: nat)
    requires d > 0 && n == d * q + r && r < d
    ensures n / d == q
  {
    assert n == d * (n / d) + n % d;
    SameMultiple(d, n / d, q);
  }

  lemma DivTwice(n: nat, m: nat, u: nat)
    requires m > 0 && u > 0
    ensures m * u > 0 && n / (m * u) == (n / m) / u
  {
    var q, r := n / m, n % m;
    var q', r' := q / u, q % u;
    assert n == m * q + r && q == u * q' + r';
    Positive(m, u);
    Regroup(m, u, q', r', r);
    BelowProduct(m, u, r', r);
    QuotientIs(n, m * u, q', m * r' + r);
  }

  lemma Positive(m: nat, u: nat)
    requires m > 0 && u > 0
    ensures m * u > 0
  {
  }

  lemma Regroup(m: nat, u: nat, q: nat, x: nat, r: nat)
    ensures m * (u * q + x) + r == (m * u) * q + (m * x + r)
  {
    assert m * (u * q + x) == m * (u * q) + m * x;
    assert m * (u * q) == (m * u) * q;
  }

  lemma BelowProduct(m: nat, u: nat, x: nat, r: nat)
    requires x < u && r < m
    ensures 0 <= m * x + r < m * u
  {
    MulAtLeast(m, u, x);
  }

  /** A byte below a prefix: the quotient keeps the prefix and the byte's own quotient apart. */
  lemma PrefixDiv(t: nat, x: nat, u: nat, v: nat)
    requires u > 0 && u * v == 256 && x < 256
    ensures (t * 256 + x) / u == v * t + x / u && x / u < v
  {
    var q, r := x / u, x % u;
    assert x == u * q + r;
    if q >= v {
      if q > v {
        MulAtLeast(u, q, v);
      }
      assert false;
    }
    assert t * 256 == u * (v * t) by {
      assert u * (v * t) == (u * v) * t;
    }
    assert u * (v * t + q) == u * (v * t) + u * q;
    QuotientIs(t * 256 + x, u, v * t + q, r);
  }

  /** Two such quotients are equal exactly when both parts are. */
  lemma SplitEqual(v: nat, s: nat, a: nat, t: nat, b: nat)
    requires a < v && b < v
    ensures v * s + a == v * t + b <==> s == t && a == b
  {
    if v * s + a == v * t + b {
      SameMultiple(v, s, t);
    }
  }

  lemma SameFloor(x: nat, y: nat, u: int)
    requires u > 0
    ensures Floor(x, u) == Floor(y, u) <==> x / u == y / u
  {
    if Floor(x, u) == Floor(y, u) {
      SameMultiple(u, x / u, y / u);
    }
  }

  // ---- the masked prefix ----

  /** The number that the first k bytes write. */
  function Front(q: Quad, k: nat): (n: nat)
    requires k <= 4
  {
    if k == 0 then 0 else Front(q, k - 1) * 256 + q[k - 1]
  }

  lemma FrontOf(q: Quad, k: nat)
    requires 1 <= k <= 4
    ensures ToUint32(q) / Pow2(8 * (4 - k)) == Front(q, k)
  {
    Fronts(q);
    if k == 4 {
      assert Pow2(0) == 1;
    } else {
      Pow2Bytes();
      Cut(q, k);
    }
  }

  lemma Fronts(q: Quad)
    ensures Front(q, 1) == q[0] && Front(q, 2) == Front(q, 1) * 256 + q[1]
    ensures Front(q, 3) == Front(q, 2) * 256 + q[2] && Front(q, 4) == Front(q, 3) * 256 + q[3]
    ensures ToUint32(q) == Front(q, 4)
  {
  }

  lemma Cut(q: Quad, k: nat)
    requires 1 <= k <= 3
    ensures k == 1 ==> ToUint32(q) / 0x100_0000 == Front(q, k)
    ensures k == 2 ==> ToUint32(q) / 0x1_0000 == Front(q, k)
    ensures k == 3 ==> ToUint32(q) / 256 == Front(q, k)
  {
    Fronts(q);
  }

  lemma {:induction false} SameFront(a: Quad, b: Quad, k: nat)
    requires k <= 4
    ensures Front(a, k) == Front(b, k) <==> a[..k] == b[..k]
  {
    if k > 0 {
      SameFront(a, b, k - 1);
      assert a[..k] == a[..k - 1] + [a[k - 1]] && b[..k] == b[..k - 1] + [b[k - 1]];
    }
  }

  /** Masks agree when the full bytes agree and the byte that the prefix ends in agrees up to its unit. */
  lemma {:induction false} MaskSplits(a: seq<Byte>, b: seq<Byte>, k: nat, ones: nat)
    requires |a| == |b| && 1 <= k <= |a| && 8 * (k - 1) <= ones <= 8 * k
    ensures Mask(a, ones) == Mask(b, ones) <==>
            a[..k - 1] == b[..k - 1] && a[k - 1] / Unit(ones - 8 * (k - 1)) == b[k - 1] / Unit(ones - 8 * (k - 1))
  {
    var rest := if ones > 8 then ones - 8 else 0;
    assert Mask(a, ones)[0] == MaskByte(a[0], ones) && Mask(a, ones)[1..] == Mask(a[1..], rest);
    assert Mask(b, ones)[0] == MaskByte(b[0], ones) && Mask(b, ones)[1..] == Mask(b[1..], rest);
    if k == 1 {
      SameFloor(a[0], b[0], Unit(ones));
      MaskZero(a[1..], b[1..]);
      assert Mask(a, ones) == Mask(b, ones) <==> MaskByte(a[0], ones) == MaskByte(b[0], ones);
    } else {
      MaskSplits(a[1..], b[1..], k - 1, ones - 8);
      MaskTail(a, b, k, ones);
    }
  }

  lemma MaskTail(a: seq<Byte>, b: seq<Byte>, k: nat, ones: nat)
    requires |a| == |b| && 2 <= k <= |a| && 8 * (k - 1) <= ones <= 8 * k
    ensures Mask(a, ones) == Mask(b, ones) <==> a[0] == b[0] && Mask(a[1..], ones - 8) == Mask(b[1..], ones - 8)
    ensures a[..k - 1] == b[..k - 1] <==> a[0] == b[0] && a[1..][..k - 2] == b[1..][..k - 2]
  {
    assert Unit(ones) == 1 && MaskByte(a[0], ones) == a[0] && MaskByte(b[0], ones) == b[0];
    assert ones == 8 ==> Mask(a[1..], 0) == Mask(a[1..], ones - 8);
    assert Mask(a, ones) == [a[0] as int] + Mask(a[1..], ones - 8);
    assert Mask(b, ones) == [b[0] as int] + Mask(b[1..], ones - 8);
    assert Mask(a, ones)[1..] == Mask(a[1..], ones - 8) && Mask(b, ones)[1..] == Mask(b[1..], ones - 8);
    assert Mask(a, ones)[0] == a[0] && Mask(b, ones)[0] == b[0];
    assert a[..k - 1] == [a[0]] + a[1..][..k - 2] && b[..k - 1] == [b[0]] + b[1..][..k - 2];
  }

  /** The byte in which a prefix of this many bits ends. */
  function LastByte(ones: nat): (k: nat)
    requires ones <= 32
    ensures 1 <= k <= 4 && 8 * (k - 1) <= ones <= 8 * k
  {
    if ones <= 8 then 1 else if ones <= 16 then 2 else if ones <= 24 then 3 else 4
  }

  /** Dividing by the bytes after byte k, and by what byte k does not keep. */
  lemma QuotientAt(q: Quad, k: nat, j: nat)
    requires 1 <= k <= 4 && j <= 8
    ensures ToUint32(q) / (Pow2(8 * (4 - k)) * Pow2(8 - j)) == Pow2(j) * Front(q, k - 1) + q[k - 1] / Pow2(8 - j)
    ensures q[k - 1] / Pow2(8 - j) < Pow2(j)
  {
    FrontOf(q, k);
    SplitByte(j);
    DivTwice(ToUint32(q), Pow2(8 * (4 - k)), Pow2(8 - j));
    PrefixDiv(Front(q, k - 1), q[k - 1], Pow2(8 - j), Pow2(j));
  }

  lemma SplitByte(j: nat)
    requires j <= 8
    ensures Pow2(8 - j) * Pow2(j) == 256
  {
    Pow2Sum(8 - j, j);
    Pow2Bytes();
    assert (8 - j) + j == 8;
  }

  lemma PrefixQuotient(q: Quad, ones: nat)
    requires ones <= 32
    ensures var k := LastByte(ones);
            var j := ones - 8 * (k - 1);
            && ToUint32(q) / Pow2(32 - ones) == Pow2(j) * Front(q, k - 1) + q[k - 1] / Unit(j)
            && q[k - 1] / Unit(j) < Pow2(j)
  {
    var k := LastByte(ones);
    var j := ones - 8 * (k - 1);
    Pow2Sum(8 * (4 - k), 8 - j);
    assert 8 * (4 - k) + (8 - j) == 32 - ones;
    UnitIsPower(j);
    QuotientAt(q, k, j);
  }

  lemma MaskIsQuotient(a: Quad, b: Quad, ones: nat)
    requires ones <= 32
    ensures Mask(a, ones) == Mask(b, ones) <==> ToUint32(a) / Pow2(32 - ones) == ToUint32(b) / Pow2(32 - ones)
  {
    var k := LastByte(ones);
    var j := ones - 8 * (k - 1);
    PrefixQuotient(a, ones);
    PrefixQuotient(b, ones);
    MaskSplits(a, b, k, ones);
    SameFront(a, b, k - 1);
    SplitEqual(Pow2(j), Front(a, k - 1), a[k - 1] / Unit(j), Front(b, k - 1), b[k - 1] / Unit(j));
  }

  // ---- the block ----

  /** A network holds exactly the IPv4 addresses that agree with it in the bits of the prefix: whose number, divided by 2^(32 - ones), is the same. */
  lemma ContainsIsPrefix(net: IPNet, ip: IP)
    requires net.ones <= 32
    ensures Contains(net, ip) <==>
            IsV4(ip) && ToUint32(To4(ip).value) / Pow2(32 - net.ones) == ToUint32(net.ip) / Pow2(32 - net.ones)
  {
    if IsV4(ip) {
      MaskIsQuotient(net.ip, To4(ip).value, net.ones);
    }
  }

  /** The lowest number in the network. */
  function Base(net: IPNet): int
    requires net.ones <= 32
  {
    Floor(ToUint32(net.ip), Pow2(32 - net.ones))
  }

  lemma SameQuotient(n: nat, m: nat, p: nat)
    requires p > 0
    ensures n / p == m / p <==> p * (m / p) <= n < p * (m / p) + p
  {
    if p * (m / p) <= n < p * (m / p) + p {
      QuotientIs(n, p, m / p, n - p * (m / p));
    }
  }

  /** The block fits below 2^32: it is one of the 2^ones blocks of its size. */
  lemma BlockFits(n: nat, p: nat, c: nat)
    requires p > 0 && n < p * c
    ensures p * (n / p) + p <= p * c
  {
    if n / p >= c {
      if n / p > c {
        MulAtLeast(p, n / p, c);
      }
      assert false;
    } else {
      MulAtLeast(p, c, n / p);
    }
  }

  /** 2^ones blocks of 2^(32 - ones) addresses are all of them. */
  lemma SizeTimes(ones: nat)
    requires ones <= 32
    ensures Pow2(32 - ones) * Pow2(ones) == TWO_32
  {
    Pow2Sum(32 - ones, ones);
    Pow2Bytes();
    assert (32 - ones) + ones == 32;
  }

  lemma BlockOf(n: nat, p: nat, c: nat, all: nat)
    requires p > 0 && p * c == all && n < all
    ensures (p * (n / p)) % p == 0 && p * (n / p) + p <= all
  {
    BlockFits(n, p, c);
    Aligned(p, n / p);
  }

  lemma BaseIs(net: IPNet)
    requires net.ones <= 32
    ensures Base(net) % Pow2(32 - net.ones) == 0 && Base(net) + Pow2(32 - net.ones) <= TWO_32
  {
    SizeTimes(net.ones);
    BlockOf(ToUint32(net.ip), Pow2(32 - net.ones), Pow2(net.ones), TWO_32);
  }

  lemma BlockHolds(net: IPNet, ip: IP)
    requires net.ones <= 32 && IsV4(ip)
    ensures Contains(net, ip) <==> Base(net) <= ToUint32(To4(ip).value) < Base(net) + Pow2(32 - net.ones)
  {
    ContainsIsPrefix(net, ip);
    SameQuotient(ToUint32(To4(ip).value), ToUint32(net.ip), Pow2(32 - net.ones));
  }

  /** So it is one aligned block of exactly 2^(32 - ones) addresses. */
  lemma BlockIsInterval(net: IPNet, ip: IP)
    requires net.ones <= 32
    ensures Contains(net, ip) <==>
            IsV4(ip) && Base(net) <= ToUint32(To4(ip).value) < Base(net) + Pow2(32 - net.ones)
    ensures Base(net) % Pow2(32 - net.ones) == 0 && Base(net) + Pow2(32 - net.ones) <= TWO_32
  {
    BaseIs(net);
    if IsV4(ip) {
      BlockHolds(net, ip);
    }
  }

  lemma Aligned(p: nat, q: nat)
    requires p > 0
    ensures (p * q) % p == 0
  {
    QuotientIs(p * q, p, q, 0);
  }

  /** The 16-byte form of an IPv4 address: ten zero bytes, two of 255, and the address. */
  lemma MappedValue(q: Quad)
    ensures Value(Mapped(q)) == 0xFFFF_0000_0000 + ToUint32(q) && To4(Mapped(q)) == Some(q)
  {
    assert Mapped(q)[..12] == V4_PREFIX && Mapped(q)[12..] == q;
    PrefixValue();
    ValueConcat(V4_PREFIX, q);
    QuadValue(q);
  }

  lemma PrefixValue()
    ensures Value(V4_PREFIX) == 0xFFFF
  {
    ValueOfZeros(10);
    var zeros := seq(10, _ => 0);
    assert V4_PREFIX == zeros + [255, 255];
    assert (zeros + [255, 255])[..11] == zeros + [255] && (zeros + [255])[..10] == zeros;
  }

  lemma {:induction false} ValueOfZeros(n: nat)
    ensures Value(seq(n, _ => 0)) == 0
  {
    if n > 0 {
      ValueOfZeros(n - 1);
      assert seq(n, _ => 0)[..n - 1] == seq(n - 1, _ => 0);
    }
  }

  lemma ValueConcat(p: seq<Byte>, q: Quad)
    ensures Value(p + q) == Value(p) * TWO_32 + Value(q)
  {
    var a: int, b: int, c: int, d: int := q[0], q[1], q[2], q[3];
    var s1, s2, s3 := p + [a], p + [a, b], p + [a, b, c];
    var v := Value(p);
    assert s1[..|p|] == p && s2[..|p| + 1] == s1 && s3[..|p| + 2] == s2 && (p + q)[..|p| + 3] == s3;
    assert Value(s1) == v * 256 + a;
    assert Value(s2) == (v * 256 + a) * 256 + b;
    assert Value(s3) == ((v * 256 + a) * 256 + b) * 256 + c;
    assert Value(p + q) == (((v * 256 + a) * 256 + b) * 256 + c) * 256 + d;
    QuadValue(q);
  }
}
