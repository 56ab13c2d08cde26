/**
  CountIPsInRange: the size of a range, computed in 32-bit arithmetic per element and summed in 64 bits.
 */
module Counting {
  import opened Text
  import opened Address
  import opened Ranges

  const TWO_64: int := 0x1_0000_0000_0000_0000

  /** How many addresses the element denotes. */
  function Size(e: Element): (n: nat)
    requires Countable(e)
    ensures 1 <= n <= TWO_32
  {
    Hi32(e) - Lo32(e) + 1
  }

  /** uint32 arithmetic: end - start + 1. */
  function Size32(e: Element): (n: nat)
    requires Countable(e)
    ensures n < TWO_32
  {
    Size(e) % TWO_32
  }

  /** The one element whose size does not fit in 32 bits: 0.0.0.0 to 255.255.255.255. */
  predicate Full(e: Element)
    requires Countable(e)
  {
    Lo32(e) == 0 && Hi32(e) == TWO_32 - 1
  }

  function SumSize(es: seq<Element>): nat
    requires AllCountable(es)
  {
    if es == [] then 0 else Size(es[0]) + SumSize(es[1..])
  }

  function SumSize32(es: seq<Element>): nat
    requires AllCountable(es)
  {
    if es == [] then 0 else SumSize32(es[..|es| - 1]) + Size32(es[|es| - 1])
  }

  function FullCount(es: seq<Element>): nat
    requires AllCountable(es)
  {
    if es == [] then 0 else (if Full(es[0]) then 1 else 0) + FullCount(es[1..])
  }

  /** The 32-bit arithmetic on the two ends of a part. */
  method CountSpan(start: IP, end: IP) returns (r: Option<nat>)
    ensures r.Some? <==> Countable(Span(start, end))
    ensures r.Some? ==> r.value == Size32(Span(start, end))
  {
    var start4, end4 := To4(start), To4(end);
    if start4.None? || end4.None? {
      return None;
    }
    if Compare(start4.value, end4.value) > 0 {
      return None;
    }
    QuadOrder(start4.value, end4.value);
    return Some((ToUint32(end4.value) - ToUint32(start4.value) + 1) % TWO_32);
  }

  /** The body of the loop: what one part adds. */
  method CountPart(p: Parser, part: string) returns (r: Option<nat>)
    ensures r.Some? <==> Countable(ParseElement(p, part))
    ensures r.Some? ==> r.value == Size32(ParseElement(p, part))
  {
    TrimKeepsElement(p, part);
    TrimIdempotent(part);
    var r' := Trim(part);
    if '-' in r' {
      var parts := Split(r', '-');
      if |parts| != 2 {
        return None;
      }
      var start, end := p(Trim(parts[0])), p(Trim(parts[1]));
      if start.None? || end.None? {
        return None;
      }
      r := CountSpan(start.value, end.value);
    } else {
      var ip := p(Trim(r'));
      if ip.None? || To4(ip.value).None? {
        return None;
      }
      return Some(1);
    }
  }

  /** The uint64 that CountIPsInRange returns. */
  function Count64(es: seq<Element>): nat
    requires AllCountable(es)
  {
    SumSize32(es) % TWO_64
  }

  /** uint64 addition. */
  function Add64(a: nat, b: nat): nat
  {
    (a + b) % TWO_64
  }

  lemma SmallMod64(x: nat)
    requires x < TWO_64
    ensures x % TWO_64 == x
  {
  }

  lemma AddMod64(x: nat, y: nat)
    ensures (x % TWO_64 + y) % TWO_64 == (x + y) % TWO_64
  {
  }

  lemma SumSnoc(es: seq<Element>, k: nat)
    requires k < |es| && AllCountable(es[..k]) && Countable(es[k])
    ensures AllCountable(es[..k + 1])
    ensures SumSize32(es[..k + 1]) == SumSize32(es[..k]) + Size32(es[k])
  {
    assert es[..k + 1][..k] == es[..k];
    assert es[..k + 1][k] == es[k];
  }

  lemma Count64Snoc(es: seq<Element>, k: nat)
    requires k < |es| && AllCountable(es[..k]) && Countable(es[k])
    ensures AllCountable(es[..k + 1])
    ensures Count64(es[..k + 1]) == Add64(Count64(es[..k]), Size32(es[k]))
  {
    SumSnoc(es, k);
    AddMod64(SumSize32(es[..k]), Size32(es[k]));
  }

  /** What the loop has counted: the first k parts. */
  predicate CountedSoFar(es: seq<Element>, k: nat, total: nat)
    requires k <= |es|
  {
    AllCountable(es[..k]) && total == Count64(es[..k])
  }

  lemma CountedStep(es: seq<Element>, k: nat, total: nat)
    requires k < |es| && CountedSoFar(es, k, total) && Countable(es[k])
    ensures CountedSoFar(es, k + 1, Add64(total, Size32(es[k])))
  {
    Count64Snoc(es, k);
  }

  lemma CountedAll(es: seq<Element>, total: nat)
    requires CountedSoFar(es, |es|, total)
    ensures AllCountable(es) && total == Count64(es)
  {
    assert es[..|es|] == es;
  }

  lemma NothingCounted(es: seq<Element>)
    ensures CountedSoFar(es, 0, 0)
  {
    assert es[..0] == [];
  }

  /** What one more part does to the count. */
  lemma CountedNext(p: Parser, ranges: seq<string>, k: nat, total: nat, add: Option<nat>)
    requires k < |ranges| && CountedSoFar(ParseAll(p, ranges), k, total)
    requires add.Some? <==> Countable(ParseElement(p, ranges[k]))
    requires add.Some? ==> add.value == Size32(ParseElement(p, ranges[k]))
    ensures add.None? ==> !AllCountable(ParseAll(p, ranges))
    ensures add.Some? ==> CountedSoFar(ParseAll(p, ranges), k + 1, Add64(total, add.value))
  {
    var es := ParseAll(p, ranges);
    assert es[k] == ParseElement(p, ranges[k]);
    if add.Some? {
      CountedStep(es, k, total);
    }
  }

  /** The loop over the parts. */
  method CountParts(p: Parser, ranges: seq<string>) returns (r: Option<nat>)
    ensures r.Some? <==> AllCountable(ParseAll(p, ranges))
    ensures r.Some? ==> r.value == Count64(ParseAll(p, ranges))
  {
    var total: nat := 0;
    NothingCounted(ParseAll(p, ranges));
    for k := 0 to |ranges|
      invariant CountedSoFar(ParseAll(p, ranges), k, total)
    {
      var add := CountPart(p, ranges[k]);
      CountedNext(p, ranges, k, total, add);
      if add.None? {
        return None;
      }
      total := Add64(total, add.value);
    }
    CountedAll(ParseAll(p, ranges), total);
    return Some(total);
  }

  /** Fails exactly on a text with an element that is malformed, not IPv4 or out of order; otherwise the sum of the 32-bit sizes, in uint64. */
  method CountIPsInRange(p: Parser, ipRange: string) returns (r: Option<nat>)
    ensures r.Some? <==> AllCountable(Elements(p, ipRange))
    ensures r.Some? ==> r.value == Count64(Elements(p, ipRange))
  {
    r := CountParts(p, Split(ipRange, ','));
  }

  lemma {:induction false} SumSize32Cons(es: seq<Element>)
    requires AllCountable(es) && es != []
    ensures AllCountable(es[1..])
    ensures SumSize32(es) == Size32(es[0]) + SumSize32(es[1..])
  {
    var n := |es| - 1;
    if n > 0 {
      SumSize32Cons(es[..n]);
      assert es[..n][1..] == es[1..][..n - 1];
    }
  }

  /** Only a full element loses its size, and then all of it. */
  lemma SizeLost(e: Element)
    requires Countable(e)
    ensures Size32(e) + (if Full(e) then TWO_32 else 0) == Size(e)
  {
    SizeMod(Size(e));
  }

  lemma SizeMod(n: nat)
    requires n <= TWO_32
    ensures n % TWO_32 == if n == TWO_32 then 0 else n
  {
  }

  /** Each full element is counted as nothing, every other element exactly. */
  lemma {:induction false} CountMissesFullElements(es: seq<Element>)
    requires AllCountable(es)
    ensures SumSize32(es) + TWO_32 * FullCount(es) == SumSize(es)
  {
    if es != [] {
      SumSize32Cons(es);
      CountMissesFullElements(es[1..]);
      SizeLost(es[0]);
    }
  }

  /** Below 2^32 elements the 64-bit total cannot wrap. */
  lemma {:induction false} NoWrap64(es: seq<Element>)
    requires AllCountable(es)
    ensures SumSize32(es) <= |es| * (TWO_32 - 1)
    ensures |es| <= TWO_32 ==> SumSize32(es) < TWO_64
  {
    if es != [] {
      NoWrap64(es[..|es| - 1]);
    }
  }

  // ---- distinct addresses ----

  function Interval(lo: int, hi: int): (s: set<int>)
    requires lo <= hi + 1
    ensures forall n :: n in s <==> lo <= n <= hi
    ensures |s| == hi - lo + 1
    decreases hi - lo + 1
  {
    if lo == hi + 1 then {} else Interval(lo, hi - 1) + {hi}
  }

  function ElementSet(e: Element): set<int>
    requires Countable(e)
  {
    Interval(Lo32(e), Hi32(e))
  }

  /** The distinct IPv4 addresses of a range, as numbers. */
  function Addresses(es: seq<Element>): set<int>
    requires AllCountable(es)
  {
    if es == [] then {} else ElementSet(es[0]) + Addresses(es[1..])
  }

  lemma {:induction false} AddressesAre(es: seq<Element>, n: int)
    requires AllCountable(es)
    ensures n in Addresses(es) <==> exists i :: 0 <= i < |es| && n in ElementSet(es[i])
  {
    if es != [] {
      AddressesAre(es[1..], n);
      if i :| 0 <= i < |es| && n in ElementSet(es[i]) {
        if i > 0 {
          assert es[1..][i - 1] == es[i];
        }
      }
      if j :| 0 <= j < |es[1..]| && n in ElementSet(es[1..][j]) {
        assert es[j + 1] == es[1..][j];
      }
    }
  }

  /** The numbers are those of the addresses that the membership test accepts. */
  lemma AddressesDenoted(es: seq<Element>, ip: IP)
    requires AllCountable(es) && IsV4(ip)
    ensures DenotedBy(es, ip) <==> ToUint32(To4(ip).value) in Addresses(es)
  {
    var n := ToUint32(To4(ip).value);
    AddressesAre(es, n);
    forall i | 0 <= i < |es|
      ensures Denotes(es[i], ip) <==> n in ElementSet(es[i])
    {
      DenotesIsBetween32(es[i], ip);
    }
  }

  predicate Disjoint(es: seq<Element>)
    requires AllCountable(es)
  {
    forall i, j :: 0 <= i < j < |es| ==> ElementSet(es[i]) !! ElementSet(es[j])
  }

  lemma DisjointTail(es: seq<Element>)
    requires AllCountable(es) && es != [] && Disjoint(es)
    ensures AllCountable(es[1..])
    ensures Disjoint(es[1..]) && ElementSet(es[0]) !! Addresses(es[1..])
  {
    var tail := es[1..];
    forall i, j | 0 <= i < j < |tail|
      ensures ElementSet(tail[i]) !! ElementSet(tail[j])
    {
      assert tail[i] == es[i + 1] && tail[j] == es[j + 1];
    }
    forall n | n in Addresses(tail)
      ensures n !in ElementSet(es[0])
    {
      AddressesAre(tail, n);
      var i :| 0 <= i < |tail| && n in ElementSet(tail[i]);
      assert tail[i] == es[i + 1];
      assert ElementSet(es[0]) !! ElementSet(es[i + 1]);
    }
  }

  lemma DisjointWhole(es: seq<Element>)
    requires AllCountable(es) && es != []
    requires AllCountable(es[1..]) && Disjoint(es[1..]) && ElementSet(es[0]) !! Addresses(es[1..])
    ensures Disjoint(es)
  {
    var tail := es[1..];
    forall i, j | 0 <= i < j < |es|
      ensures ElementSet(es[i]) !! ElementSet(es[j])
    {
      assert es[j] == tail[j - 1];
      if i == 0 {
        forall n | n in ElementSet(es[j])
          ensures n in Addresses(tail)
        {
          AddressesAre(tail, n);
        }
      } else {
        assert es[i] == tail[i - 1];
        assert ElementSet(tail[i - 1]) !! ElementSet(tail[j - 1]);
      }
    }
  }

  lemma DisjointCons(es: seq<Element>)
    requires AllCountable(es) && es != []
    ensures AllCountable(es[1..])
    ensures Disjoint(es) <==> Disjoint(es[1..]) && ElementSet(es[0]) !! Addresses(es[1..])
  {
    if Disjoint(es) {
      DisjointTail(es);
    } else if Disjoint(es[1..]) && ElementSet(es[0]) !! Addresses(es[1..]) {
      DisjointWhole(es);
    }
  }

  lemma UnionSize<T>(a: set<T>, b: set<T>)
    ensures |a + b| <= |a| + |b|
    ensures |a + b| == |a| + |b| <==> a !! b
  {
    assert |a + b| == |a| + |b| - |a * b|;
    var common := a * b;
    if |common| == 0 {
      forall n | n in a
        ensures n !in b
      {
        assert n !in common;
      }
    } else {
      var n :| n in common;
      assert n in a && n in b;
    }
  }

  /** The sum of sizes bounds the distinct addresses, and is their number exactly when no two elements overlap. */
  lemma {:induction false} SumBoundsDistinct(es: seq<Element>)
    requires AllCountable(es)
    ensures |Addresses(es)| <= SumSize(es)
    ensures |Addresses(es)| == SumSize(es) <==> Disjoint(es)
  {
    if es != [] {
      SumBoundsDistinct(es[1..]);
      DisjointCons(es);
      UnionSize(ElementSet(es[0]), Addresses(es[1..]));
    }
  }

  lemma Count64Is(es: seq<Element>)
    requires AllCountable(es) && |es| <= TWO_32
    ensures Count64(es) + TWO_32 * FullCount(es) == SumSize(es)
  {
    CountMissesFullElements(es);
    NoWrap64(es);
    SmallMod64(SumSize32(es));
  }

  /** The count is the true size exactly when no element is full; then it is at least the number of distinct addresses, and equal to it exactly when the elements are disjoint. */
  lemma CountIsExact(es: seq<Element>)
    requires AllCountable(es) && |es| <= TWO_32
    ensures Count64(es) == SumSize(es) <==> FullCount(es) == 0
    ensures FullCount(es) == 0 ==> |Addresses(es)| <= Count64(es)
    ensures FullCount(es) == 0 ==> (|Addresses(es)| == Count64(es) <==> Disjoint(es))
  {
    Count64Is(es);
    SumBoundsDistinct(es);
  }

  // ---- accepted ranges ----

  lemma FloorOf255(ones: nat)
    requires Floor(255, Unit(ones)) == 0
    ensures ones == 0
  {
    FloorBounds(255, Unit(ones));
  }

  /** A full element is accepted in the network of prefix length zero only. */
  lemma FullNeedsEveryAddress(e: Element, net: IPNet)
    requires EndsWithin(e, net) && Countable(e) && Full(e)
    ensures net.ones == 0
  {
    var lo, hi := To4(Low(e)).value, To4(High(e)).value;
    Corners(lo, hi);
    assert Mask(lo, net.ones) == Mask(hi, net.ones);
    assert Mask(lo, net.ones)[0] == MaskByte(0, net.ones) && Mask(hi, net.ones)[0] == MaskByte(255, net.ones);
    FloorBounds(0, Unit(net.ones));
    FloorOf255(net.ones);
  }

  lemma Corners(lo: Quad, hi: Quad)
    requires ToUint32(lo) == 0 && ToUint32(hi) == TWO_32 - 1
    ensures lo[0] == 0 && hi[0] == 255
  {
  }

  /** So in any network but 0.0.0.0/0 the count of an accepted range is its true size, and counts each distinct address at least once. */
  lemma AcceptedCountIsExact(p: Parser, ipRange: string, net: IPNet)
    requires Accepted(p, ipRange, net) && net.ones > 0 && |Elements(p, ipRange)| <= TWO_32
    ensures AllCountable(Elements(p, ipRange))
    ensures FullCount(Elements(p, ipRange)) == 0
    ensures Count64(Elements(p, ipRange)) == SumSize(Elements(p, ipRange)) >= |Addresses(Elements(p, ipRange))|
  {
    AcceptedAreCountable(p, ipRange, net);
    NoFullAccepted(Elements(p, ipRange), net);
    CountIsExact(Elements(p, ipRange));
  }

  /** A range of one element: its true size, and what is counted for it. */
  lemma OneElementCounts(e: Element)
    requires Countable(e)
    ensures AllCountable([e]) && SumSize([e]) == Size(e) && Count64([e]) == Size32(e)
  {
    assert [e][1..] == [] && [e][..0] == [];
    assert SumSize32([e]) == SumSize32([]) + Size32(e);
    SmallMod64(Size32(e));
  }

  lemma FullSize(e: Element)
    requires Countable(e) && Full(e)
    ensures Size(e) == TWO_32 && Size32(e) == 0
  {
  }

  lemma FullTextCounts(p: Parser, ipRange: string, e: Element)
    requires Elements(p, ipRange) == [e] && Countable(e) && Full(e)
    ensures AllCountable(Elements(p, ipRange))
    ensures SumSize(Elements(p, ipRange)) == TWO_32 && Count64(Elements(p, ipRange)) == 0
  {
    FullSize(e);
    OneElementCounts(e);
  }

  /** The text 0.0.0.0-255.255.255.255, however its ends are spelled, is accepted in the network that holds them, denotes 2^32 addresses and counts none. */
  lemma FullRangeCountsNothing(p: Parser, s: string, t: string, net: IPNet, lo: IP, hi: IP)
    requires IsV4(lo) && ToUint32(To4(lo).value) == 0 && IsV4(hi) && ToUint32(To4(hi).value) == TWO_32 - 1
    requires EndText(s) && EndText(t) && p(s) == Some(lo) && p(t) == Some(hi)
    requires Contains(net, lo) && Contains(net, hi)
    ensures var ipRange := s + ['-'] + t;
            && Accepted(p, ipRange, net) && AllCountable(Elements(p, ipRange))
            && SumSize(Elements(p, ipRange)) == TWO_32 && Count64(Elements(p, ipRange)) == 0
  {
    var e := Span(lo, hi);
    DashedPair(p, s, t);
    QuadOrder(To4(lo).value, To4(hi).value);
    InOrder(e);
    FullTextCounts(p, s + ['-'] + t, e);
  }

  lemma {:induction false} NoFullAccepted(es: seq<Element>, net: IPNet)
    requires AllEndsWithin(es, net) && net.ones > 0 && AllCountable(es)
    ensures FullCount(es) == 0
  {
    if es != [] {
      NoFullAccepted(es[1..], net);
      assert EndsWithin(es[0], net);
      if Full(es[0]) {
        FullNeedsEveryAddress(es[0], net);
      }
    }
  }
}
