/**
  Address ranges: the comma-separated text of Spec.IPv4Subnet.IPRange as pkg/tools reads it.
  net.ParseIP is library code, so every function takes the parser it uses; nothing below asks
  more of it than that it returns 16-byte addresses.
 */
module Ranges {
  import opened Text
  import opened Address

  type Parser = string -> Option<IP>

  // ---- the text and what it denotes ----

  datatype Element = Span(lo: IP, hi: IP) | Single(ip: IP) | Malformed

  /** One comma-separated part. */
  function ParseElement(p: Parser, r: string): Element
  {
    if '-' in r then
      var parts := Split(r, '-');
      if |parts| != 2 then Malformed
      else match (p(Trim(parts[0])), p(Trim(parts[1])))
           case (Some(lo), Some(hi)) => Span(lo, hi)
           case _ => Malformed
    else match p(Trim(r))
         case Some(ip) => Single(ip)
         case None => Malformed
  }

  function ParseAll(p: Parser, parts: seq<string>): (es: seq<Element>)
    ensures |es| == |parts|
    ensures forall i :: 0 <= i < |parts| ==> es[i] == ParseElement(p, parts[i])
  {
    seq(|parts|, i requires 0 <= i < |parts| => ParseElement(p, parts[i]))
  }

  function Elements(p: Parser, ipRange: string): seq<Element>
  {
    ParseAll(p, Split(ipRange, ','))
  }

  /** The address belongs to the element. */
  predicate Denotes(e: Element, ip: IP)
  {
    match e
    case Span(lo, hi) => Compare(lo, ip) <= 0 && Compare(ip, hi) <= 0
    case Single(x) => ip == x
    case Malformed => false
  }

  predicate DenotedBy(es: seq<Element>, ip: IP)
  {
    exists i :: 0 <= i < |es| && Denotes(es[i], ip)
  }

  /** The address belongs to the range text. */
  predicate InRange(p: Parser, ipRange: string, ip: IP)
  {
    DenotedBy(Elements(p, ipRange), ip)
  }

  /** Some functions trim a part before they look for '-', others do not: they read the same element. */
  lemma TrimKeepsElement(p: Parser, r: string)
    ensures ParseElement(p, Trim(r)) == ParseElement(p, r)
  {
    TrimKeepsParts(r, '-');
    SplitCount(r, '-');
    SplitCount(Trim(r), '-');
    TrimIdempotent(r);
    var a, b := Split(Trim(r), '-'), Split(r, '-');
    assert |a| == |TrimAll(a)| == |TrimAll(b)| == |b|;
    if |a| == 2 {
      assert Trim(a[0]) == TrimAll(a)[0] == TrimAll(b)[0] == Trim(b[0]);
      assert Trim(a[1]) == TrimAll(a)[1] == TrimAll(b)[1] == Trim(b[1]);
    }
  }

  // ---- IsIPInRange ----

  /** IsIPInRange: decides membership; malformed elements are skipped. */
  method IsIPInRange(p: Parser, ip: IP, ipRange: string) returns (found: bool)
    ensures found <==> InRange(p, ipRange, ip)
  {
    var ranges := Split(ipRange, ',');
    ghost var es := Elements(p, ipRange);
    for k := 0 to |ranges|
      invariant forall j :: 0 <= j < k ==> !Denotes(es[j], ip)
    {
      TrimKeepsElement(p, ranges[k]);
      var r := Trim(ranges[k]);
      if '-' in r {
        var startEnd := Split(r, '-');
        if |startEnd| != 2 {
          continue;
        }
        var start, end := p(Trim(startEnd[0])), p(Trim(startEnd[1]));
        if start.None? || end.None? {
          continue;
        }
        if Compare(start.value, ip) <= 0 && Compare(ip, end.value) <= 0 {
          assert Denotes(es[k], ip);
          return true;
        }
      } else {
        TrimIdempotent(ranges[k]);
        var rangeIP := p(r);
        if rangeIP.None? {
          continue;
        }
        if ip == rangeIP.value {
          assert Denotes(es[k], ip);
          return true;
        }
      }
    }
    return false;
  }

  // ---- ValidateIPRange ----

  /** What ValidateIPRange asks of one element: its end points lie in the network, in order. */
  predicate EndsWithin(e: Element, net: IPNet)
    ensures EndsWithin(e, net) ==> WellFormed(e)
  {
    match e
    case Span(lo, hi) => Contains(net, lo) && Contains(net, hi) && Compare(lo, hi) <= 0
    case Single(ip) => Contains(net, ip)
    case Malformed => false
  }

  predicate AllEndsWithin(es: seq<Element>, net: IPNet)
  {
    forall i :: 0 <= i < |es| ==> EndsWithin(es[i], net)
  }

  predicate Accepted(p: Parser, ipRange: string, net: IPNet)
  {
    AllEndsWithin(Elements(p, ipRange), net)
  }

  method ValidateIPRange(p: Parser, ipRange: string, net: IPNet) returns (ok: bool)
    ensures ok <==> Accepted(p, ipRange, net)
  {
    var ranges := Split(ipRange, ',');
    ghost var es := Elements(p, ipRange);
    for k := 0 to |ranges|
      invariant forall j :: 0 <= j < k ==> EndsWithin(es[j], net)
    {
      var r := ranges[k];
      assert es[k] == ParseElement(p, r);
      if '-' in r {
        var startEnd := Split(r, '-');
        if |startEnd| != 2 {
          return false;
        }
        var start, end := p(Trim(startEnd[0])), p(Trim(startEnd[1]));
        if start.None? || end.None? {
          return false;
        }
        if !Contains(net, start.value) || !Contains(net, end.value) || Compare(start.value, end.value) > 0 {
          return false;
        }
      } else {
        var ip := p(Trim(r));
        if ip.None? || !Contains(net, ip.value) {
          return false;
        }
      }
    }
    return true;
  }

  /** Well formed: a single address, or a start that does not exceed its end. */
  predicate WellFormed(e: Element)
  {
    match e
    case Span(lo, hi) => Compare(lo, hi) <= 0
    case Single(_) => true
    case Malformed => false
  }

  function Low(e: Element): IP
    requires !e.Malformed?
  {
    match e
    case Span(lo, _) => lo
    case Single(ip) => ip
  }

  function High(e: Element): IP
    requires !e.Malformed?
  {
    match e
    case Span(_, hi) => hi
    case Single(ip) => ip
  }

  lemma CompareSelf(a: seq<Byte>)
    ensures Compare(a, a) == 0
  {
    CompareIsNumeric(a, a);
  }

  /** Checking the end points checks everything: the element is accepted exactly when it is well formed and all it denotes is in the network. */
  lemma EndPointsSuffice(e: Element, net: IPNet)
    ensures EndsWithin(e, net) <==> WellFormed(e) && forall ip: IP :: Denotes(e, ip) ==> Contains(net, ip)
  {
    if EndsWithin(e, net) {
      forall ip: IP | Denotes(e, ip)
        ensures Contains(net, ip)
      {
        if e.Span? {
          BlockIsConvex(net, e.lo, ip, e.hi);
        }
      }
    } else if WellFormed(e) {
      CompareSelf(Low(e));
      CompareSelf(High(e));
      assert Denotes(e, Low(e)) && Denotes(e, High(e));
    }
  }

  /** ValidateIPRange accepts exactly the well-formed texts whose every address is in the network. */
  lemma AcceptedMeansInside(p: Parser, ipRange: string, net: IPNet)
    ensures Accepted(p, ipRange, net) <==>
            && (forall i :: 0 <= i < |Elements(p, ipRange)| ==> WellFormed(Elements(p, ipRange)[i]))
            && (forall ip: IP :: InRange(p, ipRange, ip) ==> Contains(net, ip))
  {
    var es := Elements(p, ipRange);
    forall i | 0 <= i < |es|
      ensures EndsWithin(es[i], net) <==> WellFormed(es[i]) && forall ip: IP :: Denotes(es[i], ip) ==> Contains(net, ip)
    {
      EndPointsSuffice(es[i], net);
    }
    assert forall i, ip: IP :: 0 <= i < |es| && Denotes(es[i], ip) ==> InRange(p, ipRange, ip);
  }

  // ---- ValidateIPRangeExpansion ----

  /** The comparison of the inner loop: f reaches at least as far as e on both sides. */
  predicate Reaches(f: Element, e: Element)
  {
    && !f.Malformed? && !e.Malformed?
    && Compare(Low(f), Low(e)) <= 0 && Compare(High(f), High(e)) >= 0
  }

  predicate Reached(e: Element, fs: seq<Element>)
  {
    exists j :: 0 <= j < |fs| && Reaches(fs[j], e)
  }

  predicate AllReached(es: seq<Element>, fs: seq<Element>)
  {
    forall i :: 0 <= i < |es| ==> Reached(es[i], fs)
  }

  predicate Expands(p: Parser, oldRange: string, newRange: string, net: IPNet)
  {
    && Accepted(p, oldRange, net)
    && Accepted(p, newRange, net)
    && AllReached(Elements(p, oldRange), Elements(p, newRange))
  }

  /** The end points of a part, read as the two loops of ValidateIPRangeExpansion read them. */
  method EndPoints(p: Parser, part: string) returns (start: IP, end: IP)
    requires !ParseElement(p, part).Malformed?
    ensures start == Low(ParseElement(p, part)) && end == High(ParseElement(p, part))
  {
    TrimKeepsElement(p, part);
    TrimIdempotent(part);
    var r := Trim(part);
    if '-' in r {
      var parts := Split(r, '-');
      start, end := p(Trim(parts[0])).value, p(Trim(parts[1])).value;
    } else {
      start := p(r).value;
      end := start;
    }
  }

  predicate NoneMalformed(es: seq<Element>)
  {
    forall i :: 0 <= i < |es| ==> !es[i].Malformed?
  }

  /** The inner loop: does one new part reach over start-end? */
  method IsCovered(p: Parser, start: IP, end: IP, newRanges: seq<string>) returns (covered: bool)
    requires NoneMalformed(ParseAll(p, newRanges))
    ensures covered <==> Reached(Span(start, end), ParseAll(p, newRanges))
  {
    ghost var fs := ParseAll(p, newRanges);
    for j := 0 to |newRanges|
      invariant forall k :: 0 <= k < j ==> !Reaches(fs[k], Span(start, end))
    {
      assert fs[j] == ParseElement(p, newRanges[j]);
      var newStart, newEnd := EndPoints(p, newRanges[j]);
      if Compare(newStart, start) <= 0 && Compare(newEnd, end) >= 0 {
        assert Reaches(fs[j], Span(start, end));
        return true;
      }
    }
    return false;
  }

  /** The body of the outer loop: is the old part reached by one new part? */
  method IsPartCovered(p: Parser, part: string, newRanges: seq<string>) returns (covered: bool)
    requires !ParseElement(p, part).Malformed?
    requires NoneMalformed(ParseAll(p, newRanges))
    ensures covered <==> Reached(ParseElement(p, part), ParseAll(p, newRanges))
  {
    var start, end := EndPoints(p, part);
    covered := IsCovered(p, start, end, newRanges);
    ReachedByEnds(ParseElement(p, part), ParseAll(p, newRanges));
  }

  /** The outer loop: is every old part reached by one new part? */
  method AllCovered(p: Parser, oldRanges: seq<string>, newRanges: seq<string>) returns (ok: bool)
    requires NoneMalformed(ParseAll(p, oldRanges))
    requires NoneMalformed(ParseAll(p, newRanges))
    ensures ok <==> AllReached(ParseAll(p, oldRanges), ParseAll(p, newRanges))
  {
    ghost var es, fs := ParseAll(p, oldRanges), ParseAll(p, newRanges);
    for i := 0 to |oldRanges|
      invariant forall k :: 0 <= k < i ==> Reached(es[k], fs)
    {
      assert es[i] == ParseElement(p, oldRanges[i]);
      var covered := IsPartCovered(p, oldRanges[i], newRanges);
      if !covered {
        return false;
      }
    }
    return true;
  }

  method ValidateIPRangeExpansion(p: Parser, oldIPRange: string, newIPRange: string, net: IPNet) returns (ok: bool)
    ensures ok <==> Expands(p, oldIPRange, newIPRange, net)
  {
    ok := ValidateIPRange(p, oldIPRange, net);
    if !ok {
      return;
    }
    ok := ValidateIPRange(p, newIPRange, net);
    if !ok {
      return;
    }
    WellFormedParts(Elements(p, oldIPRange), net);
    WellFormedParts(Elements(p, newIPRange), net);
    ok := AllCovered(p, Split(oldIPRange, ','), Split(newIPRange, ','));
  }

  lemma WellFormedParts(es: seq<Element>, net: IPNet)
    requires AllEndsWithin(es, net)
    ensures NoneMalformed(es)
  {
    forall i | 0 <= i < |es|
      ensures !es[i].Malformed?
    {
      assert EndsWithin(es[i], net);
    }
  }

  lemma ReachedByEnds(e: Element, fs: seq<Element>)
    requires !e.Malformed?
    ensures Reached(e, fs) <==> Reached(Span(Low(e), High(e)), fs)
  {
    assert forall j :: 0 <= j < |fs| ==> Reaches(fs[j], e) == Reaches(fs[j], Span(Low(e), High(e)));
  }

  /** On well-formed elements membership is numeric betweenness. */
  lemma DenotesIsBetween(e: Element, ip: IP)
    requires !e.Malformed?
    ensures Denotes(e, ip) <==> Value(Low(e)) <= Value(ip) <= Value(High(e))
  {
    CompareIsNumeric(Low(e), ip);
    CompareIsNumeric(ip, High(e));
  }

  /** The comparison of end points is inclusion of what the elements denote. */
  lemma ReachesIsInclusion(f: Element, e: Element)
    requires WellFormed(f) && WellFormed(e)
    ensures Reaches(f, e) <==> forall ip: IP :: Denotes(e, ip) ==> Denotes(f, ip)
  {
    CompareIsNumeric(Low(f), Low(e));
    CompareIsNumeric(High(f), High(e));
    CompareIsNumeric(Low(e), High(e));
    if Reaches(f, e) {
      forall ip: IP | Denotes(e, ip)
        ensures Denotes(f, ip)
      {
        DenotesIsBetween(e, ip);
        DenotesIsBetween(f, ip);
      }
    } else {
      DenotesIsBetween(e, Low(e));
      DenotesIsBetween(e, High(e));
      DenotesIsBetween(f, Low(e));
      DenotesIsBetween(f, High(e));
    }
  }

  /** Every address of the old text is an address of the new one. */
  ghost predicate Keeps(p: Parser, oldRange: string, newRange: string)
  {
    forall ip: IP :: InRange(p, oldRange, ip) ==> InRange(p, newRange, ip)
  }

  lemma ReachedKeeps(es: seq<Element>, fs: seq<Element>, net: IPNet, ip: IP)
    requires AllEndsWithin(es, net) && AllEndsWithin(fs, net) && AllReached(es, fs)
    requires DenotedBy(es, ip)
    ensures DenotedBy(fs, ip)
  {
    var i :| 0 <= i < |es| && Denotes(es[i], ip);
    assert Reached(es[i], fs);
    var j :| 0 <= j < |fs| && Reaches(fs[j], es[i]);
    assert EndsWithin(es[i], net) && EndsWithin(fs[j], net);
    ReachesIsInclusion(fs[j], es[i]);
  }

  /** An accepted expansion loses no address. */
  lemma ExpansionKeepsAddresses(p: Parser, oldRange: string, newRange: string, net: IPNet)
    requires Expands(p, oldRange, newRange, net)
    ensures Keeps(p, oldRange, newRange)
  {
    forall ip: IP | InRange(p, oldRange, ip)
      ensures InRange(p, newRange, ip)
    {
      ReachedKeeps(Elements(p, oldRange), Elements(p, newRange), net, ip);
    }
  }

  // ---- the 32-bit view of accepted elements ----

  /** Both end points are IPv4 addresses, in order. */
  predicate Countable(e: Element)
  {
    match e
    case Span(lo, hi) => IsV4(lo) && IsV4(hi) && Compare(To4(lo).value, To4(hi).value) <= 0
    case Single(ip) => IsV4(ip)
    case Malformed => false
  }

  predicate AllCountable(es: seq<Element>)
  {
    forall i :: 0 <= i < |es| ==> Countable(es[i])
  }

  function Lo32(e: Element): (n: nat)
    requires Countable(e)
    ensures n < TWO_32
  {
    ToUint32(To4(Low(e)).value)
  }

  function Hi32(e: Element): (n: nat)
    requires Countable(e)
    ensures Lo32(e) <= n < TWO_32
  {
    QuadOrder(To4(Low(e)).value, To4(High(e)).value);
    ToUint32(To4(High(e)).value)
  }

  lemma AcceptedIsCountable(e: Element, net: IPNet)
    requires EndsWithin(e, net)
    ensures Countable(e)
  {
    if e.Span? {
      V4Order(e.lo, e.hi);
      QuadOrder(To4(e.lo).value, To4(e.hi).value);
    }
  }

  /** The IPv4 address with this number. */
  function Addr(n: nat): (ip: IP)
    requires n < TWO_32
    ensures IsV4(ip) && ToUint32(To4(ip).value) == n
  {
    Mapped(FromUint32(n))
  }

  lemma DenotesIsBetween32(e: Element, ip: IP)
    requires Countable(e) && IsV4(ip)
    ensures Denotes(e, ip) <==> Lo32(e) <= ToUint32(To4(ip).value) <= Hi32(e)
  {
    V4Order(Low(e), ip);
    V4Order(ip, High(e));
  }

  lemma DenotesAddr(e: Element, n: nat)
    requires Countable(e) && n < TWO_32
    ensures Denotes(e, Addr(n)) <==> Lo32(e) <= n <= Hi32(e)
  {
    DenotesIsBetween32(e, Addr(n));
  }

  /** What an IPv4 span denotes is IPv4. */
  lemma DenotedIsV4(e: Element, ip: IP)
    requires Countable(e) && Denotes(e, ip)
    ensures IsV4(ip) && Lo32(e) <= ToUint32(To4(ip).value) <= Hi32(e)
  {
    if e.Span? {
      BetweenSharesPrefix(e.lo, ip, e.hi, 12);
    }
    DenotesIsBetween32(e, ip);
  }

  // ---- when the expansion check is exact ----

  /** Everything that e denotes, f denotes. */
  predicate Covers(f: Element, e: Element)
    requires Countable(f) && Countable(e)
  {
    Lo32(f) <= Lo32(e) && Hi32(e) <= Hi32(f)
  }

  /** The two overlap, or one ends where the other begins: together they denote an interval. */
  predicate Touch(e: Element, f: Element)
    requires Countable(e) && Countable(f)
  {
    Lo32(f) <= Hi32(e) + 1 && Lo32(e) <= Hi32(f) + 1
  }

  predicate CoveredTogether(e: Element, f: Element, fs: seq<Element>)
    requires AllCountable(fs) && Countable(e) && Countable(f)
  {
    exists k :: 0 <= k < |fs| && Covers(fs[k], e) && Covers(fs[k], f)
  }

  /** Whenever two elements touch, one element covers both: no interval is cut into pieces. */
  predicate Closed(fs: seq<Element>)
    requires AllCountable(fs)
  {
    forall i, j :: 0 <= i < |fs| && 0 <= j < |fs| && Touch(fs[i], fs[j]) ==> CoveredTogether(fs[i], fs[j], fs)
  }

  lemma ReachesIsCovers(f: Element, e: Element)
    requires Countable(f) && Countable(e)
    ensures Reaches(f, e) <==> Covers(f, e)
  {
    V4Order(Low(f), Low(e));
    V4Order(High(e), High(f));
    CompareIsNumeric(High(e), High(f));
    CompareIsNumeric(High(f), High(e));
  }

  /** The element of a union that holds an address. */
  lemma Holder(fs: seq<Element>, n: nat) returns (j: nat)
    requires AllCountable(fs) && n < TWO_32 && DenotedBy(fs, Addr(n))
    ensures j < |fs| && Lo32(fs[j]) <= n <= Hi32(fs[j])
  {
    j :| 0 <= j < |fs| && Denotes(fs[j], Addr(n));
    DenotesAddr(fs[j], n);
  }

  /** The union denotes everything that the element denotes. */
  ghost predicate Within(e: Element, fs: seq<Element>)
  {
    forall ip: IP :: Denotes(e, ip) ==> DenotedBy(fs, ip)
  }

  ghost predicate AllWithin(es: seq<Element>, fs: seq<Element>)
  {
    forall ip: IP :: DenotedBy(es, ip) ==> DenotedBy(fs, ip)
  }

  /** In a closed union an element that holds the start of an interval can be exchanged for one that reaches further, until it holds the end. */
  lemma {:induction false} IntervalInOne(e: Element, fs: seq<Element>, i: nat) returns (j: nat)
    requires Countable(e) && AllCountable(fs) && Closed(fs) && Within(e, fs)
    requires i < |fs| && Lo32(fs[i]) <= Lo32(e) <= Hi32(fs[i])
    ensures j < |fs| && Covers(fs[j], e)
    decreases TWO_32 - Hi32(fs[i])
  {
    if Hi32(e) <= Hi32(fs[i]) {
      j := i;
    } else {
      var next := Hi32(fs[i]) + 1;
      DenotesAddr(e, next);
      var k := Holder(fs, next);
      assert Touch(fs[i], fs[k]) && CoveredTogether(fs[i], fs[k], fs);
      var m :| 0 <= m < |fs| && Covers(fs[m], fs[i]) && Covers(fs[m], fs[k]);
      j := IntervalInOne(e, fs, m);
    }
  }

  lemma ClosedReaches(e: Element, fs: seq<Element>)
    requires Countable(e) && AllCountable(fs) && Closed(fs) && Within(e, fs)
    ensures Reached(e, fs)
  {
    DenotesAddr(e, Lo32(e));
    var i := Holder(fs, Lo32(e));
    var j := IntervalInOne(e, fs, i);
    ReachesIsCovers(fs[j], e);
  }

  /** From the start of one element to the end of another. */
  lemma SpanOf(a: Element, b: Element) returns (e: Element)
    requires Countable(a) && Countable(b) && Lo32(a) <= Hi32(b)
    ensures e == Span(Low(a), High(b)) && Countable(e) && Lo32(e) == Lo32(a) && Hi32(e) == Hi32(b)
  {
    QuadOrder(To4(Low(a)).value, To4(High(b)).value);
    e := Span(Low(a), High(b));
  }

  lemma JoinedInterval(fs: seq<Element>, i: nat, j: nat, e: Element)
    requires AllCountable(fs) && i < |fs| && j < |fs| && Touch(fs[i], fs[j]) && Countable(e)
    requires Lo32(e) == Lo32(fs[i]) && Hi32(e) == Hi32(fs[j])
    ensures Within(e, fs)
  {
    forall ip: IP | Denotes(e, ip)
      ensures DenotedBy(fs, ip)
    {
      DenotedIsV4(e, ip);
      DenotesIsBetween32(fs[i], ip);
      DenotesIsBetween32(fs[j], ip);
      assert Denotes(fs[i], ip) || Denotes(fs[j], ip);
    }
  }

  lemma CutPair(fs: seq<Element>) returns (i: nat, j: nat)
    requires AllCountable(fs) && !Closed(fs)
    ensures i < |fs| && j < |fs| && Touch(fs[i], fs[j]) && !CoveredTogether(fs[i], fs[j], fs)
    ensures Lo32(fs[i]) <= Lo32(fs[j]) && Hi32(fs[i]) < Hi32(fs[j])
  {
    i, j :| 0 <= i < |fs| && 0 <= j < |fs| && Touch(fs[i], fs[j]) && !CoveredTogether(fs[i], fs[j], fs);
    if Lo32(fs[j]) < Lo32(fs[i]) {
      i, j := j, i;
    }
    if Hi32(fs[j]) <= Hi32(fs[i]) {
      assert Covers(fs[i], fs[i]) && Covers(fs[i], fs[j]);
      assert false;
    }
  }

  /** An element over the joined interval covers both of its parts. */
  lemma NoneOver(fs: seq<Element>, i: nat, j: nat, e: Element)
    requires AllCountable(fs) && i < |fs| && j < |fs| && Countable(e)
    requires Lo32(e) == Lo32(fs[i]) <= Lo32(fs[j]) && Hi32(fs[i]) <= Hi32(fs[j]) == Hi32(e)
    requires !CoveredTogether(fs[i], fs[j], fs)
    ensures !Reached(e, fs)
  {
    forall k | 0 <= k < |fs|
      ensures !Reaches(fs[k], e)
    {
      ReachesIsCovers(fs[k], e);
      assert !Covers(fs[k], fs[i]) || !Covers(fs[k], fs[j]);
    }
  }

  /** Two touching elements that nothing covers together: the interval from the start of one to the end of the other is in the union, yet in no element. */
  lemma CutInterval(fs: seq<Element>) returns (i: nat, j: nat, e: Element)
    requires AllCountable(fs) && !Closed(fs)
    ensures i < |fs| && j < |fs| && e == Span(Low(fs[i]), High(fs[j])) && Countable(e)
    ensures Within(e, fs) && !Reached(e, fs)
  {
    i, j := CutPair(fs);
    e := SpanOf(fs[i], fs[j]);
    JoinedInterval(fs, i, j, e);
    NoneOver(fs, i, j, e);
  }

  lemma ClosedReachesAll(es: seq<Element>, fs: seq<Element>)
    requires AllCountable(fs) && Closed(fs) && AllCountable(es) && AllWithin(es, fs)
    ensures AllReached(es, fs)
  {
    forall i | 0 <= i < |es|
      ensures Reached(es[i], fs)
    {
      forall ip: IP | Denotes(es[i], ip)
        ensures DenotedBy(fs, ip)
      {
        assert DenotedBy(es, ip);
      }
      ClosedReaches(es[i], fs);
    }
  }

  lemma OneElement(e: Element, fs: seq<Element>)
    requires Within(e, fs)
    ensures AllWithin([e], fs) && (AllReached([e], fs) ==> Reached(e, fs))
  {
    assert [e][0] == e;
    forall ip: IP | DenotedBy([e], ip)
      ensures DenotedBy(fs, ip)
    {
      assert Denotes(e, ip);
    }
  }

  /** On elements: reaching over is losing nothing, for every old list, exactly when the new list is closed. */
  lemma ClosedExactly(fs: seq<Element>)
    requires AllCountable(fs)
    ensures Closed(fs) <==> forall es :: AllCountable(es) && AllWithin(es, fs) ==> AllReached(es, fs)
  {
    if Closed(fs) {
      forall es | AllCountable(es) && AllWithin(es, fs)
        ensures AllReached(es, fs)
      {
        ClosedReachesAll(es, fs);
      }
    } else {
      var es := OpenMisses(fs);
    }
  }

  lemma OpenMisses(fs: seq<Element>) returns (es: seq<Element>)
    requires AllCountable(fs) && !Closed(fs)
    ensures AllCountable(es) && AllWithin(es, fs) && !AllReached(es, fs)
  {
    var i, j, e := CutInterval(fs);
    OneElement(e, fs);
    es := [e];
  }

  // ---- the same on texts ----

  /** The texts of a part's end points. */
  function LowText(part: string): string
  {
    if '-' in part then Trim(Split(part, '-')[0]) else Trim(part)
  }

  function HighText(part: string): string
    requires '-' in part ==> |Split(part, '-')| == 2
  {
    if '-' in part then Trim(Split(part, '-')[1]) else Trim(part)
  }

  /** A text that an end point may have: trimmed, without separators. */
  predicate EndText(s: string)
  {
    ',' !in s && '-' !in s && Trim(s) == s
  }

  lemma TrimmedFieldIsEndText(r: string)
    requires ',' !in r && '-' !in r
    ensures EndText(Trim(r))
  {
    TrimFree(r, ',');
    TrimFree(r, '-');
    TrimIdempotent(r);
  }

  lemma {:induction false} SplitPartsAvoid(s: string, sep: char, c: char)
    requires c !in s
    ensures forall i :: 0 <= i < |Split(s, sep)| ==> c !in Split(s, sep)[i]
  {
    if s != "" {
      SplitPartsAvoid(s[1..], sep, c);
    }
  }

  lemma EndTexts(p: Parser, part: string)
    requires ',' !in part && !ParseElement(p, part).Malformed?
    ensures EndText(LowText(part)) && p(LowText(part)) == Some(Low(ParseElement(p, part)))
    ensures EndText(HighText(part)) && p(HighText(part)) == Some(High(ParseElement(p, part)))
  {
    if '-' in part {
      var parts := Split(part, '-');
      SplitPartsAreFree(part, '-');
      SplitPartsAvoid(part, '-', ',');
      TrimmedFieldIsEndText(parts[0]);
      TrimmedFieldIsEndText(parts[1]);
    } else {
      TrimmedFieldIsEndText(part);
    }
  }

  lemma DashedElement(p: Parser, s: string, t: string)
    requires EndText(s) && EndText(t) && p(s).Some? && p(t).Some?
    ensures ParseElement(p, s + ['-'] + t) == Span(p(s).value, p(t).value)
  {
    SplitAtFirst(s, t, '-');
    SplitFree(t, '-');
    assert (s + ['-'] + t)[|s|] == '-';
  }

  lemma DashedPair(p: Parser, s: string, t: string)
    requires EndText(s) && EndText(t) && p(s).Some? && p(t).Some?
    ensures Elements(p, s + ['-'] + t) == [Span(p(s).value, p(t).value)]
  {
    SplitFree(s + ['-'] + t, ',');
    DashedElement(p, s, t);
  }

  /** An element from the start of one new part to the end of another can be written as an old text. */
  lemma CutText(p: Parser, newRange: string, i: nat, j: nat) returns (oldRange: string)
    requires NoneMalformed(Elements(p, newRange)) && i < |Elements(p, newRange)| && j < |Elements(p, newRange)|
    ensures Elements(p, oldRange) == [Span(Low(Elements(p, newRange)[i]), High(Elements(p, newRange)[j]))]
  {
    var parts := Split(newRange, ',');
    SplitPartsAreFree(newRange, ',');
    EndTexts(p, parts[i]);
    EndTexts(p, parts[j]);
    oldRange := LowText(parts[i]) + ['-'] + HighText(parts[j]);
    DashedPair(p, LowText(parts[i]), HighText(parts[j]));
  }

  lemma AcceptedAreCountable(p: Parser, ipRange: string, net: IPNet)
    requires Accepted(p, ipRange, net)
    ensures AllCountable(Elements(p, ipRange))
  {
    var es := Elements(p, ipRange);
    forall i | 0 <= i < |es|
      ensures Countable(es[i])
    {
      AcceptedIsCountable(es[i], net);
    }
  }

  /** The check accepts exactly the changes of this text that lose no address. */
  ghost predicate ExactFrom(p: Parser, oldRange: string, newRange: string, net: IPNet)
  {
    Expands(p, oldRange, newRange, net) <==> Keeps(p, oldRange, newRange)
  }

  lemma KeepsIsWithin(p: Parser, oldRange: string, newRange: string)
    ensures Keeps(p, oldRange, newRange) <==> AllWithin(Elements(p, oldRange), Elements(p, newRange))
  {
    assert forall ip: IP :: InRange(p, oldRange, ip) <==> DenotedBy(Elements(p, oldRange), ip);
    assert forall ip: IP :: InRange(p, newRange, ip) <==> DenotedBy(Elements(p, newRange), ip);
  }

  lemma ClosedIsExact(p: Parser, oldRange: string, newRange: string, net: IPNet)
    requires Accepted(p, oldRange, net) && Accepted(p, newRange, net)
    requires AllCountable(Elements(p, newRange)) && Closed(Elements(p, newRange))
    ensures ExactFrom(p, oldRange, newRange, net)
  {
    var es, fs := Elements(p, oldRange), Elements(p, newRange);
    if Expands(p, oldRange, newRange, net) {
      ExpansionKeepsAddresses(p, oldRange, newRange, net);
    } else if Keeps(p, oldRange, newRange) {
      AcceptedAreCountable(p, oldRange, net);
      KeepsIsWithin(p, oldRange, newRange);
      ClosedReachesAll(es, fs);
    }
  }

  lemma OpenIsInexact(p: Parser, newRange: string, net: IPNet) returns (oldRange: string)
    requires Accepted(p, newRange, net)
    requires AllCountable(Elements(p, newRange)) && !Closed(Elements(p, newRange))
    ensures Accepted(p, oldRange, net) && Keeps(p, oldRange, newRange) && !Expands(p, oldRange, newRange, net)
  {
    var fs := Elements(p, newRange);
    WellFormedParts(fs, net);
    var i, j, e := CutInterval(fs);
    oldRange := CutText(p, newRange, i, j);
    assert EndsWithin(fs[i], net) && EndsWithin(fs[j], net);
    RefusedText(p, oldRange, newRange, e, net);
  }

  lemma InOrder(e: Element)
    requires Countable(e)
    ensures WellFormed(e)
  {
    if e.Span? {
      V4Order(e.lo, e.hi);
      QuadOrder(To4(e.lo).value, To4(e.hi).value);
    }
  }

  /** An old text of one element that the new one denotes but has no element over. */
  lemma RefusedText(p: Parser, oldRange: string, newRange: string, e: Element, net: IPNet)
    requires Elements(p, oldRange) == [e] && e.Span? && Countable(e) && Contains(net, e.lo) && Contains(net, e.hi)
    requires Within(e, Elements(p, newRange)) && !Reached(e, Elements(p, newRange))
    ensures Accepted(p, oldRange, net) && Keeps(p, oldRange, newRange) && !Expands(p, oldRange, newRange, net)
  {
    InOrder(e);
    OneElement(e, Elements(p, newRange));
    KeepsIsWithin(p, oldRange, newRange);
  }

  /** The check is exact for a new text, whatever the old one was, if and only if the new text cuts no interval into pieces. */
  lemma ExpansionExactly(p: Parser, newRange: string, net: IPNet)
    requires Accepted(p, newRange, net)
    ensures AllCountable(Elements(p, newRange))
    ensures Closed(Elements(p, newRange)) <==>
            forall oldRange :: Accepted(p, oldRange, net) ==> ExactFrom(p, oldRange, newRange, net)
  {
    AcceptedAreCountable(p, newRange, net);
    if Closed(Elements(p, newRange)) {
      forall oldRange | Accepted(p, oldRange, net)
        ensures ExactFrom(p, oldRange, newRange, net)
      {
        ClosedIsExact(p, oldRange, newRange, net);
      }
    } else {
      var oldRange := OpenIsInexact(p, newRange, net);
      assert !ExactFrom(p, oldRange, newRange, net);
    }
  }

  lemma TwoDashed(p: Parser, s: string, t: string)
    requires EndText(s) && EndText(t) && p(s).Some? && p(t).Some?
    ensures Elements(p, s + ['-'] + s + [','] + (t + ['-'] + t)) == [Span(p(s).value, p(s).value), Span(p(t).value, p(t).value)]
  {
    var a, b := s + ['-'] + s, t + ['-'] + t;
    SplitAtFirst(a, b, ',');
    SplitFree(b, ',');
    DashedElement(p, s, s);
    DashedElement(p, t, t);
  }

  lemma SpanIsCountable(m: nat, n: nat)
    requires m <= n < TWO_32
    ensures var e := Span(Addr(m), Addr(n)); Countable(e) && Lo32(e) == m && Hi32(e) == n
  {
    QuadOrder(To4(Addr(m)).value, To4(Addr(n)).value);
  }

  lemma CutSpan(n: nat)
    requires n + 1 < TWO_32
    ensures var e, fs := Span(Addr(n), Addr(n + 1)), [Span(Addr(n), Addr(n)), Span(Addr(n + 1), Addr(n + 1))];
            Countable(e) && Within(e, fs) && !Reached(e, fs)
  {
    var e, fs := Span(Addr(n), Addr(n + 1)), [Span(Addr(n), Addr(n)), Span(Addr(n + 1), Addr(n + 1))];
    SpanIsCountable(n, n + 1);
    SpanIsCountable(n, n);
    SpanIsCountable(n + 1, n + 1);
    JoinedInterval(fs, 0, 1, e);
    NoneOver(fs, 0, 1, e);
  }

  /** A text of start-end parts that the check is not exact for: a two-address span rewritten as `s-s,t-t` loses nothing, yet is refused. */
  lemma CutSpanRefused(p: Parser, s: string, t: string, net: IPNet, n: nat)
    requires n + 1 < TWO_32
    requires EndText(s) && EndText(t) && p(s) == Some(Addr(n)) && p(t) == Some(Addr(n + 1))
    requires Contains(net, Addr(n)) && Contains(net, Addr(n + 1))
    ensures var oldRange, newRange := s + ['-'] + t, s + ['-'] + s + [','] + (t + ['-'] + t);
            && Accepted(p, oldRange, net) && Accepted(p, newRange, net)
            && Keeps(p, oldRange, newRange) && !Expands(p, oldRange, newRange, net)
  {
    DashedPair(p, s, t);
    TwoDashed(p, s, t);
    CompareSelf(Addr(n));
    CompareSelf(Addr(n + 1));
    CutSpan(n);
    RefusedText(p, s + ['-'] + t, s + ['-'] + s + [','] + (t + ['-'] + t), Span(Addr(n), Addr(n + 1)), net);
  }
}
