/**
  How the range text reaches dnsmasq: generateDnsmasqConfig turns every part start-end into the
  pair start,end that a dhcp-range line begins with.
 */
module RangeRewrite {
  import opened Text
  import opened Address
  import opened Ranges

  /** strings.ReplaceAll(s, a, b) for single characters. */
  function ReplaceAll(s: string, a: char, b: char): (r: string)
    ensures |r| == |s|
  {
    if s == "" then "" else [if s[0] == a then b else s[0]] + ReplaceAll(s[1..], a, b)
  }

  function AllReplaced(parts: seq<string>): (lines: seq<string>)
    ensures |lines| == |parts|
    ensures forall i :: 0 <= i < |parts| ==> lines[i] == ReplaceAll(parts[i], '-', ',')
  {
    seq(|parts|, i requires 0 <= i < |parts| => ReplaceAll(parts[i], '-', ','))
  }

  function Rewritten(ipRange: string): seq<string>
  {
    AllReplaced(Split(ipRange, ','))
  }

  /** The loop over the parts of the range. */
  method RewriteRange(ipRange: string) returns (lines: seq<string>)
    ensures lines == Rewritten(ipRange)
  {
    lines := Split(ipRange, ',');
    ghost var parts := lines;
    for k := 0 to |lines|
      invariant |lines| == |parts|
      invariant forall i :: 0 <= i < k ==> lines[i] == ReplaceAll(parts[i], '-', ',')
      invariant forall i :: k <= i < |parts| ==> lines[i] == parts[i]
    {
      lines := lines[k := ReplaceAll(lines[k], '-', ',')];
    }
  }

  /** A line that is a start,end pair; a single address is none. */
  function ReadLine(p: Parser, line: string): Option<(IP, IP)>
  {
    var f := Split(line, ',');
    if |f| != 2 then None
    else match (p(Trim(f[0])), p(Trim(f[1])))
         case (Some(lo), Some(hi)) => Some((lo, hi))
         case _ => None
  }

  predicate LineDenotes(p: Parser, line: string, ip: IP)
  {
    match ReadLine(p, line)
    case Some(pair) => Compare(pair.0, ip) <= 0 && Compare(ip, pair.1) <= 0
    case None => false
  }

  predicate LinesDenote(p: Parser, lines: seq<string>, ip: IP)
  {
    exists i :: 0 <= i < |lines| && LineDenotes(p, lines[i], ip)
  }

  /** In a text without commas, commas after the replacement are where the dashes were. */
  lemma {:induction false} ReplacedSplits(s: string)
    requires ',' !in s
    ensures Split(ReplaceAll(s, '-', ','), ',') == Split(s, '-')
  {
    if s != "" {
      ReplacedSplits(s[1..]);
      assert ReplaceAll(s, '-', ',')[1..] == ReplaceAll(s[1..], '-', ',');
      assert ',' != s[0];
    }
  }

  lemma LineIsElement(p: Parser, part: string, ip: IP)
    requires ',' !in part
    ensures LineDenotes(p, ReplaceAll(part, '-', ','), ip) <==>
            ParseElement(p, part).Span? && Denotes(ParseElement(p, part), ip)
  {
    ReplacedSplits(part);
    SplitCount(part, '-');
  }

  predicate SpanHolds(es: seq<Element>, ip: IP)
  {
    exists i :: 0 <= i < |es| && es[i].Span? && Denotes(es[i], ip)
  }

  /** For every range text the lines denote exactly the addresses of its start-end parts. */
  lemma LinesDenoteTheSpans(p: Parser, ipRange: string, ip: IP)
    ensures LinesDenote(p, Rewritten(ipRange), ip) <==> SpanHolds(Elements(p, ipRange), ip)
  {
    var parts := Split(ipRange, ',');
    SplitPartsAreFree(ipRange, ',');
    forall i | 0 <= i < |parts|
      ensures LineDenotes(p, Rewritten(ipRange)[i], ip) <==>
              Elements(p, ipRange)[i].Span? && Denotes(Elements(p, ipRange)[i], ip)
    {
      LineIsElement(p, parts[i], ip);
    }
  }

  /** The rewrite preserves meaning: the start,end pairs denote exactly the addresses that IsIPInRange accepts, for every list of start-end parts, and in general exactly when each single address also lies in some start-end part. A single address is no pair; what dnsmasq makes of it is outside the model. */
  lemma RewriteKeepsMeaning(p: Parser, ipRange: string)
    ensures (forall ip: IP :: LinesDenote(p, Rewritten(ipRange), ip) <==> InRange(p, ipRange, ip)) <==>
            forall i :: 0 <= i < |Elements(p, ipRange)| && Elements(p, ipRange)[i].Single? ==>
              SpanHolds(Elements(p, ipRange), Elements(p, ipRange)[i].ip)
  {
    var es := Elements(p, ipRange);
    forall ip: IP
      ensures LinesDenote(p, Rewritten(ipRange), ip) <==> SpanHolds(es, ip)
    {
      LinesDenoteTheSpans(p, ipRange, ip);
    }
    forall i | 0 <= i < |es| && es[i].Single?
      ensures InRange(p, ipRange, es[i].ip)
    {
      assert Denotes(es[i], es[i].ip);
    }
    if forall i :: 0 <= i < |es| && es[i].Single? ==> SpanHolds(es, es[i].ip) {
      forall ip: IP
        ensures LinesDenote(p, Rewritten(ipRange), ip) <==> InRange(p, ipRange, ip)
      {
        if InRange(p, ipRange, ip) {
          var i :| 0 <= i < |es| && Denotes(es[i], ip);
          if es[i].Single? {
            assert SpanHolds(es, es[i].ip);
          }
        }
      }
    }
  }
}
