/**
  The dotted-quad reading that net.ParseIP gives: four decimal fields, each at most 255 and
  without a leading zero. Its one consequence for the repository: tables keyed by address
  strings are keyed by addresses, since no address has two spellings.
 */
module DottedQuad {
  import opened Text
  import opened Address

  predicate IsDigit(c: char)
  {
    '0' <= c <= '9'
  }

  function Digit(c: char): (d: int)
    requires IsDigit(c)
    ensures 0 <= d <= 9
  {
    c as int - '0' as int
  }

  function Decimal(f: string): (n: nat)
    requires forall i :: 0 <= i < |f| ==> IsDigit(f[i])
  {
    if f == "" then 0 else Decimal(f[..|f| - 1]) * 10 + Digit(f[|f| - 1])
  }

  /** One field of a dotted quad. */
  function ParseOctet(f: string): Option<Byte>
  {
    if |f| < 1 || |f| > 3 then None
    else if exists i :: 0 <= i < |f| && !IsDigit(f[i]) then None
    else if |f| > 1 && f[0] == '0' then None
    else if Decimal(f) > 255 then None
    else Some(Decimal(f))
  }

  function ParseQuad(s: string): Option<Quad>
  {
    var parts := Split(s, '.');
    if |parts| != 4 then None
    else match (ParseOctet(parts[0]), ParseOctet(parts[1]), ParseOctet(parts[2]), ParseOctet(parts[3]))
         case (Some(a), Some(b), Some(c), Some(d)) => Some([a, b, c, d])
         case _ => None
  }

  lemma DecimalOf(f: string)
    requires 1 <= |f| <= 3
    requires forall i :: 0 <= i < |f| ==> IsDigit(f[i])
    ensures |f| == 1 ==> Decimal(f) == Digit(f[0])
    ensures |f| == 2 ==> Decimal(f) == 10 * Digit(f[0]) + Digit(f[1])
    ensures |f| == 3 ==> Decimal(f) == 100 * Digit(f[0]) + 10 * Digit(f[1]) + Digit(f[2])
  {
    assert |f| == 1 ==> f[..0] == "";
    assert |f| == 2 ==> f[..1][..0] == "";
    assert |f| == 3 ==> f[..2][..1] == f[..1] && f[..1][..0] == "";
  }

  lemma ThreeDigits(a: int, b: int, c: int, x: int, y: int, z: int)
    requires 0 <= a <= 9 && 0 <= b <= 9 && 0 <= c <= 9 && 0 <= x <= 9 && 0 <= y <= 9 && 0 <= z <= 9
    requires 100 * a + 10 * b + c == 100 * x + 10 * y + z
    ensures a == x && b == y && c == z
  {
  }

  /** The number of digits follows from the value, when there is no leading zero. */
  lemma DecimalLength(f: string)
    requires ParseOctet(f).Some?
    ensures |f| == if Decimal(f) < 10 then 1 else if Decimal(f) < 100 then 2 else 3
  {
    DecimalOf(f);
    assert |f| > 1 ==> Digit(f[0]) >= 1;
  }

  lemma OctetInjective(f: string, g: string)
    requires ParseOctet(f).Some? && ParseOctet(f) == ParseOctet(g)
    ensures f == g
  {
    DecimalOf(f);
    DecimalOf(g);
    DecimalLength(f);
    DecimalLength(g);
    if |f| == 2 {
      ThreeDigits(0, Digit(f[0]), Digit(f[1]), 0, Digit(g[0]), Digit(g[1]));
    } else if |f| == 3 {
      ThreeDigits(Digit(f[0]), Digit(f[1]), Digit(f[2]), Digit(g[0]), Digit(g[1]), Digit(g[2]));
    }
  }

  /** No address has two dotted-quad spellings. */
  lemma QuadInjective(s: string, t: string)
    requires ParseQuad(s).Some? && ParseQuad(s) == ParseQuad(t)
    ensures s == t
  {
    var p, q := Split(s, '.'), Split(t, '.');
    var a, b := ParseQuad(s).value, ParseQuad(t).value;
    forall i | 0 <= i < 4
      ensures p[i] == q[i]
    {
      assert ParseOctet(p[i]) == Some(a[i]) && ParseOctet(q[i]) == Some(b[i]);
      OctetInjective(p[i], q[i]);
    }
    assert p == q;
    JoinOfSplit(s, '.');
    JoinOfSplit(t, '.');
  }

  // ---- every address has a spelling ----

  function DigitChar(d: nat): (c: char)
    requires d < 10
    ensures IsDigit(c) && Digit(c) == d
  {
    ('0' as int + d) as char
  }

  /** The number in decimal, without leading zeros. */
  function FormatOctet(n: Byte): string
  {
    if n < 10 then [DigitChar(n)]
    else if n < 100 then [DigitChar(n / 10), DigitChar(n % 10)]
    else [DigitChar(n / 100), DigitChar(n / 10 % 10), DigitChar(n % 10)]
  }

  function FormatQuad(q: Quad): string
  {
    FormatOctet(q[0]) + ['.'] + (FormatOctet(q[1]) + ['.'] + (FormatOctet(q[2]) + ['.'] + FormatOctet(q[3])))
  }

  lemma OctetRoundTrip(n: Byte)
    ensures ParseOctet(FormatOctet(n)) == Some(n) && '.' !in FormatOctet(n)
  {
    DecimalOf(FormatOctet(n));
  }

  /** The reading is exactly this spelling's inverse: a text reads as an address if and only if it is its decimal spelling. */
  lemma QuadRoundTrip(s: string, q: Quad)
    ensures ParseQuad(s) == Some(q) <==> s == FormatQuad(q)
  {
    var a, b, c, d := FormatOctet(q[0]), FormatOctet(q[1]), FormatOctet(q[2]), FormatOctet(q[3]);
    OctetRoundTrip(q[0]);
    OctetRoundTrip(q[1]);
    OctetRoundTrip(q[2]);
    OctetRoundTrip(q[3]);
    SplitAtFirst(a, b + ['.'] + (c + ['.'] + d), '.');
    SplitAtFirst(b, c + ['.'] + d, '.');
    SplitAtFirst(c, d, '.');
    SplitFree(d, '.');
    assert Split(FormatQuad(q), '.') == [a, b, c, d];
    assert [q[0], q[1], q[2], q[3]] == q;
    assert ParseQuad(FormatQuad(q)) == Some(q);
    if ParseQuad(s) == Some(q) {
      QuadInjective(s, FormatQuad(q));
    }
  }
}
