/**
  The string operations that the Go code takes from package strings: Split and Join on a
  one-character separator, TrimSpace, and the letter folding behind EqualFold.
 */
module Text {

  datatype Option<+T> = None | Some(value: T)

  /** strings.Split(s, sep): always at least one part. */
  function Split(s: string, sep: char): (parts: seq<string>)
    ensures |parts| >= 1
  {
    if s == "" then [""]
    else
      var rest := Split(s[1..], sep);
      if s[0] == sep then [""] + rest else [[s[0]] + rest[0]] + rest[1..]
  }

  /** strings.Join(parts, sep). */
  function Join(parts: seq<string>, sep: char): string
  {
    if parts == [] then ""
    else if |parts| == 1 then parts[0]
    else parts[0] + [sep] + Join(parts[1..], sep)
  }

  /** Joining undoes splitting. */
  lemma {:induction false} JoinOfSplit(s: string, sep: char)
    ensures Join(Split(s, sep), sep) == s
  {
    if s != "" {
      var rest := Split(s[1..], sep);
      JoinOfSplit(s[1..], sep);
      assert s == [s[0]] + s[1..];
      if s[0] == sep {
        assert Split(s, sep)[1..] == rest;
      } else {
        assert Split(s, sep)[1..] == rest[1..];
        if |rest| > 1 {
          assert s == [s[0]] + (rest[0] + [sep] + Join(rest[1..], sep));
        }
      }
    }
  }

  /** No part of a split holds the separator. */
  lemma {:induction false} SplitPartsAreFree(s: string, sep: char)
    ensures forall i :: 0 <= i < |Split(s, sep)| ==> sep !in Split(s, sep)[i]
  {
    if s != "" {
      SplitPartsAreFree(s[1..], sep);
    }
  }

  /** A string without the separator is its own only part. */
  lemma {:induction false} SplitFree(s: string, sep: char)
    requires sep !in s
    ensures Split(s, sep) == [s]
  {
    if s != "" {
      SplitFree(s[1..], sep);
      assert s == [s[0]] + s[1..];
    }
  }

  /** Splitting at the first separator. */
  lemma {:induction false} SplitAtFirst(a: string, b: string, sep: char)
    requires sep !in a
    ensures Split(a + [sep] + b, sep) == [a] + Split(b, sep)
  {
    var s := a + [sep] + b;
    if a == "" {
      assert s[1..] == b;
    } else {
      SplitAtFirst(a[1..], b, sep);
      assert s[1..] == a[1..] + [sep] + b;
      assert a == [a[0]] + a[1..];
    }
  }

  /** Splitting undoes joining, when no part holds the separator. */
  lemma {:induction false} SplitOfJoin(parts: seq<string>, sep: char)
    requires |parts| >= 1
    requires forall i :: 0 <= i < |parts| ==> sep !in parts[i]
    ensures Split(Join(parts, sep), sep) == parts
  {
    if |parts| == 1 {
      SplitFree(parts[0], sep);
    } else {
      SplitOfJoin(parts[1..], sep);
      SplitAtFirst(parts[0], Join(parts[1..], sep), sep);
    }
  }

  /** Appending a character that is not the separator extends the last part. */
  lemma {:induction false} SplitSnoc(s: string, c: char, sep: char)
    requires c != sep
    ensures var r := Split(s, sep);
            Split(s + [c], sep) == r[..|r| - 1] + [r[|r| - 1] + [c]]
  {
    if s == "" {
      SplitFree([c], sep);
      assert s + [c] == [c];
    } else {
      SplitSnoc(s[1..], c, sep);
      assert (s + [c])[1..] == s[1..] + [c];
      var q, r := Split(s[1..], sep), Split(s, sep);
      var n := |q| - 1;
      if s[0] == sep {
        assert r[n + 1] == q[n];
      } else if n == 0 {
        assert r == [[s[0]] + q[0]];
        assert [s[0]] + (q[0] + [c]) == r[0] + [c];
      } else {
        assert r == [[s[0]] + q[0]] + q[1..];
        assert r[n] == q[n];
      }
    }
  }

  // ---- white space ----

  /** unicode.IsSpace, which TrimSpace and Fields use. */
  predicate IsSpace(c: char)
  {
    || c == ' '
    || '\t' <= c <= '\r'
    || c == '\U{0085}'
    || c == '\U{00a0}'
    || c == '\U{1680}'
    || '\U{2000}' <= c <= '\U{200a}'
    || c == '\U{2028}'
    || c == '\U{2029}'
    || c == '\U{202f}'
    || c == '\U{205f}'
    || c == '\U{3000}'
  }

  function TrimLeft(s: string): string
  {
    if s != "" && IsSpace(s[0]) then TrimLeft(s[1..]) else s
  }

  function TrimRight(s: string): string
  {
    if s != "" && IsSpace(s[|s| - 1]) then TrimRight(s[..|s| - 1]) else s
  }

  /** strings.TrimSpace. */
  function Trim(s: string): string
  {
    TrimRight(TrimLeft(s))
  }

  lemma {:induction false} TrimCons(c: char, s: string)
    requires IsSpace(c)
    ensures Trim([c] + s) == Trim(s)
  {
    assert ([c] + s)[1..] == s;
  }

  lemma {:induction false} TrimLeftSnoc(s: string, c: char)
    requires IsSpace(c)
    ensures TrimLeft(s + [c]) == if TrimLeft(s) == "" then "" else TrimLeft(s) + [c]
  {
    if s == "" {
      assert (s + [c])[1..] == "";
    } else if IsSpace(s[0]) {
      TrimLeftSnoc(s[1..], c);
      assert (s + [c])[1..] == s[1..] + [c];
    }
  }

  lemma {:induction false} TrimSnoc(s: string, c: char)
    requires IsSpace(c)
    ensures Trim(s + [c]) == Trim(s)
  {
    TrimLeftSnoc(s, c);
    var t := TrimLeft(s);
    if t != "" {
      assert (t + [c])[..|t|] == t;
    }
  }

  function TrimAll(parts: seq<string>): (r: seq<string>)
    ensures |r| == |parts|
    ensures forall i :: 0 <= i < |parts| ==> r[i] == Trim(parts[i])
  {
    if parts == [] then [] else [Trim(parts[0])] + TrimAll(parts[1..])
  }

  lemma {:induction false} TrimLeftKeepsParts(s: string, sep: char)
    requires !IsSpace(sep)
    ensures TrimAll(Split(TrimLeft(s), sep)) == TrimAll(Split(s, sep))
  {
    if s != "" && IsSpace(s[0]) {
      TrimLeftKeepsParts(s[1..], sep);
      TrimCons(s[0], Split(s[1..], sep)[0]);
    }
  }

  lemma {:induction false} TrimRightKeepsParts(s: string, sep: char)
    requires !IsSpace(sep)
    ensures TrimAll(Split(TrimRight(s), sep)) == TrimAll(Split(s, sep))
  {
    if s != "" && IsSpace(s[|s| - 1]) {
      var t, c := s[..|s| - 1], s[|s| - 1];
      assert s == t + [c];
      TrimRightKeepsParts(t, sep);
      SpaceKeepsParts(t, c, sep);
    }
  }

  lemma SpaceKeepsParts(t: string, c: char, sep: char)
    requires IsSpace(c) && c != sep
    ensures TrimAll(Split(t + [c], sep)) == TrimAll(Split(t, sep))
  {
    SplitSnoc(t, c, sep);
    var r := Split(t, sep);
    TrimSnoc(r[|r| - 1], c);
  }

  /** Trimming before splitting changes no trimmed part: both orders of the Go code read the same fields. */
  lemma TrimKeepsParts(s: string, sep: char)
    requires !IsSpace(sep)
    ensures TrimAll(Split(Trim(s), sep)) == TrimAll(Split(s, sep))
  {
    TrimLeftKeepsParts(s, sep);
    TrimRightKeepsParts(TrimLeft(s), sep);
  }

  /** A string holds the separator exactly when it splits into several parts. */
  lemma {:induction false} SplitCount(s: string, sep: char)
    ensures sep in s <==> |Split(s, sep)| > 1
  {
    if s != "" {
      SplitCount(s[1..], sep);
      assert s == [s[0]] + s[1..];
    }
  }

  /** Trimming twice is trimming once. */
  lemma TrimIdempotent(s: string)
    ensures Trim(Trim(s)) == Trim(s)
  {
    var t := TrimLeft(s);
    TrimLeftHead(s);
    TrimRightEnds(t);
  }

  lemma {:induction false} TrimLeftHead(s: string)
    ensures TrimLeft(s) != "" ==> !IsSpace(TrimLeft(s)[0])
  {
    if s != "" && IsSpace(s[0]) {
      TrimLeftHead(s[1..]);
    }
  }

  lemma {:induction false} TrimRightEnds(s: string)
    ensures TrimRight(s) != "" ==> !IsSpace(TrimRight(s)[|TrimRight(s)| - 1]) && TrimRight(s)[0] == s[0]
    ensures TrimRight(s) != "" ==> s != ""
  {
    if s != "" && IsSpace(s[|s| - 1]) {
      TrimRightEnds(s[..|s| - 1]);
    }
  }

  lemma {:induction false} TrimLeftFree(s: string, c: char)
    requires c !in s
    ensures c !in TrimLeft(s)
  {
    if s != "" && IsSpace(s[0]) {
      TrimLeftFree(s[1..], c);
    }
  }

  lemma {:induction false} TrimRightFree(s: string, c: char)
    requires c !in s
    ensures c !in TrimRight(s)
  {
    if s != "" && IsSpace(s[|s| - 1]) {
      TrimRightFree(s[..|s| - 1], c);
    }
  }

  /** Trimming adds no character. */
  lemma TrimFree(s: string, c: char)
    requires c !in s
    ensures c !in Trim(s)
  {
    TrimLeftFree(s, c);
    TrimRightFree(TrimLeft(s), c);
  }

  // ---- letter case ----

  function FoldChar(c: char): char
  {
    if 'A' <= c <= 'Z' then (c as int + 32) as char else c
  }

  /** The case-folded spelling; strings.EqualFold(a, b) is Fold(a) == Fold(b) on ASCII text. */
  function Fold(s: string): (r: string)
    ensures |r| == |s|
    ensures forall i :: 0 <= i < |s| ==> r[i] == FoldChar(s[i])
  {
    seq(|s|, i requires 0 <= i < |s| => FoldChar(s[i]))
  }

  predicate EqualFold(a: string, b: string)
  {
    Fold(a) == Fold(b)
  }

  /** The same character, or the two cases of one ASCII letter. */
  predicate SameLetter(c: char, d: char)
  {
    || c == d
    || ('a' <= c <= 'z' && 'A' <= d <= 'Z' && c as int - 'a' as int == d as int - 'A' as int)
    || ('A' <= c <= 'Z' && 'a' <= d <= 'z' && c as int - 'A' as int == d as int - 'a' as int)
  }

  /** Texts are equal up to case exactly when they are so character by character. */
  lemma EqualFoldIs(a: string, b: string)
    ensures EqualFold(a, b) <==> |a| == |b| && forall i :: 0 <= i < |a| ==> SameLetter(a[i], b[i])
  {
    if |a| == |b| {
      forall i | 0 <= i < |a|
        ensures Fold(a)[i] == Fold(b)[i] <==> SameLetter(a[i], b[i])
      {
      }
    } else {
      assert |Fold(a)| != |Fold(b)|;
    }
  }
}
