/** The handful of Python string operations the configuration logic is built from:
    `str.split` on one separator character, `sep.join`, `in` on strings,
    `str.replace` and decimal formatting of integers. */
module Strings {

  /** `s.split(sep)`: the pieces between occurrences of `sep`, always at least one
      (the empty string splits into `[""]`), none of which contains `sep`. */
  function Split(s: string, sep: char): (parts: seq<string>)
    ensures |parts| >= 1
    ensures forall k :: 0 <= k < |parts| ==> sep !in parts[k]
    decreases |s|
  {
    if |s| == 0 then [""]
    else
      var rest := Split(s[1..], sep);
      if s[0] == sep then [""] + rest
      else [[s[0]] + rest[0]] + rest[1..]
  }

  /** `sep.join(parts)` for a one-character separator. */
  function Join(parts: seq<string>, sep: char): string
    decreases |parts|
  {
    if |parts| == 0 then ""
    else if |parts| == 1 then parts[0]
    else parts[0] + [sep] + Join(parts[1..], sep)
  }

  /** `sep.join(parts)` for a separator of any length, such as `", "`. */
  function JoinWith(parts: seq<string>, sep: string): string
    decreases |parts|
  {
    if |parts| == 0 then ""
    else if |parts| == 1 then parts[0]
    else parts[0] + sep + JoinWith(parts[1..], sep)
  }

  /** The last piece of `s.split(sep)`, i.e. Python's `s.split(sep)[-1]`. */
  function LastPiece(s: string, sep: char): string
  {
    var parts := Split(s, sep);
    parts[|parts| - 1]
  }

  /** Number of occurrences of character `c` in `s`. */
  function Occurrences(s: string, c: char): nat
  {
    multiset(s)[c]
  }

  /** Python's `t in s` for strings: `t` occurs at some offset of `s`. */
  predicate Contains(s: string, t: string)
  {
    exists k :: 0 <= k <= |s| - |t| && t <= s[k..]
  }

  /** `s.replace(pat, rep)`: every non-overlapping occurrence of `pat`, scanning
      from the left, is replaced by `rep`. */
  function ReplaceAll(s: string, pat: string, rep: string): string
    requires |pat| > 0
    decreases |s|
  {
    if |s| == 0 then ""
    else if pat <= s then rep + ReplaceAll(s[|pat|..], pat, rep)
    else [s[0]] + ReplaceAll(s[1..], pat, rep)
  }

  function Digit(d: nat): char
    requires d < 10
  {
    "0123456789"[d]
  }

  predicate IsDigit(c: char)
  {
    '0' <= c <= '9'
  }

  /** `f"{n}"` for a non-negative integer: its decimal digits, most significant first. */
  function ShowNat(n: nat): (r: string)
    ensures |r| >= 1
    ensures forall k :: 0 <= k < |r| ==> IsDigit(r[k])
    decreases n
  {
    if n < 10 then [Digit(n)] else ShowNat(n / 10) + [Digit(n % 10)]
  }

  /** `f"{i}"` for any integer: a minus sign before the digits of a negative number. */
  function ShowInt(i: int): (r: string)
    ensures |r| >= 1
    ensures i >= 0 <==> IsDigit(r[0])
  {
    if i < 0 then "-" + ShowNat(-i) else ShowNat(i)
  }

  /** Reads a string of decimal digits back as a number (reference reading of `ShowNat`). */
  function ReadNat(s: string): nat
    decreases |s|
  {
    if |s| == 0 then 0
    else
      var d := s[|s| - 1] as int - '0' as int;
      ReadNat(s[..|s| - 1]) * 10 + (if 0 <= d < 10 then d else 0)
  }

  /** Reads the output of `ShowInt` back as an integer. */
  function ReadInt(s: string): int
  {
    if |s| > 0 && s[0] == '-' then -(ReadNat(s[1..]) as int) else ReadNat(s)
  }

  // ---------------------------------------------------------------------------
  // Split and Join

  /** A string without the separator splits into itself alone. */
  lemma {:induction false} SplitFree(p: string, sep: char)
    requires sep !in p
    ensures Split(p, sep) == [p]
    decreases |p|
  {
    if |p| > 0 {
      assert p == [p[0]] + p[1..];
      SplitFree(p[1..], sep);
    }
  }

  /** One step of `Split`: the first character either ends the first piece or joins it. */
  lemma SplitCons(c: char, t: string, sep: char)
    ensures Split([c] + t, sep)
            == if c == sep then [""] + Split(t, sep) else [[c] + Split(t, sep)[0]] + Split(t, sep)[1..]
  {
    assert ([c] + t)[0] == c && ([c] + t)[1..] == t;
  }

  /** Splitting distributes over a separator: the pieces of `a sep b` are the pieces
      of `a` followed by the pieces of `b`. */
  lemma {:induction false} SplitConcat(a: string, b: string, sep: char)
    ensures Split(a + [sep] + b, sep) == Split(a, sep) + Split(b, sep)
    decreases |a|
  {
    if |a| == 0 {
      assert a + [sep] + b == [sep] + b;
      SplitCons(sep, b, sep);
    } else {
      SplitConcat(a[1..], b, sep);
      SplitConcatStep(a, b, sep);
    }
  }

  /** The inductive step of `SplitConcat`: what holds for the tail of `a` holds for `a`. */
  lemma SplitConcatStep(a: string, b: string, sep: char)
    requires |a| > 0
    requires Split(a[1..] + [sep] + b, sep) == Split(a[1..], sep) + Split(b, sep)
    ensures Split(a + [sep] + b, sep) == Split(a, sep) + Split(b, sep)
  {
    var t := a[1..] + [sep] + b;
    ConsAppend(a, [sep] + b);
    assert a + [sep] + b == [a[0]] + t;
    SplitCons(a[0], t, sep);
    SplitCons(a[0], a[1..], sep);
    assert a == [a[0]] + a[1..];
    PiecesAppend(a[0], sep, Split(a[1..], sep), Split(b, sep));
  }

  /** Peeling the first element off a concatenation. */
  lemma ConsAppend<T>(a: seq<T>, b: seq<T>)
    requires |a| > 0
    ensures a + b == [a[0]] + (a[1..] + b)
  {
  }

  /** The first step of `Split` commutes with appending further pieces. */
  lemma PiecesAppend(c: char, sep: char, rest: seq<string>, more: seq<string>)
    requires |rest| > 0
    ensures (if c == sep then [""] + (rest + more) else [[c] + (rest + more)[0]] + (rest + more)[1..])
            == (if c == sep then [""] + rest else [[c] + rest[0]] + rest[1..]) + more
  {
    if c != sep {
      assert (rest + more)[0] == rest[0];
      assert (rest + more)[1..] == rest[1..] + more;
    }
  }

  /** Appending a separator and a separator-free piece appends one piece. */
  lemma SplitSnoc(a: string, b: string, sep: char)
    requires sep !in b
    ensures Split(a + [sep] + b, sep) == Split(a, sep) + [b]
  {
    SplitConcat(a, b, sep);
    SplitFree(b, sep);
  }

  /** `SplitSnoc` for a last piece written in two parts. */
  lemma SplitSnocSuffix(a: string, b: string, c: string, sep: char)
    requires sep !in b && sep !in c
    ensures Split(a + [sep] + b + c, sep) == Split(a, sep) + [b + c]
    ensures LastPiece(a + [sep] + b + c, sep) == b + c
  {
    assert a + [sep] + b + c == a + [sep] + (b + c);
    SplitSnoc(a, b + c, sep);
  }

  /** Two separator-free pieces joined by the separator split back into themselves. */
  lemma SplitPair(a: string, b: string, sep: char)
    requires sep !in a && sep !in b
    ensures Split(a + [sep] + b, sep) == [a, b]
  {
    SplitConcat(a, b, sep);
    SplitFree(a, sep);
    SplitFree(b, sep);
  }

  /** Round trip: joining separator-free pieces and splitting again gives the pieces back. */
  lemma {:induction false} SplitJoin(parts: seq<string>, sep: char)
    requires |parts| >= 1
    requires forall k :: 0 <= k < |parts| ==> sep !in parts[k]
    ensures Split(Join(parts, sep), sep) == parts
    decreases |parts|
  {
    if |parts| == 1 {
      SplitFree(parts[0], sep);
    } else {
      SplitJoin(parts[1..], sep);
      SplitConcat(parts[0], Join(parts[1..], sep), sep);
      SplitFree(parts[0], sep);
      assert parts == [parts[0]] + parts[1..];
    }
  }

  /** Round trip the other way: splitting and re-joining gives back any string. */
  lemma {:induction false} JoinSplit(s: string, sep: char)
    ensures Join(Split(s, sep), sep) == s
    decreases |s|
  {
    if |s| > 0 {
      JoinSplit(s[1..], sep);
      assert s == [s[0]] + s[1..];
      JoinSplitStep(s[0], s[1..], sep);
    }
  }

  /** One step of `JoinSplit`: putting a character in front keeps the round trip. */
  lemma JoinSplitStep(c: char, t: string, sep: char)
    requires Join(Split(t, sep), sep) == t
    ensures Join(Split([c] + t, sep), sep) == [c] + t
  {
    SplitCons(c, t, sep);
    var rest := Split(t, sep);
    if c == sep {
      assert ([""] + rest)[1..] == rest;
    } else if |rest| > 1 {
      var first := [c] + rest[0];
      assert ([first] + rest[1..])[1..] == rest[1..];
      assert Join(rest, sep) == rest[0] + [sep] + Join(rest[1..], sep);
    }
  }

  /** Splitting is injective: different strings never split into the same pieces. */
  lemma SplitInjective(s: string, t: string, sep: char)
    requires Split(s, sep) == Split(t, sep)
    ensures s == t
  {
    JoinSplit(s, sep);
    JoinSplit(t, sep);
  }

  /** There is exactly one more piece than there are separators. */
  lemma {:induction false} SplitCount(s: string, sep: char)
    ensures |Split(s, sep)| == Occurrences(s, sep) + 1
    decreases |s|
  {
    if |s| > 0 {
      SplitCount(s[1..], sep);
      assert s == [s[0]] + s[1..];
      assert multiset(s) == multiset([s[0]]) + multiset(s[1..]);
    }
  }

  /** A string with exactly one separator splits into the text before it and the
      text after it. */
  lemma SplitOnce(s: string, sep: char)
    requires Occurrences(s, sep) == 1
    ensures |Split(s, sep)| == 2
    ensures Split(s, sep)[0] + [sep] + Split(s, sep)[1] == s
  {
    SplitCount(s, sep);
    JoinSplit(s, sep);
    var parts := Split(s, sep);
    assert parts[1..] == [parts[1]];
  }

  /** `(a + sep + b).split(sep)[-1]` is `b` when `b` has no separator. */
  lemma LastPieceAfter(a: string, b: string, sep: char)
    requires sep !in b
    ensures LastPiece(a + [sep] + b, sep) == b
  {
    SplitConcat(a, b, sep);
    SplitFree(b, sep);
  }

  // ---------------------------------------------------------------------------
  // Substrings and replacement

  /** A string occurs in any concatenation that has it as a middle part. */
  lemma ContainsMiddle(a: string, t: string, b: string)
    ensures Contains(a + t + b, t)
  {
    assert (a + t + b)[|a|..] == t + b;
  }

  /** Both halves of a concatenation occur in it. */
  lemma ContainsHalves(a: string, b: string)
    ensures Contains(a + b, a) && Contains(a + b, b)
  {
    assert a <= (a + b)[0..];
    assert (a + b)[|a|..] == b;
  }

  /** An occurrence stays an occurrence when text is put in front. */
  lemma ContainsAfter(a: string, s: string, t: string)
    requires Contains(s, t)
    ensures Contains(a + s, t)
  {
    var k :| 0 <= k <= |s| - |t| && t <= s[k..];
    assert (a + s)[|a| + k..] == s[k..];
  }

  /** Every piece occurs in the joined string. */
  lemma {:induction false} JoinWithContains(parts: seq<string>, sep: string, k: nat)
    requires k < |parts|
    ensures Contains(JoinWith(parts, sep), parts[k])
    decreases |parts|
  {
    if |parts| == 1 {
      ContainsMiddle("", parts[0], "");
      assert "" + parts[0] + "" == parts[0];
    } else if k == 0 {
      ContainsMiddle("", parts[0], sep + JoinWith(parts[1..], sep));
      assert "" + parts[0] + (sep + JoinWith(parts[1..], sep)) == JoinWith(parts, sep);
    } else {
      JoinWithContains(parts[1..], sep, k - 1);
      ContainsAfter(parts[0] + sep, JoinWith(parts[1..], sep), parts[k]);
      assert parts[0] + sep + JoinWith(parts[1..], sep) == JoinWith(parts, sep);
    }
  }

  /** An occurrence inside a middle part is an occurrence of the whole. */
  lemma ContainsInside(a: string, middle: string, b: string, head: string, t: string, tail: string)
    requires middle == head + t + tail
    ensures Contains(a + middle + b, t)
  {
    assert a + middle + b == (a + head) + t + (tail + b);
    ContainsMiddle(a + head, t, tail + b);
  }

  /** Containment is transitive. */
  lemma ContainsWithin(s: string, m: string, t: string)
    requires Contains(s, m) && Contains(m, t)
    ensures Contains(s, t)
  {
    var i :| 0 <= i <= |s| - |m| && m <= s[i..];
    var j :| 0 <= j <= |m| - |t| && t <= m[j..];
    forall k | 0 <= k < |t|
      ensures t[k] == s[i + j + k]
    {
      assert t[k] == m[j..][k] == m[j + k];
      assert m[j + k] == s[i..][j + k];
    }
    assert t <= s[i + j..];
  }

  /** Equal strings with a common prefix agree after it. */
  lemma CancelPrefix(prefix: string, x: string, y: string)
    requires prefix + x == prefix + y
    ensures x == y
  {
    assert x == (prefix + x)[|prefix|..];
    assert y == (prefix + y)[|prefix|..];
  }

  /** Equal strings with a common prefix and a common suffix agree in between. */
  lemma CancelAround(prefix: string, x: string, y: string, suffix: string)
    requires prefix + x + suffix == prefix + y + suffix
    ensures x == y
  {
    assert x == (prefix + x + suffix)[|prefix|..|prefix| + |x|];
    assert y == (prefix + y + suffix)[|prefix|..|prefix| + |y|];
  }

  /** `CancelAround` for a middle part that is itself framed. */
  lemma CancelNested(prefix: string, lead: string, x: string, y: string, suffix: string)
    requires prefix + (lead + x + suffix) == prefix + (lead + y + suffix)
    ensures x == y
  {
    CancelPrefix(prefix, lead + x + suffix, lead + y + suffix);
    CancelAround(lead, x, y, suffix);
  }

  /** Equal strings with a common suffix agree before it. */
  lemma CancelSuffix(x: string, y: string, suffix: string)
    requires x + suffix == y + suffix
    ensures x == y
  {
    assert x == (x + suffix)[..|x|];
    assert y == (y + suffix)[..|y|];
  }

  /** A string with no occurrence of `pat`, followed by `pat` itself, has exactly
      its final `pat` replaced — provided the first character of `pat` does not
      recur inside `pat`, so no occurrence can straddle the junction. */
  lemma {:induction false} ReplaceAtEnd(s: string, pat: string, rep: string)
    requires |pat| > 0 && pat[0] !in pat[1..]
    requires !Contains(s, pat)
    ensures ReplaceAll(s + pat, pat, rep) == s + rep
    decreases |s|
  {
    if |s| == 0 {
      assert s + pat == pat;
      assert pat[|pat|..] == "";
    } else {
      if |s| >= |pat| {
        assert s[0..] == s;
        assert (s + pat)[..|pat|] == s[..|pat|];
      } else {
        assert (s + pat)[|s|] == pat[0];
        assert pat[1..][|s| - 1] == pat[|s|];
      }
      assert !(pat <= s + pat);
      assert (s + pat)[1..] == s[1..] + pat;
      forall k | 0 <= k <= |s[1..]| - |pat|
        ensures !(pat <= s[1..][k..])
      {
        assert s[1..][k..] == s[k + 1..];
      }
      ReplaceAtEnd(s[1..], pat, rep);
      assert s == [s[0]] + s[1..];
    }
  }

  // ---------------------------------------------------------------------------
  // Decimal formatting

  /** Reading the digits of `ShowNat(n)` back gives `n`. */
  lemma {:induction false} ShowNatRoundTrip(n: nat)
    ensures ReadNat(ShowNat(n)) == n
    decreases n
  {
    if n >= 10 {
      ShowNatRoundTrip(n / 10);
      var s := ShowNat(n);
      assert s[..|s| - 1] == ShowNat(n / 10);
    }
  }

  /** Reading `ShowInt(i)` back gives `i`, so distinct integers print differently. */
  lemma {:induction false} ShowIntRoundTrip(i: int)
    ensures ReadInt(ShowInt(i)) == i
  {
    if i < 0 {
      NegativeShown(-i);
    } else {
      NonNegativeShown(i);
    }
  }

  lemma {:induction false} NegativeShown(n: nat)
    requires n > 0
    ensures ReadInt(ShowInt(-(n as int))) == -(n as int)
  {
    var digits := ShowNat(n);
    assert ShowInt(-(n as int)) == "-" + digits;
    ShowNatRoundTrip(n);
    ReadNegative(digits);
  }

  lemma {:induction false} NonNegativeShown(n: nat)
    ensures ReadInt(ShowInt(n)) == n
  {
    var digits := ShowNat(n);
    assert ShowInt(n) == digits;
    ShowNatRoundTrip(n);
    ReadUnsigned(digits);
  }

  /** Without a leading minus sign the digits read as themselves. */
  lemma {:induction false} ReadUnsigned(digits: string)
    requires |digits| > 0 && IsDigit(digits[0])
    ensures ReadInt(digits) == ReadNat(digits) as int
  {
  }

  /** A leading minus sign negates what the digits after it read as. */
  lemma {:induction false} ReadNegative(digits: string)
    ensures ReadInt("-" + digits) == -(ReadNat(digits) as int)
  {
    var r := "-" + digits;
    assert r[0] == '-';
    assert r[1..] == digits;
  }
}
