/** The .NET string operations the source relies on, on `seq<char>`:
    `Char.IsWhiteSpace`, `Trim`, `IsNullOrEmpty`/`IsNullOrWhiteSpace`,
    ordinal `Contains`, ordinal `Replace`, `PadRight`/`PadLeft`. */
module Text {
  import opened Common

  /** The code-point ranges `Char.IsWhiteSpace` accepts: the Unicode space
      separators, the line and paragraph separators, U+0009..U+000D, U+0085
      and U+00A0. */
  const WhiteSpaceRanges: seq<(char, char)> := [
    ('\t', '\r'), (' ', ' '), ('\U{0085}', '\U{0085}'), ('\U{00A0}', '\U{00A0}'),
    ('\U{1680}', '\U{1680}'), ('\U{2000}', '\U{200A}'), ('\U{2028}', '\U{2029}'),
    ('\U{202F}', '\U{202F}'), ('\U{205F}', '\U{205F}'), ('\U{3000}', '\U{3000}')]

  predicate InRanges(c: char, ranges: seq<(char, char)>) {
    |ranges| > 0 && ((ranges[0].0 <= c <= ranges[0].1) || InRanges(c, ranges[1..]))
  }

  /** `Char.IsWhiteSpace`. */
  predicate IsWhiteSpace(c: char) {
    InRanges(c, WhiteSpaceRanges)
  }

  lemma {:induction false} NotInRanges(c: char, ranges: seq<(char, char)>)
    requires forall i :: 0 <= i < |ranges| ==> !(ranges[i].0 <= c <= ranges[i].1)
    ensures !InRanges(c, ranges)
  {
    if |ranges| > 0 {
      NotInRanges(c, ranges[1..]);
    }
  }

  /** Printable ASCII other than the space is not white space. */
  lemma VisibleAsciiNotWhiteSpace(c: char)
    requires '!' <= c <= '~'
    ensures !IsWhiteSpace(c)
  {
    NotInRanges(c, WhiteSpaceRanges);
  }

  predicate AllWhiteSpace(s: string) {
    forall i :: 0 <= i < |s| ==> IsWhiteSpace(s[i])
  }

  /** `string.IsNullOrEmpty`. */
  predicate IsNullOrEmpty(s: Option<string>) {
    s.None? || |s.value| == 0
  }

  /** `string.IsNullOrWhiteSpace`. */
  predicate IsNullOrWhiteSpace(s: Option<string>) {
    s.None? || AllWhiteSpace(s.value)
  }

  /** The first index at or after `i` whose character does not satisfy `p`
      (or `|s|`). */
  function SkipForward(s: string, p: char -> bool, i: nat): (j: nat)
    requires i <= |s|
    ensures i <= j <= |s|
    decreases |s| - i
  {
    if i < |s| && p(s[i]) then SkipForward(s, p, i + 1) else i
  }

  /** The last index `j` at or before `hi`, and after `lo`, such that `s[j - 1]`
      does not satisfy `p` (or `lo`). */
  function SkipBackward(s: string, p: char -> bool, lo: nat, hi: nat): (j: nat)
    requires lo <= hi <= |s|
    ensures lo <= j <= hi
    decreases hi
  {
    if lo < hi && p(s[hi - 1]) then SkipBackward(s, p, lo, hi - 1) else hi
  }

  lemma {:induction false} SkipForwardFacts(s: string, p: char -> bool, i: nat)
    requires i <= |s|
    ensures var j := SkipForward(s, p, i);
      && (forall k :: i <= k < j ==> p(s[k]))
      && (j == |s| || !p(s[j]))
    decreases |s| - i
  {
    if i < |s| && p(s[i]) {
      SkipForwardFacts(s, p, i + 1);
    }
  }

  lemma {:induction false} SkipBackwardFacts(s: string, p: char -> bool, lo: nat, hi: nat)
    requires lo <= hi <= |s|
    ensures var j := SkipBackward(s, p, lo, hi);
      && (forall k :: j <= k < hi ==> p(s[k]))
      && (j == lo || !p(s[j - 1]))
    decreases hi
  {
    if lo < hi && p(s[hi - 1]) {
      SkipBackwardFacts(s, p, lo, hi - 1);
    }
  }

  /** Index of the first character `Trim` keeps. */
  function TrimLo(s: string): nat {
    SkipForward(s, IsWhiteSpace, 0)
  }

  /** Index just past the last character `Trim` keeps. */
  function TrimHi(s: string): (hi: nat)
    ensures TrimLo(s) <= hi <= |s|
  {
    SkipBackward(s, IsWhiteSpace, TrimLo(s), |s|)
  }

  /** `Trim()`: the longest slice of `s` that neither starts nor ends in white space;
      everything dropped on either side is white space. */
  function Trim(s: string): (r: string)
    ensures r == s[TrimLo(s)..TrimHi(s)]
    ensures forall k :: 0 <= k < TrimLo(s) ==> IsWhiteSpace(s[k])
    ensures forall k :: TrimHi(s) <= k < |s| ==> IsWhiteSpace(s[k])
    ensures |r| == 0 <==> AllWhiteSpace(s)
    ensures |r| == 0 || (!IsWhiteSpace(r[0]) && !IsWhiteSpace(r[|r| - 1]))
  {
    var lo := TrimLo(s);
    var hi := TrimHi(s);
    SkipForwardFacts(s, IsWhiteSpace, 0);
    SkipBackwardFacts(s, IsWhiteSpace, lo, |s|);
    s[lo..hi]
  }

  /** `Trim()` on a string that has no surrounding white space is the identity. */
  lemma TrimIdentity(s: string)
    requires |s| == 0 || (!IsWhiteSpace(s[0]) && !IsWhiteSpace(s[|s| - 1]))
    ensures Trim(s) == s
  {
  }

  predicate StartsWith(s: string, p: string) {
    |p| <= |s| && s[..|p|] == p
  }

  /** Ordinal `String.Contains(p)`. */
  predicate Contains(s: string, p: string)
    decreases |s|
  {
    StartsWith(s, p) || (|s| > 0 && Contains(s[1..], p))
  }

  lemma ContainsAt(s: string, p: string, i: nat)
    requires i + |p| <= |s| && s[i..i + |p|] == p
    ensures Contains(s, p)
    decreases i
  {
    if i > 0 {
      assert s[1..][i - 1..i - 1 + |p|] == s[i..i + |p|];
      ContainsAt(s[1..], p, i - 1);
    }
  }

  lemma ContainsAppend(s: string, t: string, p: string)
    requires Contains(t, p)
    ensures Contains(s + t, p)
    decreases |s|
  {
    if |s| > 0 {
      assert (s + t)[1..] == s[1..] + t;
      ContainsAppend(s[1..], t, p);
    } else {
      assert s + t == t;
    }
  }

  /** A one-character pattern is contained exactly when the character occurs. */
  lemma ContainsChar(s: string, c: char)
    ensures Contains(s, [c]) <==> c in s
    decreases |s|
  {
    if |s| > 0 {
      ContainsChar(s[1..], c);
      assert s == [s[0]] + s[1..];
    }
  }

  /** Ordinal `String.Replace(pat, rep)`: every non-overlapping occurrence of
      `pat`, scanned left to right, becomes `rep`. The source only passes
      non-empty literal patterns (.NET rejects an empty one). */
  function ReplaceAll(s: string, pat: string, rep: string): (r: string)
    requires |pat| > 0
    decreases |s|
  {
    if |s| == 0 then []
    else if StartsWith(s, pat) then rep + ReplaceAll(s[|pat|..], pat, rep)
    else [s[0]] + ReplaceAll(s[1..], pat, rep)
  }

  /** The number of occurrences `ReplaceAll` rewrites. */
  function Occurrences(s: string, pat: string): nat
    requires |pat| > 0
    decreases |s|
  {
    if |s| == 0 then 0
    else if StartsWith(s, pat) then 1 + Occurrences(s[|pat|..], pat)
    else Occurrences(s[1..], pat)
  }

  /** Each rewritten occurrence changes the length by `|rep| - |pat|`. */
  lemma {:induction false} ReplaceAllLength(s: string, pat: string, rep: string)
    requires |pat| > 0
    ensures |ReplaceAll(s, pat, rep)| == |s| + Occurrences(s, pat) * (|rep| - |pat|)
    decreases |s|
  {
    if |s| == 0 {
    } else if StartsWith(s, pat) {
      var t := s[|pat|..];
      ReplaceAllLength(t, pat, rep);
      var k := Occurrences(t, pat);
      assert Occurrences(s, pat) == k + 1;
      MulSucc(k, |rep| - |pat|);
    } else {
      ReplaceAllLength(s[1..], pat, rep);
    }
  }

  lemma MulSucc(k: int, d: int)
    ensures (k + 1) * d == k * d + d
  {
  }

  /** `Replace` rewrites something exactly when the pattern occurs. */
  lemma {:induction false} OccurrencesContains(s: string, pat: string)
    requires |pat| > 0
    ensures Occurrences(s, pat) > 0 <==> Contains(s, pat)
    decreases |s|
  {
    if |s| == 0 {
    } else if StartsWith(s, pat) {
    } else {
      OccurrencesContains(s[1..], pat);
    }
  }

  /** A string without the pattern comes back from `Replace` unchanged. */
  lemma {:induction false} ReplaceAllAbsent(s: string, pat: string, rep: string)
    requires |pat| > 0 && !Contains(s, pat)
    ensures ReplaceAll(s, pat, rep) == s
    decreases |s|
  {
    if |s| > 0 {
      ReplaceAllAbsent(s[1..], pat, rep);
    }
  }

  /** One step of `Replace` with a one-character pattern: the first
      character, rewritten or kept, then the rest. */
  lemma ReplaceCharStep(s: string, c: char, rep: string)
    requires |s| > 0
    ensures ReplaceAll(s, [c], rep) == (if s[0] == c then rep else [s[0]]) + ReplaceAll(s[1..], [c], rep)
  {
    assert StartsWith(s, [c]) <==> s[0] == c by {
      assert s[..1] == [s[0]];
    }
  }

  /** Replacing a one-character pattern distributes over concatenation. */
  lemma {:induction false} ReplaceCharAppend(x: string, y: string, c: char, rep: string)
    ensures ReplaceAll(x + y, [c], rep) == ReplaceAll(x, [c], rep) + ReplaceAll(y, [c], rep)
    decreases |x|
  {
    if |x| == 0 {
      assert x + y == y;
    } else {
      var h := if x[0] == c then rep else [x[0]];
      assert (x + y)[1..] == x[1..] + y;
      assert (x + y)[0] == x[0];
      ReplaceCharStep(x, c, rep);
      ReplaceCharStep(x + y, c, rep);
      ReplaceCharAppend(x[1..], y, c, rep);
      assert ReplaceAll(x + y, [c], rep) == h + (ReplaceAll(x[1..], [c], rep) + ReplaceAll(y, [c], rep));
    }
  }

  /** `Replace` of a one-character pattern on one character. */
  lemma ReplaceCharSingle(a: char, c: char, rep: string)
    ensures ReplaceAll([a], [c], rep) == if a == c then rep else [a]
  {
    assert [a][1..] == [];
  }

  /** `Replace` of a one-character pattern that does not occur changes nothing. */
  lemma ReplaceCharAbsent(s: string, c: char, rep: string)
    requires c !in s
    ensures ReplaceAll(s, [c], rep) == s
  {
    ContainsChar(s, c);
    ReplaceAllAbsent(s, [c], rep);
  }

  /** Every character of a contained pattern occurs in the string. */
  lemma {:induction false} ContainsHasChar(s: string, p: string, i: nat)
    requires Contains(s, p) && i < |p|
    ensures p[i] in s
    decreases |s|
  {
    if StartsWith(s, p) {
      assert s[i] == p[i];
    } else {
      ContainsHasChar(s[1..], p, i);
      assert p[i] in s[1..];
    }
  }

  /** A pattern with a character the string lacks is not contained. */
  lemma NotContainsMissingChar(s: string, p: string, i: nat)
    requires i < |p| && p[i] !in s
    ensures !Contains(s, p)
  {
    if Contains(s, p) {
      ContainsHasChar(s, p, i);
    }
  }

  /** The three pieces of a concatenation are its slices. */
  lemma ConcatSlices<T>(a: seq<T>, b: seq<T>, c: seq<T>)
    ensures var m := a + b + c;
      m[..|a|] == a && m[|a|..|a| + |b|] == b && m[|a| + |b|..] == c
  {
  }

  /** `PadRight(width)`: appends spaces up to `width`; never truncates. */
  function PadRight(s: string, width: nat): (r: string)
    ensures |r| == if |s| >= width then |s| else width
    ensures r[..|s|] == s
    ensures forall i :: |s| <= i < |r| ==> r[i] == ' '
  {
    if |s| >= width then s else s + seq(width - |s|, _ => ' ')
  }

  /** `PadLeft(width)`: prepends spaces up to `width`; never truncates. */
  function PadLeft(s: string, width: nat): (r: string)
    ensures |r| == if |s| >= width then |s| else width
    ensures r[|r| - |s|..] == s
    ensures forall i :: 0 <= i < |r| - |s| ==> r[i] == ' '
  {
    if |s| >= width then s else seq(width - |s|, _ => ' ') + s
  }

  /** Decimal rendering of an integer, as `int.ToString()` with the invariant culture. */
  function IntToString(n: int): (r: string)
    ensures |r| > 0
    decreases if n < 0 then -n + 1 else n
  {
    if n < 0 then "-" + IntToString(-n)
    else if n < 10 then [(('0' as int) + n) as char]
    else IntToString(n / 10) + [(('0' as int) + n % 10) as char]
  }
}
