/** The Guardian summary clean-up: one `Regex.Replace(summary, "<.*?>", "")`
    pass followed by truncation to 800 characters plus "...". */
module Sanitize {
  import opened Text

  /** Characters at which a lazy `.*?` scanning for '>' stops: the '>' it is
      looking for, or a newline, which '.' does not match. */
  predicate NotStop(c: char) {
    c != '>' && c != '\n'
  }

  /** The first index at or after `i` holding '>' or '\n', or `|s|`. */
  function FirstStop(s: string, i: nat): (j: nat)
    requires i <= |s|
    ensures i <= j <= |s|
  {
    SkipForward(s, NotStop, i)
  }

  /** The pattern `<.*?>` matches at position `i`: a '<' whose first later
      stop character is a '>'. */
  predicate TagAt(s: string, i: nat)
    requires i < |s|
  {
    s[i] == '<' && FirstStop(s, i + 1) < |s| && s[FirstStop(s, i + 1)] == '>'
  }

  /** No position where the pattern matches. */
  predicate TagFree(s: string) {
    forall i :: 0 <= i < |s| ==> !TagAt(s, i)
  }

  /** The regular-expression replacement: scanning left to right, each match
      of `<.*?>` (the shortest `<...>` span on one line) is removed; a '<' with
      no '>' before the end of its line is kept. */
  function StripTags(s: string): string
    decreases |s|
  {
    if |s| == 0 then []
    else if TagAt(s, 0) then StripTags(s[FirstStop(s, 1) + 1..])
    else [s[0]] + StripTags(s[1..])
  }

  /** `FirstStop` on a string with one more character in front. */
  lemma {:induction false} FirstStopCons(c: char, t: string, i: nat)
    requires i <= |t|
    ensures FirstStop([c] + t, i + 1) == FirstStop(t, i) + 1
    decreases |t| - i
  {
    var s := [c] + t;
    assert forall k :: 0 <= k < |t| ==> s[k + 1] == t[k];
    if i < |t| && NotStop(t[i]) {
      FirstStopCons(c, t, i + 1);
    }
  }

  /** The first stop character of `s`, if any, is a newline. */
  predicate NewlineFirst(s: string) {
    FirstStop(s, 0) == |s| || s[FirstStop(s, 0)] == '\n'
  }

  /** Stripping never brings a '>' in front of the first newline. */
  lemma {:induction false} StripKeepsNewlineFirst(t: string)
    requires NewlineFirst(t)
    ensures NewlineFirst(StripTags(t))
    decreases |t|
  {
    if |t| > 0 {
      if t[0] == '\n' {
        assert StripTags(t) == [t[0]] + StripTags(t[1..]);
      } else {
        FirstStopCons(t[0], t[1..], 0);
        assert [t[0]] + t[1..] == t;
        assert FirstStop(t, 0) == FirstStop(t, 1);
        assert !TagAt(t, 0);
        StripKeepsNewlineFirst(t[1..]);
        var u := StripTags(t[1..]);
        FirstStopCons(t[0], u, 0);
        assert FirstStop([t[0]] + u, 0) == FirstStop([t[0]] + u, 1);
      }
    }
  }

  /** A string whose first character is not '<' is tag-free once its tail is. */
  lemma ConsTagFree(c: char, u: string)
    requires TagFree(u)
    requires c == '<' ==> NewlineFirst(u)
    ensures TagFree([c] + u)
  {
    var s := [c] + u;
    forall i | 0 <= i < |s|
      ensures !TagAt(s, i)
    {
      if i == 0 {
        if c == '<' {
          FirstStopCons(c, u, 0);
        }
      } else {
        assert s[i] == u[i - 1];
        FirstStopCons(c, u, i);
        assert !TagAt(u, i - 1);
      }
    }
  }

  /** After the replacement no match of `<.*?>` is left. */
  lemma {:induction false} StripTagsTagFree(s: string)
    ensures TagFree(StripTags(s))
    decreases |s|
  {
    if |s| == 0 {
    } else if TagAt(s, 0) {
      StripTagsTagFree(s[FirstStop(s, 1) + 1..]);
    } else {
      StripTagsTagFree(s[1..]);
      if s[0] == '<' {
        FirstStopCons(s[0], s[1..], 0);
        assert [s[0]] + s[1..] == s;
        SkipForwardFacts(s, NotStop, 1);
        var j := FirstStop(s, 1);
        assert j < |s| ==> s[j] == s[1..][j - 1];
        StripKeepsNewlineFirst(s[1..]);
      }
      ConsTagFree(s[0], StripTags(s[1..]));
    }
  }

  /** The replacement leaves a tag-free string unchanged. */
  lemma {:induction false} StripTagsIdentity(s: string)
    requires TagFree(s)
    ensures StripTags(s) == s
    decreases |s|
  {
    if |s| > 0 {
      assert !TagAt(s, 0);
      var t := s[1..];
      forall i | 0 <= i < |t|
        ensures !TagAt(t, i)
      {
        FirstStopCons(s[0], t, i + 1);
        assert [s[0]] + t == s;
        assert !TagAt(s, i + 1);
      }
      StripTagsIdentity(t);
    }
  }

  /** Hence a second pass changes nothing. */
  lemma StripTagsIdempotent(s: string)
    ensures StripTags(StripTags(s)) == StripTags(s)
  {
    StripTagsTagFree(s);
    StripTagsIdentity(StripTags(s));
  }

  /** The replacement only removes characters, and never a newline. */
  lemma {:induction false} StripTagsShrinks(s: string)
    ensures |StripTags(s)| <= |s|
    ensures multiset(StripTags(s))['\n'] == multiset(s)['\n']
    decreases |s|
  {
    if |s| > 0 {
      if TagAt(s, 0) {
        var j := FirstStop(s, 1);
        StripTagsShrinks(s[j + 1..]);
        SpanWithoutNewline(s, j);
      } else {
        StripTagsShrinks(s[1..]);
        assert s == [s[0]] + s[1..];
      }
    }
  }

  lemma SpanWithoutNewline(s: string, j: nat)
    requires 0 < j < |s| && j == FirstStop(s, 1) && s[0] == '<' && s[j] == '>'
    ensures multiset(s)['\n'] == multiset(s[j + 1..])['\n']
  {
    SkipForwardFacts(s, NotStop, 1);
    assert s == s[..j + 1] + s[j + 1..];
    var pre := s[..j + 1];
    forall k | 0 <= k < |pre|
      ensures pre[k] != '\n'
    {
      if 0 < k < j {
        assert NotStop(s[k]);
      }
    }
    assert '\n' !in pre;
    assert multiset(pre)['\n'] == 0;
  }

  const MaxSummaryLength: nat := 800
  const Ellipsis: string := "..."

  /** `Substring(0, 800) + "..."` for a longer summary, otherwise as is. */
  function Truncate(s: string): (r: string)
    ensures |r| <= MaxSummaryLength + |Ellipsis|
    ensures |s| <= MaxSummaryLength ==> r == s
    ensures |s| > MaxSummaryLength ==> |r| == MaxSummaryLength + |Ellipsis|
    ensures |s| > MaxSummaryLength ==> r[..MaxSummaryLength] == s[..MaxSummaryLength] && r[MaxSummaryLength..] == Ellipsis
  {
    if |s| > MaxSummaryLength then s[..MaxSummaryLength] + Ellipsis else s
  }

  /** The Guardian summary rule: an empty summary is left alone; any other is
      stripped of tags, then truncated. */
  function SanitizeSummary(s: string): (r: string)
    ensures |s| == 0 ==> r == s
    ensures |r| <= MaxSummaryLength + |Ellipsis|
    ensures |s| > 0 && |StripTags(s)| <= MaxSummaryLength ==> r == StripTags(s)
    ensures |s| > 0 && |StripTags(s)| > MaxSummaryLength ==> r == StripTags(s)[..MaxSummaryLength] + Ellipsis
    ensures TagFree(r)
  {
    if |s| == 0 then s
    else
      var t := StripTags(s);
      StripTagsTagFree(s);
      if |t| > MaxSummaryLength then
        EllipsisInert();
        TagFreeCut(t, MaxSummaryLength, Ellipsis);
        Truncate(t)
      else Truncate(t)
  }

  /** The first stop at or after `i` is `j` when everything in between is no
      stop and `j` is a stop or the end. */
  lemma FirstStopAt(s: string, i: nat, j: nat)
    requires i <= j <= |s|
    requires forall k :: i <= k < j ==> NotStop(s[k])
    requires j == |s| || !NotStop(s[j])
    ensures FirstStop(s, i) == j
  {
    SkipForwardFacts(s, NotStop, i);
  }

  /** No character of `e` can open or close a tag. */
  predicate Inert(e: string) {
    forall k :: 0 <= k < |e| ==> e[k] != '<' && NotStop(e[k])
  }

  lemma EllipsisInert()
    ensures Inert(Ellipsis)
  {
  }

  /** Cutting a string after `n` characters and appending inert text: the
      first stop after a position in the kept part is the original one when
      it is kept, otherwise the end. */
  lemma FirstStopCut(t: string, n: nat, e: string, i: nat)
    requires i <= n <= |t| && Inert(e)
    ensures var u := t[..n] + e;
      FirstStop(u, i) == if FirstStop(t, i) < n then FirstStop(t, i) else |u|
  {
    var u := t[..n] + e;
    var f := FirstStop(t, i);
    SkipForwardFacts(t, NotStop, i);
    if f < n {
      FirstStopAt(u, i, f);
    } else {
      FirstStopAt(u, i, |u|);
    }
  }

  /** A tag-free string cut short and followed by inert text stays tag-free. */
  lemma TagFreeCut(t: string, n: nat, e: string)
    requires TagFree(t) && n <= |t| && Inert(e)
    ensures TagFree(t[..n] + e)
  {
    var u := t[..n] + e;
    forall i | 0 <= i < |u|
      ensures !TagAt(u, i)
    {
      if u[i] == '<' {
        assert i < n;
        FirstStopCut(t, n, e, i + 1);
        assert !TagAt(t, i);
      }
    }
  }

  /** Cleaning a cleaned summary changes nothing: the result is tag-free, and
      a truncated one keeps its first 800 characters and the ellipsis. */
  lemma SanitizeSummaryIdempotent(s: string)
    ensures SanitizeSummary(SanitizeSummary(s)) == SanitizeSummary(s)
  {
    var r := SanitizeSummary(s);
    if |r| > 0 {
      StripTagsIdentity(r);
      if |s| > 0 && |StripTags(s)| > MaxSummaryLength {
        assert r[..MaxSummaryLength] == StripTags(s)[..MaxSummaryLength];
      }
    }
  }
}
