/** Image extraction strategies: the base `ExtractImage` of
    `RssFeedProcessor` and the BBC, CNN, ABC News and Guardian overrides. */
module Images {
  import opened Common
  import opened Text
  import opened Feed

  /** `int.TryParse`, supplied by the caller: `None` when the text is not a
      32-bit integer. */
  type IntParser = string -> Option<Int32>

  /** Index of the first extension that is a Media RSS element with this name,
      or `|exts|` when there is none (`FirstOrDefault`). */
  function FirstMedia(exts: seq<Element>, name: string): (i: nat)
    ensures i <= |exts|
    ensures i < |exts| ==> IsMedia(exts[i], name)
    ensures forall j :: 0 <= j < i ==> !IsMedia(exts[j], name)
  {
    if |exts| == 0 then 0
    else if IsMedia(exts[0], name) then 0
    else FirstMedia(exts[1..], name) + 1
  }

  /** The base strategy: the `url` of the first `media:content` when there is
      one (even when it has no `url`), otherwise the `url` of the first
      `media:thumbnail`, otherwise nothing. */
  function BaseImage(item: SyndicationItem): (r: Option<string>)
    ensures var c := FirstMedia(item.extensions, "content");
      c < |item.extensions| ==> r == Attr(item.extensions[c], "url")
    ensures var c := FirstMedia(item.extensions, "content");
      var t := FirstMedia(item.extensions, "thumbnail");
      c == |item.extensions| ==> r == (if t < |item.extensions| then Attr(item.extensions[t], "url") else None)
  {
    var exts := item.extensions;
    var c := FirstMedia(exts, "content");
    if c < |exts| then Attr(exts[c], "url")
    else
      var t := FirstMedia(exts, "thumbnail");
      if t < |exts| then Attr(exts[t], "url") else None
  }

  /** The base strategy never looks past a `media:content` that lacks a `url`:
      with such an element first, the result is null even when a thumbnail has one. */
  lemma BaseImageNoThumbnailFallback(item: SyndicationItem)
    requires exists i :: 0 <= i < |item.extensions| && IsMedia(item.extensions[i], "content")
    requires var c := FirstMedia(item.extensions, "content");
      c < |item.extensions| && "url" !in item.extensions[c].attrs
    ensures BaseImage(item).None?
  {
  }

  /** The element extensions with no Media RSS content or thumbnail yield no image. */
  lemma BaseImageNone(item: SyndicationItem)
    requires forall i :: 0 <= i < |item.extensions| ==>
      !IsMedia(item.extensions[i], "content") && !IsMedia(item.extensions[i], "thumbnail")
    ensures BaseImage(item).None?
  {
  }

  // ---------------------------------------------------------------- BBC

  const LowResSegment: string := "/240/"
  const HighResSegment: string := "/1024/"

  /** The resolution upgrade: a non-empty URL containing "/240/" has every
      occurrence rewritten to "/1024/", growing by one character each; any
      other value is kept. */
  function UpgradeResolution(u: Option<string>): (r: Option<string>)
    ensures r.None? <==> u.None?
    ensures IsNullOrEmpty(u) || !Contains(u.value, LowResSegment) ==> r == u
    ensures r != u ==> |r.value| == |u.value| + Occurrences(u.value, LowResSegment)
  {
    if !IsNullOrEmpty(u) && Contains(u.value, LowResSegment) then
      ReplaceAllLength(u.value, LowResSegment, HighResSegment);
      Some(ReplaceAll(u.value, LowResSegment, HighResSegment))
    else u
  }

  /** BBC: the base result, with every "/240/" rewritten to "/1024/" when the
      base result is non-empty and contains it. */
  function BbcImage(item: SyndicationItem): (r: Option<string>)
    ensures var b := BaseImage(item);
      && (r.None? <==> b.None?)
      && (IsNullOrEmpty(b) || !Contains(b.value, LowResSegment) ==> r == b)
      && (!IsNullOrEmpty(b) && Contains(b.value, LowResSegment) ==>
            r == Some(ReplaceAll(b.value, LowResSegment, HighResSegment)))
  {
    UpgradeResolution(BaseImage(item))
  }

  /** A URL the BBC rewrite touches grows by one character per rewritten
      segment, so it always differs from the base result. */
  lemma BbcRewriteChangesUrl(item: SyndicationItem)
    requires !IsNullOrEmpty(BaseImage(item)) && Contains(BaseImage(item).value, LowResSegment)
    ensures var b := BaseImage(item).value;
      && BbcImage(item).Some?
      && |BbcImage(item).value| == |b| + Occurrences(b, LowResSegment)
      && BbcImage(item).value != b
  {
    var b := BaseImage(item).value;
    ReplaceAllLength(b, LowResSegment, HighResSegment);
    OccurrencesContains(b, LowResSegment);
  }

  /** The rewrite is a single left-to-right pass over non-overlapping
      occurrences: "/240/240/" becomes "/1024/240/", which still contains "/240/". */
  lemma BbcRewriteSinglePass()
    ensures ReplaceAll("/240/240/", LowResSegment, HighResSegment) == "/1024/240/"
    ensures Contains("/1024/240/", LowResSegment)
  {
    var s := "/240/240/";
    assert StartsWith(s, LowResSegment);
    assert s[5..] == "240/";
    var t := "240/";
    assert !StartsWith(t, LowResSegment);
    assert t[1..] == "40/" && !StartsWith("40/", LowResSegment);
    assert "40/"[1..] == "0/" && !StartsWith("0/", LowResSegment);
    assert "0/"[1..] == "/" && !StartsWith("/", LowResSegment);
    assert "/"[1..] == [];
    assert ReplaceAll("/", LowResSegment, HighResSegment) == "/";
    assert ReplaceAll("0/", LowResSegment, HighResSegment) == "0/";
    assert ReplaceAll("40/", LowResSegment, HighResSegment) == "40/";
    assert ReplaceAll("240/", LowResSegment, HighResSegment) == "240/";
    var u := "/1024/240/";
    assert u[5..10] == LowResSegment;
    ContainsAt(u, LowResSegment, 5);
  }

  // ---------------------------------------------------------------- CNN

  /** A `media:content` child of a group whose `medium` is "image". */
  predicate IsImageContent(e: Element) {
    IsMedia(e, "content") && Attr(e, "medium") == Some("image")
  }

  /** Index of the first image content child, or `|children|`. */
  function FirstImageContent(children: seq<Element>): (i: nat)
    ensures i <= |children|
    ensures i < |children| ==> IsImageContent(children[i])
    ensures forall j :: 0 <= j < i ==> !IsImageContent(children[j])
  {
    if |children| == 0 then 0
    else if IsImageContent(children[0]) then 0
    else FirstImageContent(children[1..]) + 1
  }

  /** CNN: a non-empty base result as is; otherwise the `url` of the first
      image `content` child of the first `media:group`, if any. */
  function CnnImage(item: SyndicationItem): (r: Option<string>)
    ensures var b := BaseImage(item); !IsNullOrEmpty(b) ==> r == b
    ensures var b := BaseImage(item); var g := FirstMedia(item.extensions, "group");
      IsNullOrEmpty(b) && g == |item.extensions| ==> r.None?
    ensures var b := BaseImage(item); var g := FirstMedia(item.extensions, "group");
      IsNullOrEmpty(b) && g < |item.extensions| ==>
        var kids := item.extensions[g].children;
        && (r.Some? ==> exists i :: 0 <= i < |kids| && IsImageContent(kids[i]) && Attr(kids[i], "url") == r
                                    && forall j :: 0 <= j < i ==> !IsImageContent(kids[j]))
        && ((forall i :: 0 <= i < |kids| ==> !IsImageContent(kids[i])) ==> r.None?)
    ensures var b := BaseImage(item); var g := FirstMedia(item.extensions, "group");
      IsNullOrEmpty(b) && g < |item.extensions| ==>
        var kids := item.extensions[g].children;
        forall i :: 0 <= i < |kids| && IsImageContent(kids[i]) && (forall j :: 0 <= j < i ==> !IsImageContent(kids[j])) ==>
          r == Attr(kids[i], "url")
  {
    var b := BaseImage(item);
    if !IsNullOrEmpty(b) then b
    else
      var exts := item.extensions;
      var g := FirstMedia(exts, "group");
      if g == |exts| then None
      else
        var kids := exts[g].children;
        var i := FirstImageContent(kids);
        if i == |kids| then None else Attr(kids[i], "url")
  }

  /** What CNN's rule returns, stated without computing it: a usable base
      result; else nothing without a group; else the `url` of the first image
      content of the first group, or nothing when it has none. */
  predicate CnnChoice(item: SyndicationItem, r: Option<string>) {
    var b := BaseImage(item);
    var g := FirstMedia(item.extensions, "group");
    if !IsNullOrEmpty(b) then r == b
    else if g == |item.extensions| then r.None?
    else
      var kids := item.extensions[g].children;
      && ((forall i :: 0 <= i < |kids| ==> !IsImageContent(kids[i])) ==> r.None?)
      && (forall i :: 0 <= i < |kids| && IsImageContent(kids[i]) && (forall j :: 0 <= j < i ==> !IsImageContent(kids[j])) ==>
            r == Attr(kids[i], "url"))
  }

  /** The choice is determined: `CnnImage` makes it, and nothing else does. */
  lemma CnnChoiceUnique(item: SyndicationItem, r: Option<string>)
    ensures CnnChoice(item, CnnImage(item))
    ensures CnnChoice(item, r) ==> r == CnnImage(item)
  {
    var b := BaseImage(item);
    var g := FirstMedia(item.extensions, "group");
    if IsNullOrEmpty(b) && g < |item.extensions| {
      var kids := item.extensions[g].children;
      var i := FirstImageContent(kids);
      if i < |kids| {
        assert IsImageContent(kids[i]) && forall j :: 0 <= j < i ==> !IsImageContent(kids[j]);
      }
    }
  }

  /** Only the first group counts: image content in a later group is never used. */
  lemma CnnOnlyFirstGroup(item: SyndicationItem)
    requires IsNullOrEmpty(BaseImage(item))
    requires var g := FirstMedia(item.extensions, "group");
      g < |item.extensions| &&
      forall i :: 0 <= i < |item.extensions[g].children| ==> !IsImageContent(item.extensions[g].children[i])
    ensures CnnImage(item).None?
  {
  }

  // ------------------------------------------------- best-of-N selection

  /** The position `OrderByDescending(key).FirstOrDefault()` picks: a maximal
      key, and the earliest such (the sort is stable). */
  function BestIndex<T>(s: seq<T>, key: T -> int): (i: nat)
    requires |s| > 0
    ensures i < |s|
    ensures forall j :: 0 <= j < |s| ==> key(s[j]) <= key(s[i])
    ensures forall j :: 0 <= j < i ==> key(s[j]) < key(s[i])
  {
    if |s| == 1 then 0
    else
      var k := BestIndex(s[1..], key) + 1;
      assert forall j :: 1 <= j < |s| ==> s[j] == s[1..][j - 1];
      if key(s[0]) >= key(s[k]) then 0 else k
  }

  /** Two candidates with the same key: the earlier one wins. */
  lemma BestIndexTieEarliest<T>(s: seq<T>, key: T -> int, a: nat, b: nat)
    requires a < b < |s| && key(s[a]) == key(s[b])
    ensures BestIndex(s, key) != b
  {
  }

  /** The integer an optional attribute parses to, 0 when absent or unparseable. */
  function ParsedOrZero(e: Element, key: string, parseInt: IntParser): (v: Int32)
    ensures Attr(e, key).Some? && parseInt(Attr(e, key).value).Some? ==> v == parseInt(Attr(e, key).value).value
    ensures Attr(e, key).None? || parseInt(Attr(e, key).value).None? ==> v == 0
  {
    match Attr(e, key)
    case None => 0
    case Some(t) => parseInt(t).GetOr(0)
  }

  // ---------------------------------------------------------------- ABC

  /** A `media:thumbnail` that has a `url`. */
  predicate IsAbcCandidate(e: Element) {
    IsMedia(e, "thumbnail") && Attr(e, "url").Some?
  }

  /** The thumbnails ABC News considers, in document order. */
  function AbcCandidates(exts: seq<Element>): (c: seq<Element>)
    ensures forall i :: 0 <= i < |c| ==> IsAbcCandidate(c[i])
    ensures forall e :: e in c <==> e in exts && IsAbcCandidate(e)
  {
    if |exts| == 0 then []
    else if IsAbcCandidate(exts[0]) then [exts[0]] + AbcCandidates(exts[1..])
    else AbcCandidates(exts[1..])
  }

  /** The ranking key `width * 1000 + height` evaluated as C#'s unchecked
      32-bit `int` does. */
  function AbcKeyAsWritten(e: Element, parseInt: IntParser): Int32 {
    Wrap32(ParsedOrZero(e, "width", parseInt) * 1000 + ParsedOrZero(e, "height", parseInt))
  }

  /** The ranking key `width * 1000 + height` on unbounded integers. */
  function AbcKey(e: Element, parseInt: IntParser): int {
    ParsedOrZero(e, "width", parseInt) * 1000 + ParsedOrZero(e, "height", parseInt)
  }

  /** ABC News as the source computes it: among the thumbnails that have a
      `url`, the one maximising the wrapped key, earliest on ties. */
  function AbcImageAsWritten(item: SyndicationItem, parseInt: IntParser): (r: Option<string>)
    ensures var c := AbcCandidates(item.extensions);
      && (|c| == 0 <==> r.None?)
      && (r.Some? ==> exists i :: 0 <= i < |c| && Attr(c[i], "url") == r &&
                        (forall j :: 0 <= j < |c| ==> AbcKeyAsWritten(c[j], parseInt) <= AbcKeyAsWritten(c[i], parseInt)) &&
                        (forall j :: 0 <= j < i ==> AbcKeyAsWritten(c[j], parseInt) < AbcKeyAsWritten(c[i], parseInt)))
  {
    var c := AbcCandidates(item.extensions);
    if |c| == 0 then None
    else Attr(c[BestIndex(c, e => AbcKeyAsWritten(e, parseInt))], "url")
  }

  /** ABC News as intended: among the thumbnails that have a `url`, the one
      maximising `width * 1000 + height` on exact integers (unparseable
      counting as 0), earliest on ties; `media:content` is ignored and the
      base strategy is not consulted. */
  function AbcImage(item: SyndicationItem, parseInt: IntParser): (r: Option<string>)
    ensures var c := AbcCandidates(item.extensions);
      && (|c| == 0 <==> r.None?)
      && (r.Some? ==> exists i :: 0 <= i < |c| && Attr(c[i], "url") == r &&
                        (forall j :: 0 <= j < |c| ==> AbcKey(c[j], parseInt) <= AbcKey(c[i], parseInt)) &&
                        (forall j :: 0 <= j < i ==> AbcKey(c[j], parseInt) < AbcKey(c[i], parseInt)))
  {
    var c := AbcCandidates(item.extensions);
    if |c| == 0 then None
    else Attr(c[BestIndex(c, e => AbcKey(e, parseInt))], "url")
  }

  /** With heights in 0..999 the key orders thumbnails by width, then by height. */
  lemma AbcKeyIsWidthThenHeight(w1: int, h1: int, w2: int, h2: int)
    requires 0 <= h1 < 1000 && 0 <= h2 < 1000
    ensures w1 * 1000 + h1 < w2 * 1000 + h2 <==> (w1 < w2 || (w1 == w2 && h1 < h2))
  {
  }

  /** A height of 1000 breaks that ordering: a 0x1000 thumbnail listed first
      ties with a wider 1x0 one and wins the tie. */
  lemma AbcKeyHeightOverflow()
    ensures var tall := Element("thumbnail", MediaRssNamespace, map["url" := "tall", "width" := "0", "height" := "1000"], []);
      var wide := Element("thumbnail", MediaRssNamespace, map["url" := "wide", "width" := "1"], []);
      var item := SyndicationItem([], None, None, MinInstant, MinInstant, [tall, wide]);
      var parse := (t: string) => if t == "1000" then Some(1000) else if t == "1" then Some(1) else if t == "0" then Some(0) else None;
      AbcImage(item, parse) == Some("tall")
  {
    var tall := Element("thumbnail", MediaRssNamespace, map["url" := "tall", "width" := "0", "height" := "1000"], []);
    var wide := Element("thumbnail", MediaRssNamespace, map["url" := "wide", "width" := "1"], []);
    var item := SyndicationItem([], None, None, MinInstant, MinInstant, [tall, wide]);
    var parse := (t: string) => if t == "1000" then Some(1000) else if t == "1" then Some(1) else if t == "0" then Some(0) else None;
    assert IsAbcCandidate(tall) && IsAbcCandidate(wide);
    assert AbcCandidates([wide]) == [wide];
    assert AbcCandidates(item.extensions) == [tall, wide];
    assert "1000" != "1" && "1000" != "0" && "1" != "0";
    assert ParsedOrZero(tall, "width", parse) == 0;
    assert ParsedOrZero(tall, "height", parse) == 1000;
    assert ParsedOrZero(wide, "width", parse) == 1;
    assert ParsedOrZero(wide, "height", parse) == 0;
    assert AbcKey(tall, parse) == AbcKey(wide, parse) == 1000;
  }

  /** Without overflow the wrapped key is the exact key, so the two readings agree. */
  lemma AbcKeysAgreeInRange(item: SyndicationItem, parseInt: IntParser)
    requires forall i :: 0 <= i < |AbcCandidates(item.extensions)| ==>
      MinInt32 <= AbcKey(AbcCandidates(item.extensions)[i], parseInt) <= MaxInt32
    ensures AbcImageAsWritten(item, parseInt) == AbcImage(item, parseInt)
  {
    var c := AbcCandidates(item.extensions);
    if |c| > 0 {
      var f := e => AbcKeyAsWritten(e, parseInt);
      var g := e => AbcKey(e, parseInt);
      assert forall i :: 0 <= i < |c| ==> f(c[i]) == g(c[i]);
      BestIndexSameKeys(c, f, g);
    }
  }

  lemma {:induction false} BestIndexSameKeys<T>(s: seq<T>, f: T -> int, g: T -> int)
    requires |s| > 0
    requires forall i :: 0 <= i < |s| ==> f(s[i]) == g(s[i])
    ensures BestIndex(s, f) == BestIndex(s, g)
  {
    if |s| > 1 {
      BestIndexSameKeys(s[1..], f, g);
    }
  }

  /** The overflow: a 3000000-pixel-wide thumbnail wraps to a negative key and
      loses to a 100-pixel one, although the exact key prefers it. */
  lemma AbcWrapPicksNarrower()
    ensures var wide := Element("thumbnail", MediaRssNamespace, map["url" := "wide", "width" := "3000000"], []);
      var narrow := Element("thumbnail", MediaRssNamespace, map["url" := "narrow", "width" := "100"], []);
      var item := SyndicationItem([], None, None, MinInstant, MinInstant, [wide, narrow]);
      var parse := (t: string) => if t == "3000000" then Some(3000000) else if t == "100" then Some(100) else None;
      && AbcImageAsWritten(item, parse) == Some("narrow")
      && AbcImage(item, parse) == Some("wide")
  {
    var wide := Element("thumbnail", MediaRssNamespace, map["url" := "wide", "width" := "3000000"], []);
    var narrow := Element("thumbnail", MediaRssNamespace, map["url" := "narrow", "width" := "100"], []);
    var item := SyndicationItem([], None, None, MinInstant, MinInstant, [wide, narrow]);
    var parse := (t: string) => if t == "3000000" then Some(3000000) else if t == "100" then Some(100) else None;
    assert IsAbcCandidate(wide) && IsAbcCandidate(narrow);
    assert AbcCandidates([narrow]) == [narrow];
    assert AbcCandidates(item.extensions) == [wide, narrow];
    assert "3000000" != "100";
    assert ParsedOrZero(wide, "width", parse) == 3000000;
    assert ParsedOrZero(wide, "height", parse) == 0;
    assert ParsedOrZero(narrow, "width", parse) == 100;
    assert ParsedOrZero(narrow, "height", parse) == 0;
    assert AbcKeyAsWritten(wide, parse) == -1294967296;
    assert AbcKeyAsWritten(narrow, parse) == 100000;
  }

  // ------------------------------------------------------------ Guardian

  /** A `media:content` with a `url` whose `medium` is "image" or absent. */
  predicate IsGuardianCandidate(e: Element) {
    && IsMedia(e, "content")
    && (Attr(e, "medium") == Some("image") || Attr(e, "medium").None?)
    && Attr(e, "url").Some?
  }

  function GuardianCandidates(exts: seq<Element>): (c: seq<Element>)
    ensures forall i :: 0 <= i < |c| ==> IsGuardianCandidate(c[i])
    ensures forall e :: e in c <==> e in exts && IsGuardianCandidate(e)
  {
    if |exts| == 0 then []
    else if IsGuardianCandidate(exts[0]) then [exts[0]] + GuardianCandidates(exts[1..])
    else GuardianCandidates(exts[1..])
  }

  function GuardianWidth(e: Element, parseInt: IntParser): int {
    ParsedOrZero(e, "width", parseInt)
  }

  /** Guardian: the widest image content (unparseable width counting as 0),
      earliest on ties; never the base strategy, never a thumbnail. */
  function GuardianImage(item: SyndicationItem, parseInt: IntParser): (r: Option<string>)
    ensures var c := GuardianCandidates(item.extensions);
      && (|c| == 0 <==> r.None?)
      && (r.Some? ==> exists i :: 0 <= i < |c| && Attr(c[i], "url") == r &&
                        (forall j :: 0 <= j < |c| ==> GuardianWidth(c[j], parseInt) <= GuardianWidth(c[i], parseInt)) &&
                        (forall j :: 0 <= j < i ==> GuardianWidth(c[j], parseInt) < GuardianWidth(c[i], parseInt)))
  {
    var c := GuardianCandidates(item.extensions);
    if |c| == 0 then None
    else Attr(c[BestIndex(c, e => GuardianWidth(e, parseInt))], "url")
  }

  /** Guardian ignores thumbnails entirely: an item whose only media is a
      thumbnail has no image, where the base strategy would return its `url`. */
  lemma GuardianIgnoresThumbnails(item: SyndicationItem, parseInt: IntParser)
    requires forall i :: 0 <= i < |item.extensions| ==> !IsMedia(item.extensions[i], "content")
    ensures GuardianImage(item, parseInt).None?
  {
  }
}
