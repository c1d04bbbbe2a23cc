/** The translation workflow of `TranslationController`: listing the news
    not yet in a language's collection, and merging an uploaded file of
    translations into that collection. The `News` collection and the
    language's `News_{lang}` collection are sequences in store order. */
module Translation {
  import opened Common
  import opened Text
  import opened Feed
  import opened Sorting

  /** One entry of the downloaded or uploaded JSON list. An explicit JSON
      `null` is `None`; a property the upload leaves out keeps the DTO's
      initial value `string.Empty`, so it arrives as `Some("")`. */
  datatype TranslateDto = TranslateDto(id: Option<string>, title: Option<string>, summary: Option<string>)

  // ------------------------------------------------------------ untranslated

  /** The links of a language's collection, in store order. */
  function LinksOf(translated: seq<NewsItem>): (r: seq<string>)
    ensures |r| == |translated| && forall i :: 0 <= i < |r| ==> r[i] == translated[i].link
  {
    seq(|translated|, i requires 0 <= i < |translated| => translated[i].link)
  }

  /** The originals whose link is not among `links`, in store order
      (`Filter.Nin(x => x.Link, links)`). */
  function NotIn(originals: seq<NewsItem>, links: seq<string>): (r: seq<NewsItem>)
    ensures |r| <= |originals|
    ensures forall i :: 0 <= i < |r| ==> r[i] in originals && r[i].link !in links
    ensures forall i :: 0 <= i < |originals| && originals[i].link !in links ==> originals[i] in r
  {
    if |originals| == 0 then []
    else (if originals[0].link in links then [] else [originals[0]]) + NotIn(originals[1..], links)
  }

  /** The originals not yet translated: filtered by the translated links
      when there are any, else all of them (`Filter.Empty`). */
  function Untranslated(originals: seq<NewsItem>, translated: seq<NewsItem>): seq<NewsItem> {
    var links := LinksOf(translated);
    if |links| > 0 then NotIn(originals, links) else originals
  }

  /** The shortcut for an empty language collection selects what the filter
      would: an original is untranslated exactly when no translated record
      has its link. */
  lemma UntranslatedMeansNoLink(originals: seq<NewsItem>, translated: seq<NewsItem>)
    ensures Untranslated(originals, translated) == NotIn(originals, LinksOf(translated))
    ensures forall o :: o in Untranslated(originals, translated) <==>
      o in originals && forall j :: 0 <= j < |translated| ==> translated[j].link != o.link
  {
    if |translated| == 0 {
      NotInNothing(originals);
    }
    var links := LinksOf(translated);
    forall o | o in originals
      ensures o.link in links <==> exists j :: 0 <= j < |translated| && translated[j].link == o.link
    {
      if o.link in links {
        var j :| 0 <= j < |links| && links[j] == o.link;
      }
    }
  }

  lemma {:induction false} NotInNothing(originals: seq<NewsItem>)
    ensures NotIn(originals, []) == originals
    decreases |originals|
  {
    if |originals| > 0 {
      NotInNothing(originals[1..]);
    }
  }

  /** `GetUntranslatedCountAsync`, shown by `Index`. */
  function UntranslatedCount(originals: seq<NewsItem>, translated: seq<NewsItem>): (r: nat)
    ensures r <= |originals|
    ensures |translated| == 0 ==> r == |originals|
    ensures r == 0 <==> forall i :: 0 <= i < |originals| ==> originals[i].link in LinksOf(translated)
  {
    UntranslatedMeansNoLink(originals, translated);
    NotInEmpty(originals, LinksOf(translated));
    |Untranslated(originals, translated)|
  }

  /** The filter keeps nothing exactly when every original's link is listed. */
  lemma NotInEmpty(originals: seq<NewsItem>, links: seq<string>)
    ensures |NotIn(originals, links)| == 0 <==> forall i :: 0 <= i < |originals| ==> originals[i].link in links
  {
    var r := NotIn(originals, links);
    if |r| > 0 {
      assert r[0] in originals && r[0].link !in links;
    }
  }

  // --------------------------------------------------------------- download

  /** Mongo's `Limit(n)`: no limit for 0, at most `|n|` documents otherwise. */
  function Limit<T>(s: seq<T>, n: int): (r: seq<T>)
    ensures |r| <= |s| && r == s[..|r|]
    ensures n == 0 ==> r == s
    ensures n != 0 ==> |r| == if |s| <= Abs(n) then |s| else Abs(n)
  {
    if n == 0 || |s| <= Abs(n) then s else s[..Abs(n)]
  }

  function Abs(n: int): nat {
    if n < 0 then -n else n
  }

  /** The sort key of `SortByDescending(x => x.PublishDate)`. */
  function Latest(n: NewsItem): int {
    -n.publishDate
  }

  /** The projection written to the download file. */
  function ToDto(n: NewsItem): TranslateDto {
    TranslateDto(n.id, Some(n.title), Some(n.summary))
  }

  /** The originals `GetUntranslatedNewsAsync` picks: the untranslated
      ones, latest first, limited. */
  function Picked(originals: seq<NewsItem>, translated: seq<NewsItem>, limit: int): seq<NewsItem> {
    Limit(SortBy(Untranslated(originals, translated), Latest), limit)
  }

  /** `GetUntranslatedNewsAsync`: the picked originals as file entries. */
  function UntranslatedNews(originals: seq<NewsItem>, translated: seq<NewsItem>, limit: int): (r: seq<TranslateDto>)
    ensures var p := Picked(originals, translated, limit);
      |r| == |p| && forall i :: 0 <= i < |r| ==> r[i] == ToDto(p[i])
  {
    var p := Picked(originals, translated, limit);
    seq(|p|, i requires 0 <= i < |p| => ToDto(p[i]))
  }

  /** The download lists untranslated originals only, latest first: all of
      them for a zero limit, else at most `|limit|`. */
  lemma PickedLatestFirst(originals: seq<NewsItem>, translated: seq<NewsItem>, limit: int)
    ensures var u := Untranslated(originals, translated);
      var p := Picked(originals, translated, limit);
      && |p| == (if limit == 0 || |u| <= Abs(limit) then |u| else Abs(limit))
      && multiset(p) <= multiset(u)
      && (forall i, j :: 0 <= i < j < |p| ==> p[i].publishDate >= p[j].publishDate)
  {
    var u := Untranslated(originals, translated);
    var s := SortBy(u, Latest);
    SortBySorted(u, Latest);
    SortByPermutes(u, Latest);
    var p := Picked(originals, translated, limit);
    LatestPrefix(s, u, |p|);
  }

  /** A prefix of a latest-first permutation of `u`: latest first, and drawn from `u`. */
  lemma LatestPrefix(s: seq<NewsItem>, u: seq<NewsItem>, n: nat)
    requires n <= |s| && SortedBy(s, Latest) && multiset(s) == multiset(u)
    ensures multiset(s[..n]) <= multiset(u)
    ensures forall i, j :: 0 <= i < j < n ==> s[..n][i].publishDate >= s[..n][j].publishDate
  {
    assert s == s[..n] + s[n..];
    assert forall i, j :: 0 <= i < j < n ==> Latest(s[i]) <= Latest(s[j]);
  }

  /** An untranslated original left out of the download is left out only
      because of the limit, and is no later than any listed one. */
  lemma PickedTop(originals: seq<NewsItem>, translated: seq<NewsItem>, limit: int, o: NewsItem)
    requires o in Untranslated(originals, translated) && o !in Picked(originals, translated, limit)
    ensures limit != 0
    ensures forall i :: 0 <= i < |Picked(originals, translated, limit)| ==>
      Picked(originals, translated, limit)[i].publishDate >= o.publishDate
  {
    var u := Untranslated(originals, translated);
    var s := SortBy(u, Latest);
    SortBySorted(u, Latest);
    SortByPermutes(u, Latest);
    assert o in multiset(s);
    var k :| 0 <= k < |s| && s[k] == o;
    var p := Picked(originals, translated, limit);
    assert k >= |p|;
    forall i | 0 <= i < |p|
      ensures p[i].publishDate >= o.publishDate
    {
      assert p[i] == s[i];
      assert Latest(s[i]) <= Latest(s[k]);
    }
  }

  datatype DownloadResult = BadRequest | JsonFile(fileName: string, entries: seq<TranslateDto>)

  /** `Download`: a missing language is a bad request; otherwise the file
      `untranslated_{lang}.json` with the untranslated news. */
  function Download(lang: Option<string>, limit: int, originals: seq<NewsItem>, translated: seq<NewsItem>): (r: DownloadResult)
    ensures r.BadRequest? <==> IsNullOrEmpty(lang)
    ensures r.JsonFile? ==> r.fileName == "untranslated_" + lang.value + ".json"
    ensures r.JsonFile? ==> r.entries == UntranslatedNews(originals, translated, limit)
  {
    if IsNullOrEmpty(lang) then BadRequest
    else JsonFile("untranslated_" + lang.value + ".json", UntranslatedNews(originals, translated, limit))
  }

  // ------------------------------------------------------------------- save

  /** The non-empty ids of the upload, in order. */
  function IncomingIds(items: seq<TranslateDto>): (r: seq<string>)
    ensures forall i :: 0 <= i < |items| && !IsNullOrEmpty(items[i].id) ==> items[i].id.value in r
    ensures forall x :: x in r ==> x != []
    ensures |r| == 0 <==> forall i :: 0 <= i < |items| ==> IsNullOrEmpty(items[i].id)
  {
    if |items| == 0 then []
    else (if IsNullOrEmpty(items[0].id) then [] else [items[0].id.value]) + IncomingIds(items[1..])
  }

  /** The originals whose id is among `ids` (`Find(x => incomingIds.Contains(x.Id!))`). */
  function WithIds(originals: seq<NewsItem>, ids: seq<string>): (r: seq<NewsItem>)
    ensures forall i :: 0 <= i < |r| ==> r[i].id.Some? && r[i].id.value in ids
    ensures ids == [] ==> r == []
    decreases |originals|
  {
    if |originals| == 0 then []
    else (if originals[0].id.Some? && originals[0].id.value in ids then [originals[0]] else []) + WithIds(originals[1..], ids)
  }

  /** The original stored under `id`, if any (`_id` is unique in the store). */
  function Lookup(originals: seq<NewsItem>, id: string): (r: Option<NewsItem>)
    ensures r.Some? ==> r.value in originals && r.value.id == Some(id)
    ensures r.None? ==> forall i :: 0 <= i < |originals| ==> originals[i].id != Some(id)
  {
    if |originals| == 0 then None
    else if originals[0].id == Some(id) then Some(originals[0])
    else Lookup(originals[1..], id)
  }

  /** The one query for the originals fetches every original an uploaded id
      can name: looking an incoming id up among them finds what looking it up
      in the whole collection does. */
  lemma {:induction false} WithIdsLookup(originals: seq<NewsItem>, ids: seq<string>, id: string)
    requires id in ids
    ensures Lookup(WithIds(originals, ids), id) == Lookup(originals, id)
    decreases |originals|
  {
    if |originals| > 0 {
      WithIdsLookup(originals[1..], ids, id);
      var head := if originals[0].id.Some? && originals[0].id.value in ids then [originals[0]] else [];
      var rest := WithIds(originals[1..], ids);
      assert WithIds(originals, ids) == head + rest;
      if head == [] {
        assert head + rest == rest;
      } else {
        assert (head + rest)[1..] == rest;
      }
    }
  }

  /** An upload entry the loop turns into a record: a non-empty id naming an
      original whose link is not yet in the language's collection. */
  predicate Accepted(it: TranslateDto, dict: seq<NewsItem>, existing: set<string>) {
    && !IsNullOrEmpty(it.id)
    && Lookup(dict, it.id.value).Some?
    && Lookup(dict, it.id.value).value.link !in existing
  }

  /** Whether `Trim()` can be called on both texts. */
  predicate Complete(it: TranslateDto) {
    it.title.Some? && it.summary.Some?
  }

  /** The record built for an accepted entry: the translated texts trimmed,
      everything else from the original, and a fresh id. */
  function Translate(it: TranslateDto, orig: NewsItem): (r: NewsItem)
    requires Complete(it)
    ensures Trimmed(r.title) && Trimmed(r.summary)
  {
    NewsItem(None, Trim(it.title.value), Trim(it.summary.value), orig.link, orig.imageUrl, orig.publishDate, orig.source)
  }

  /** The loop over the upload; `None` when `Trim()` meets a null text. The
      set of existing links is fixed before the loop, so it does not see the
      records the loop builds. */
  function BuildRecords(items: seq<TranslateDto>, dict: seq<NewsItem>, existing: set<string>): (r: Option<seq<NewsItem>>)
    ensures r.Some? <==> forall i :: 0 <= i < |items| && Accepted(items[i], dict, existing) ==> Complete(items[i])
    ensures r.Some? ==> |r.value| <= |items|
    decreases |items|
  {
    if |items| == 0 then Some([])
    else
      var it := items[0];
      if !Accepted(it, dict, existing) then BuildRecords(items[1..], dict, existing)
      else if !Complete(it) then None
      else
        match BuildRecords(items[1..], dict, existing)
        case None => None
        case Some(rs) => Some([Translate(it, Lookup(dict, it.id.value).value)] + rs)
  }

  /** The accepted entries with their originals, in upload order. */
  function AcceptedPairs(items: seq<TranslateDto>, dict: seq<NewsItem>, existing: set<string>): (r: seq<(TranslateDto, NewsItem)>)
    ensures forall k :: 0 <= k < |r| ==>
      Accepted(r[k].0, dict, existing) && Lookup(dict, r[k].0.id.value) == Some(r[k].1) && r[k].0 in items
    decreases |items|
  {
    if |items| == 0 then []
    else
      var it := items[0];
      var rest := AcceptedPairs(items[1..], dict, existing);
      if Accepted(it, dict, existing) then [(it, Lookup(dict, it.id.value).value)] + rest else rest
  }

  /** No accepted entry is dropped. */
  lemma {:induction false} AcceptedPairsComplete(items: seq<TranslateDto>, dict: seq<NewsItem>, existing: set<string>, i: nat)
    requires i < |items| && Accepted(items[i], dict, existing)
    ensures exists k :: 0 <= k < |AcceptedPairs(items, dict, existing)| && AcceptedPairs(items, dict, existing)[k].0 == items[i]
    decreases |items|
  {
    var r := AcceptedPairs(items, dict, existing);
    if i == 0 {
      assert r[0].0 == items[0];
    } else {
      AcceptedPairsComplete(items[1..], dict, existing, i - 1);
      var rest := AcceptedPairs(items[1..], dict, existing);
      var k :| 0 <= k < |rest| && rest[k].0 == items[i];
      if Accepted(items[0], dict, existing) {
        assert r[k + 1] == rest[k];
      } else {
        assert r[k] == rest[k];
      }
    }
  }

  /** One record per accepted entry, in upload order, each built from the
      entry and the original its id names. */
  lemma {:induction false} BuildRecordsArePairs(items: seq<TranslateDto>, dict: seq<NewsItem>, existing: set<string>)
    requires BuildRecords(items, dict, existing).Some?
    ensures var rs := BuildRecords(items, dict, existing).value;
      var ps := AcceptedPairs(items, dict, existing);
      |rs| == |ps| && forall k :: 0 <= k < |ps| ==> Complete(ps[k].0) && rs[k] == Translate(ps[k].0, ps[k].1)
    decreases |items|
  {
    if |items| > 0 {
      BuildRecordsArePairs(items[1..], dict, existing);
    }
  }

  datatype SaveResult = SaveFailed | SaveDone(records: seq<NewsItem>)

  predicate IsHexDigit(c: char) {
    '0' <= c <= '9' || 'a' <= c <= 'f' || 'A' <= c <= 'F'
  }

  /** Text `ObjectId.Parse` accepts: 24 hexadecimal digits. */
  predicate IsObjectIdText(id: string) {
    |id| == 24 && forall k :: 0 <= k < |id| ==> IsHexDigit(id[k])
  }

  /** An entry whose non-empty id is not an ObjectId. `Id` is mapped with an
      ObjectId representation (ForNewsRSS/NewsItem.cs:6-8), so the filter
      `incomingIds.Contains(x.Id!)` serialises every incoming id as an
      ObjectId, and one such entry makes it throw `FormatException` before
      any document is read. */
  predicate BadId(it: TranslateDto) {
    !IsNullOrEmpty(it.id) && !IsObjectIdText(it.id.value)
  }

  /** `SaveTranslationsAsync`: the records built (their number is the return
      value), or a failure. */
  function SaveTranslations(items: Option<seq<TranslateDto>>, originals: seq<NewsItem>, translated: seq<NewsItem>): (r: SaveResult)
    ensures items.None? || items == Some([]) ==> r == SaveDone([])
    ensures items.Some? && (forall i :: 0 <= i < |items.value| ==> IsNullOrEmpty(items.value[i].id)) ==> r == SaveDone([])
    ensures items.Some? && (exists i :: 0 <= i < |items.value| && BadId(items.value[i])) ==> r == SaveFailed
    ensures r.SaveDone? ==> |r.records| <= if items.None? then 0 else |items.value|
  {
    if items.None? || |items.value| == 0 then SaveDone([])
    else
      var ids := IncomingIds(items.value);
      if |ids| == 0 then SaveDone([])
      else if exists i :: 0 <= i < |items.value| && BadId(items.value[i]) then SaveFailed
      else
        var dict := WithIds(originals, ids);
        var existing := set l | l in LinksOf(translated);
        match BuildRecords(items.value, dict, existing)
        case None => SaveFailed
        case Some(rs) => SaveDone(rs)
  }

  /** The language's collection after a save: `InsertMany` appends the
      records, and only when there are some. */
  function AfterSave(translated: seq<NewsItem>, r: SaveResult): seq<NewsItem> {
    if r.SaveDone? && |r.records| > 0 then translated + r.records else translated
  }

  /** An id that is not an ObjectId fails the save; otherwise the early
      returns are shortcuts: without them the loop over the same upload,
      against the whole `News` collection, builds the same records. */
  lemma SaveIsTheLoop(items: seq<TranslateDto>, originals: seq<NewsItem>, translated: seq<NewsItem>)
    ensures (exists i :: 0 <= i < |items| && BadId(items[i])) ==>
      SaveTranslations(Some(items), originals, translated) == SaveFailed
    ensures var existing := set l | l in LinksOf(translated);
      (forall i :: 0 <= i < |items| ==> !BadId(items[i])) ==>
      SaveTranslations(Some(items), originals, translated) ==
        match BuildRecords(items, originals, existing)
        case None => SaveFailed
        case Some(rs) => SaveDone(rs)
  {
    var existing := set l | l in LinksOf(translated);
    var ids := IncomingIds(items);
    SameLoop(items, WithIds(originals, ids), originals, ids, existing);
    if |ids| == 0 {
      NothingToLookUp(items, existing);
    }
  }

  lemma {:induction false} NothingToLookUp(items: seq<TranslateDto>, existing: set<string>)
    ensures BuildRecords(items, [], existing) == Some([])
    decreases |items|
  {
    if |items| > 0 {
      NothingToLookUp(items[1..], existing);
    }
  }

  lemma {:induction false} SameLoop(items: seq<TranslateDto>, dict: seq<NewsItem>, originals: seq<NewsItem>, ids: seq<string>, existing: set<string>)
    requires dict == WithIds(originals, ids)
    requires forall i :: 0 <= i < |items| && !IsNullOrEmpty(items[i].id) ==> items[i].id.value in ids
    ensures BuildRecords(items, dict, existing) == BuildRecords(items, originals, existing)
    decreases |items|
  {
    if |items| > 0 {
      if !IsNullOrEmpty(items[0].id) {
        WithIdsLookup(originals, ids, items[0].id.value);
      }
      SameLoop(items[1..], dict, originals, ids, existing);
    }
  }

  /** The links already in the language's collection, as the loop sees them. */
  function ExistingLinks(translated: seq<NewsItem>): set<string> {
    set l | l in LinksOf(translated)
  }

  /** A save fails exactly when some id is not an ObjectId or an accepted
      entry has a null title or summary; entries that are skipped are never
      trimmed. */
  lemma SaveFails(items: seq<TranslateDto>, originals: seq<NewsItem>, translated: seq<NewsItem>)
    ensures SaveTranslations(Some(items), originals, translated).SaveFailed? <==>
      || (exists i :: 0 <= i < |items| && BadId(items[i]))
      || exists i :: 0 <= i < |items| && Accepted(items[i], originals, ExistingLinks(translated)) && !Complete(items[i])
  {
    SaveIsTheLoop(items, originals, translated);
  }

  /** A successful save builds one record per accepted entry, in upload
      order: the entry's texts trimmed, and the link, image, date and source
      of the original its id names. */
  lemma SaveRecords(items: seq<TranslateDto>, originals: seq<NewsItem>, translated: seq<NewsItem>)
    requires SaveTranslations(Some(items), originals, translated).SaveDone?
    ensures var rs := SaveTranslations(Some(items), originals, translated).records;
      var ps := AcceptedPairs(items, originals, ExistingLinks(translated));
      |rs| == |ps| && forall k :: 0 <= k < |ps| ==> Complete(ps[k].0) && rs[k] == Translate(ps[k].0, ps[k].1)
  {
    SaveIsTheLoop(items, originals, translated);
    BuildRecordsArePairs(items, originals, ExistingLinks(translated));
  }

  /** Every saved record carries the link of an original that was not yet
      in the language's collection, with its texts trimmed. */
  lemma SavedFresh(items: seq<TranslateDto>, originals: seq<NewsItem>, translated: seq<NewsItem>)
    requires SaveTranslations(Some(items), originals, translated).SaveDone?
    ensures var rs := SaveTranslations(Some(items), originals, translated).records;
      forall k :: 0 <= k < |rs| ==>
        && rs[k].link !in LinksOf(translated)
        && Trimmed(rs[k].title) && Trimmed(rs[k].summary)
        && exists o :: o in originals && o.link == rs[k].link && o.source == rs[k].source && o.publishDate == rs[k].publishDate
  {
    SaveRecords(items, originals, translated);
    var ps := AcceptedPairs(items, originals, ExistingLinks(translated));
    assert forall k :: 0 <= k < |ps| ==> ps[k].1 in originals;
  }

  /** An id as the store renders one. */
  const SampleId: string := "65f0a1b2c3d4e5f601234567"

  lemma SampleIdParses()
    ensures IsObjectIdText(SampleId)
  {
    forall k | 0 <= k < |SampleId|
      ensures IsHexDigit(SampleId[k])
    {
      assert SampleId[k] in "0123456789abcdef";
    }
  }

  /** An upload naming an id that is not an ObjectId fails, whatever the
      store holds, even when that id names no original. */
  lemma MalformedIdFails(originals: seq<NewsItem>, translated: seq<NewsItem>)
    ensures var dto := TranslateDto(Some("abc"), Some("T"), Some("S"));
      SaveTranslations(Some([dto]), originals, translated) == SaveFailed
  {
    var dto := TranslateDto(Some("abc"), Some("T"), Some("S"));
    assert BadId([dto][0]);
  }

  /** The set of existing links is read once, before the loop: two entries
      with the same id both become records with the same link. */
  lemma DuplicateIdsBothSaved()
    ensures var orig := NewsItem(Some(SampleId), "t", "s", "https://example.org/n", None, 0, "BBC");
      var dto := TranslateDto(Some(SampleId), Some(" T "), Some("S"));
      var r := SaveTranslations(Some([dto, dto]), [orig], []);
      r.SaveDone? && |r.records| == 2 && r.records[0].link == r.records[1].link == "https://example.org/n"
  {
    var orig := NewsItem(Some(SampleId), "t", "s", "https://example.org/n", None, 0, "BBC");
    var dto := TranslateDto(Some(SampleId), Some(" T "), Some("S"));
    SampleIdParses();
    assert forall i :: 0 <= i < |[dto, dto]| ==> !BadId([dto, dto][i]);
    SaveIsTheLoop([dto, dto], [orig], []);
    assert ExistingLinks([]) == {};
    assert Accepted(dto, [orig], {});
    assert [dto, dto][1..] == [dto];
  }

  /** An entry that names only its id, with no title or summary property,
      deserialises to empty texts: it is saved, with an empty title and
      summary. */
  lemma MissingTextsSavedEmpty()
    ensures var orig := NewsItem(Some(SampleId), "t", "s", "https://example.org/n", None, 0, "BBC");
      var dto := TranslateDto(Some(SampleId), Some(""), Some(""));
      var r := SaveTranslations(Some([dto]), [orig], []);
      r.SaveDone? && |r.records| == 1 && r.records[0].title == "" && r.records[0].summary == ""
  {
    var orig := NewsItem(Some(SampleId), "t", "s", "https://example.org/n", None, 0, "BBC");
    var dto := TranslateDto(Some(SampleId), Some(""), Some(""));
    SampleIdParses();
    assert forall i :: 0 <= i < |[dto]| ==> !BadId([dto][i]);
    SaveIsTheLoop([dto], [orig], []);
    assert ExistingLinks([]) == {};
    assert Accepted(dto, [orig], {});
    assert Trim("") == "";
  }

  /** After a save, the untranslated originals are those that were
      untranslated and whose link no saved record has. */
  lemma SaveShrinksUntranslated(items: seq<TranslateDto>, originals: seq<NewsItem>, translated: seq<NewsItem>)
    requires SaveTranslations(Some(items), originals, translated).SaveDone?
    ensures var r := SaveTranslations(Some(items), originals, translated);
      forall o :: o in Untranslated(originals, AfterSave(translated, r)) <==>
        o in Untranslated(originals, translated) && forall k :: 0 <= k < |r.records| ==> r.records[k].link != o.link
  {
    var r := SaveTranslations(Some(items), originals, translated);
    var after := AfterSave(translated, r);
    UntranslatedMeansNoLink(originals, translated);
    UntranslatedMeansNoLink(originals, after);
    if |r.records| > 0 {
      assert forall j :: 0 <= j < |translated| ==> after[j] == translated[j];
      assert forall k :: 0 <= k < |r.records| ==> after[|translated| + k] == r.records[k];
    }
  }

  // ----------------------------------------------------------------- upload

  /** What deserialising the uploaded file gives: a malformed document (an
      exception), the JSON literal `null`, or a list. */
  datatype JsonList = Malformed | JsonNull | JsonItems(items: seq<TranslateDto>)

  /** The message `Upload` leaves for the index page, or an unhandled
      exception (`Crashed`). */
  datatype UploadOutcome = NoFile | NoLanguage | InvalidJson | Crashed | Stored(count: nat) | NothingNew

  /** `Upload`, given the file's length (`None` for no file), the language,
      the file's deserialised content and the two collections. */
  function Upload(fileLength: Option<nat>, lang: Option<string>, content: JsonList,
                  originals: seq<NewsItem>, translated: seq<NewsItem>): (r: UploadOutcome)
    ensures r == NoFile <==> fileLength.None? || fileLength.value == 0
    ensures r == NoLanguage <==> !(fileLength.None? || fileLength.value == 0) && IsNullOrEmpty(lang)
    ensures r == InvalidJson <==> !(fileLength.None? || fileLength.value == 0) && !IsNullOrEmpty(lang) && content == JsonNull
  {
    if fileLength.None? || fileLength.value == 0 then NoFile
    else if IsNullOrEmpty(lang) then NoLanguage
    else
      match content
      case Malformed => Crashed
      case JsonNull => InvalidJson
      case JsonItems(xs) =>
        match SaveTranslations(Some(xs), originals, translated)
        case SaveFailed => Crashed
        case SaveDone(rs) => if |rs| > 0 then Stored(|rs|) else NothingNew
  }

  /** With a file, a language and a list, the page reports how many records
      the save built, "nothing new" when it built none, and the request
      fails exactly when the save does. */
  lemma UploadReportsSave(fileLength: nat, lang: string, items: seq<TranslateDto>,
                          originals: seq<NewsItem>, translated: seq<NewsItem>)
    requires fileLength > 0 && |lang| > 0
    ensures var r := Upload(Some(fileLength), Some(lang), JsonItems(items), originals, translated);
      var s := SaveTranslations(Some(items), originals, translated);
      && (r == Crashed <==> s.SaveFailed?)
      && (r.Stored? <==> s.SaveDone? && |s.records| > 0)
      && (r.Stored? ==> r.count == |s.records| && AfterSave(translated, s) == translated + s.records)
      && (r == NothingNew ==> AfterSave(translated, s) == translated)
  {
  }
}
