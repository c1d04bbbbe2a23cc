/** The earlier single-collection service, `NewsRssBackgroundService`: three
    fixed feeds merged into one candidate list, its own image rule applied to
    every source, one batch insert, and delivery in publish-date order. */
module Legacy {
  import opened Common
  import opened Text
  import opened Feed
  import opened Images
  import opened Processors
  import opened Collect
  import opened Sorting

  /** The feeds read on every run, as (URL, source name), in reading order. */
  const LegacyFeeds: seq<(string, string)> := [
    ("https://feeds.content.dowjones.io/public/rss/RSSWorldNews", "WSJ"),
    ("https://rss.nytimes.com/services/xml/rss/nyt/MostViewed.xml", "NYTimes"),
    ("https://feeds.bbci.co.uk/news/rss.xml", "BBC")
  ]

  // ------------------------------------------------------------------ image

  /** The image before the resolution upgrade: the first `media:content` url;
      when that is null or empty, the first `media:thumbnail` url if there is
      such an element (its url may itself be null). */
  function LegacyPick(item: SyndicationItem): Option<string> {
    var exts := item.extensions;
    var c := FirstMedia(exts, "content");
    var fromContent := if c < |exts| then Attr(exts[c], "url") else None;
    if IsNullOrEmpty(fromContent) then
      var t := FirstMedia(exts, "thumbnail");
      if t < |exts| then Attr(exts[t], "url") else fromContent
    else fromContent
  }

  /** Against the base strategy: the two agree whenever the base finds a
      non-empty URL, and whenever there is no thumbnail to fall back to; where
      the base stops at an empty or missing content URL, this rule takes the
      thumbnail's. */
  lemma LegacyPickVsBase(item: SyndicationItem)
    ensures !IsNullOrEmpty(BaseImage(item)) ==> LegacyPick(item) == BaseImage(item)
    ensures FirstMedia(item.extensions, "thumbnail") == |item.extensions| ==> LegacyPick(item) == BaseImage(item)
    ensures var t := FirstMedia(item.extensions, "thumbnail");
      IsNullOrEmpty(BaseImage(item)) && t < |item.extensions| ==> LegacyPick(item) == Attr(item.extensions[t], "url")
  {
  }

  /** An item whose `media:content` has no url but whose thumbnail has one:
      the base strategy yields null, this rule the thumbnail. */
  lemma LegacyThumbnailFallback()
    ensures var item := SyndicationItem([Some("https://example.org/a")], None, None, 0, 0,
      [Element("content", MediaRssNamespace, map[], []),
       Element("thumbnail", MediaRssNamespace, map["url" := "https://example.org/t.jpg"], [])]);
      BaseImage(item) == None && LegacyPick(item) == Some("https://example.org/t.jpg")
  {
    var item := SyndicationItem([Some("https://example.org/a")], None, None, 0, 0,
      [Element("content", MediaRssNamespace, map[], []),
       Element("thumbnail", MediaRssNamespace, map["url" := "https://example.org/t.jpg"], [])]);
    var exts := item.extensions;
    assert IsMedia(exts[0], "content");
    assert FirstMedia(exts, "content") == 0;
    assert !IsMedia(exts[0], "thumbnail") && IsMedia(exts[1], "thumbnail");
    assert FirstMedia(exts[1..], "thumbnail") == 0;
    assert FirstMedia(exts, "thumbnail") == 1;
  }

  /** The image the service stores, for every source alike. */
  function LegacyImage(item: SyndicationItem): Option<string> {
    UpgradeResolution(LegacyPick(item))
  }

  /** Where the base strategy finds a URL, the service stores the BBC
      processor's image, whatever the source. */
  lemma LegacyImageIsBbcRule(item: SyndicationItem)
    requires !IsNullOrEmpty(BaseImage(item))
    ensures LegacyImage(item) == BbcImage(item)
  {
    LegacyPickVsBase(item);
  }

  /** The upgrade is not limited to BBC: a source served by the default
      processor keeps a "/240/" URL that the service rewrites. */
  lemma LegacyUpgradesEverySource(item: SyndicationItem, name: string, parseInt: IntParser)
    requires CreateProcessor(name) == Default
    requires !IsNullOrEmpty(BaseImage(item)) && Contains(BaseImage(item).value, LowResSegment)
    ensures ExtractImage(CreateProcessor(name), item, parseInt) == BaseImage(item)
    ensures LegacyImage(item) != BaseImage(item)
  {
    LegacyImageIsBbcRule(item);
    BbcRewriteChangesUrl(item);
  }

  // ---------------------------------------------------------------- records

  /** One item with the name of the feed it came from. */
  type Tagged = (SyndicationItem, string)

  /** The key of a tagged item: its trimmed, non-empty first link. */
  function PairKey(p: Tagged): Option<string> {
    LinkKey(p.0)
  }

  /** The items of one feed, tagged with its name. */
  function Tag(xs: seq<SyndicationItem>, name: string): (r: seq<Tagged>)
    ensures |r| == |xs|
    ensures forall i :: 0 <= i < |r| ==> r[i].0 == xs[i] && r[i].1 == name
  {
    seq(|xs|, i requires 0 <= i < |xs| => (xs[i], name))
  }

  /** The items of the feeds that loaded, each tagged with its feed's name, in
      feed order. A feed that failed, or had no items, adds nothing. */
  function TaggedItems(feeds: seq<(string, FeedLoad)>): (r: seq<Tagged>)
    ensures feeds == [] ==> r == []
  {
    if |feeds| == 0 then []
    else
      (match feeds[0].1 case None => [] case Some(xs) => Tag(xs, feeds[0].0)) + TaggedItems(feeds[1..])
  }

  /** A tagged pair is an item of the feed together with the feed's name. */
  lemma TagMembers(xs: seq<SyndicationItem>, name: string)
    ensures forall p: Tagged :: p in Tag(xs, name) <==> p.0 in xs && p.1 == name
  {
    var r := Tag(xs, name);
    forall p: Tagged | p.0 in xs && p.1 == name
      ensures p in r
    {
      var i :| 0 <= i < |xs| && xs[i] == p.0;
      assert r[i] == p;
    }
  }

  /** Each pair is an item of a feed that loaded, tagged with that feed's
      name, and every item of every loaded feed appears so tagged; failed
      feeds add nothing. */
  lemma {:induction false} TaggedItemsMembers(feeds: seq<(string, FeedLoad)>)
    ensures forall p: Tagged :: p in TaggedItems(feeds) <==>
      exists f :: 0 <= f < |feeds| && feeds[f].1.Some? && p.0 in feeds[f].1.value && p.1 == feeds[f].0
    decreases |feeds|
  {
    if |feeds| > 0 {
      var rest := feeds[1..];
      TaggedItemsMembers(rest);
      if feeds[0].1.Some? {
        TagMembers(feeds[0].1.value, feeds[0].0);
      }
      forall p: Tagged
        ensures p in TaggedItems(feeds) <==>
          exists f :: 0 <= f < |feeds| && feeds[f].1.Some? && p.0 in feeds[f].1.value && p.1 == feeds[f].0
      {
        if p in TaggedItems(rest) {
          var f :| 0 <= f < |rest| && rest[f].1.Some? && p.0 in rest[f].1.value && p.1 == rest[f].0;
          assert feeds[f + 1] == rest[f];
        }
        if f :| 0 <= f < |feeds| && feeds[f].1.Some? && p.0 in feeds[f].1.value && p.1 == feeds[f].0 {
          if f > 0 {
            assert rest[f - 1] == feeds[f];
          }
        }
      }
    }
  }

  /** The record built for a candidate link and its tagged item. */
  function LegacyRecord(link: string, p: Tagged, now: Instant): NewsItem {
    NewsItem(None, TitleOf(p.0), SummaryOf(p.0), link, LegacyImage(p.0), ResolvePublishDate(p.0, now), p.1)
  }

  /** The service's record is the base normalisation of the item, with the
      feed's name and the service's own image: titles, summaries, links and
      dates follow the same rules as the processors'. */
  lemma LegacyRecordIsBase(link: string, p: Tagged, now: Instant)
    requires PairKey(p) == Some(link)
    ensures NormalizeBase(p.0, p.1, LegacyImage(p.0), now) == Some(LegacyRecord(link, p, now))
    ensures WellFormed(LegacyRecord(link, p, now))
  {
    NormalizeBaseWellFormed(p.0, p.1, LegacyImage(p.0), now);
  }

  /** One record per gated candidate, in order. */
  function Records(g: seq<(string, Tagged)>, now: Instant): (r: seq<NewsItem>)
    ensures |r| == |g|
    ensures forall i :: 0 <= i < |r| ==> r[i] == LegacyRecord(g[i].0, g[i].1, now)
  {
    seq(|g|, i requires 0 <= i < |g| => LegacyRecord(g[i].0, g[i].1, now))
  }

  // -------------------------------------------------------------------- run

  /** The key the delivery order sorts on. */
  function PublishKey(n: NewsItem): int {
    n.publishDate
  }

  /** `ExecuteSendToTelegramChanelAsync`: the inserted records ordered by
      publish date, a stable sort, each then sent in turn. */
  function SendOrder(inserted: seq<NewsItem>): seq<NewsItem> {
    SortBy(inserted, PublishKey)
  }

  /** Result of one run: nothing collected (returns before the store query),
      or the links queried, the records inserted and the order they are sent in. */
  datatype LegacyOutcome =
    | NothingToProcess
    | Saved(queried: set<string>, inserted: seq<NewsItem>, sent: seq<NewsItem>)

  /** The records a run inserts from the tagged items, given the store. */
  function NewRecords(xs: seq<Tagged>, store: set<string>, now: Instant): seq<NewsItem> {
    Records(Gate(Merge(xs, PairKey, {}), store), now)
  }

  /** `FetchAndSaveNewsAsync`, given each feed's name and what loading it
      produced, and the links in the store. Only the candidates' links are
      looked up, which selects the same records as consulting the whole store. */
  function LegacyRun(feeds: seq<(string, FeedLoad)>, store: set<string>, now: Instant): (r: LegacyOutcome)
    ensures r.NothingToProcess? <==> KeysOf(TaggedItems(feeds), PairKey) == {}
    ensures r.Saved? ==> r.queried == KeysOf(TaggedItems(feeds), PairKey)
    ensures r.Saved? ==> r.inserted == NewRecords(TaggedItems(feeds), store, now)
    ensures r.Saved? ==> multiset(r.sent) == multiset(r.inserted)
  {
    var xs := TaggedItems(feeds);
    var cands := Merge(xs, PairKey, {});
    if |cands| == 0 then
      MergeEmpty(xs, PairKey);
      NothingToProcess
    else
      var links := set i | 0 <= i < |cands| :: cands[i].0;
      MergeSameKeys(xs, PairKey);
      GateRestrict(cands, links, store);
      var ins := Records(Gate(cands, store * links), now);
      SortByPermutes(ins, PublishKey);
      Saved(links, ins, SendOrder(ins))
  }

  /** One run over the configured feeds, given what loading each produced. */
  function LegacyTick(loads: seq<FeedLoad>, store: set<string>, now: Instant): LegacyOutcome
    requires |loads| == |LegacyFeeds|
  {
    LegacyRun(seq(|loads|, i requires 0 <= i < |loads| => (LegacyFeeds[i].1, loads[i])), store, now)
  }

  /** Nothing already stored is inserted, and no link twice. */
  lemma NewRecordsFresh(xs: seq<Tagged>, store: set<string>, now: Instant)
    ensures var ins := NewRecords(xs, store, now);
      && (forall i :: 0 <= i < |ins| ==> ins[i].link !in store)
      && (forall i, j :: 0 <= i < j < |ins| ==> ins[i].link != ins[j].link)
  {
    var g := Gate(Merge(xs, PairKey, {}), store);
    GateDistinct(Merge(xs, PairKey, {}), store);
    assert forall i :: 0 <= i < |g| ==> NewRecords(xs, store, now)[i].link == g[i].0;
  }

  /** Every link that is present in some feed and not stored is inserted. */
  lemma NewRecordsComplete(xs: seq<Tagged>, store: set<string>, now: Instant, k: string)
    requires k in KeysOf(xs, PairKey) && k !in store
    ensures exists i :: 0 <= i < |NewRecords(xs, store, now)| && NewRecords(xs, store, now)[i].link == k
  {
    var cands := Merge(xs, PairKey, {});
    var g := Gate(cands, store);
    MergeKeys(xs, PairKey, k);
    var c :| 0 <= c < |cands| && cands[c].0 == k;
    assert cands[c] in g;
    var i :| 0 <= i < |g| && g[i] == cands[c];
    assert NewRecords(xs, store, now)[i].link == k;
  }

  /** Each record is built from the first item carrying its link, so a link
      listed by several feeds keeps the name of the first of them. */
  lemma NewRecordsFirstSeen(xs: seq<Tagged>, store: set<string>, now: Instant, i: nat)
    requires i < |NewRecords(xs, store, now)|
    ensures exists j :: 0 <= j < |xs| && IsFirst(xs, PairKey, j) &&
              NewRecords(xs, store, now)[i] == LegacyRecord(PairKey(xs[j]).value, xs[j], now)
  {
    var cands := Merge(xs, PairKey, {});
    var g := Gate(cands, store);
    var c :| 0 <= c < |cands| && cands[c] == g[i];
    MergeEntryIsFirst(xs, PairKey, c);
  }

  /** Delivery goes oldest first, and records with the same publish date go in
      insertion order; this pins the send order down completely. */
  lemma LegacySendOrder(feeds: seq<(string, FeedLoad)>, store: set<string>, now: Instant)
    requires LegacyRun(feeds, store, now).Saved?
    ensures var r := LegacyRun(feeds, store, now);
      && SortedBy(r.sent, PublishKey)
      && (forall d :: WithKey(r.sent, PublishKey, d) == WithKey(r.inserted, PublishKey, d))
  {
    var r := LegacyRun(feeds, store, now);
    SortByUnique(r.inserted, r.sent, PublishKey);
  }
}
