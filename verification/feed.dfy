/** The syndication item as the feed reader hands it over, the canonical
    `NewsItem` record, and the base normalisation of `RssFeedProcessor.ParseItem`. */
module Feed {
  import opened Common
  import opened Text

  /** Namespace of the Media RSS extension elements (`media:content`,
      `media:thumbnail`, `media:group`). */
  const MediaRssNamespace: string := "http://search.yahoo.com/mrss/"

  /** An XML element as `XElement` exposes it: local name, namespace, the
      attributes that carry no namespace (by local name), and child elements
      in document order. */
  datatype Element = Element(name: string, ns: string, attrs: map<string, string>, children: seq<Element>)

  /** `element.Attribute(key)?.Value`. */
  function Attr(e: Element, key: string): (v: Option<string>)
    ensures v.Some? <==> key in e.attrs
    ensures v.Some? ==> v.value == e.attrs[key]
  {
    if key in e.attrs then Some(e.attrs[key]) else None
  }

  /** True of a Media RSS element with the given local name. */
  predicate IsMedia(e: Element, name: string) {
    e.name == name && e.ns == MediaRssNamespace
  }

  /** A parsed `SyndicationItem`. Each link is the text `Uri.ToString()`
      renders for it, or `None` when the link has no `Uri`; `title` and
      `summary` are `None` when the content or its text is null; unset dates
      are `MinInstant`; `extensions` are the element extensions in document order. */
  datatype SyndicationItem = SyndicationItem(
    links: seq<Option<string>>,
    title: Option<string>,
    summary: Option<string>,
    publishDate: Instant,
    lastUpdated: Instant,
    extensions: seq<Element>)

  /** The persisted record. `id` is assigned by the store on insert. */
  datatype NewsItem = NewsItem(
    id: Option<string>,
    title: string,
    summary: string,
    link: string,
    imageUrl: Option<string>,
    publishDate: Instant,
    source: string)

  /** `item.Links.FirstOrDefault()?.Uri?.ToString()?.Trim()`. */
  function FirstLink(item: SyndicationItem): (r: Option<string>)
    ensures |item.links| == 0 ==> r.None?
    ensures |item.links| > 0 && item.links[0].Some? ==> r == Some(Trim(item.links[0].value))
    ensures |item.links| > 0 && item.links[0].None? ==> r.None?
  {
    if |item.links| == 0 then None
    else match item.links[0]
      case None => None
      case Some(u) => Some(Trim(u))
  }

  /** The identity the pipeline uses for an item: its trimmed first link,
      when that is present and non-empty. */
  function LinkKey(item: SyndicationItem): (r: Option<string>)
    ensures r.Some? <==> !IsNullOrEmpty(FirstLink(item))
    ensures r.Some? ==> r == FirstLink(item) && |r.value| > 0
  {
    var l := FirstLink(item);
    if IsNullOrEmpty(l) then None else l
  }

  /** The publish date chain: `PublishDate` unless unset, else
      `LastUpdatedTime` unless unset, else the current time. */
  function ResolvePublishDate(item: SyndicationItem, now: Instant): (d: Instant)
    ensures item.publishDate != MinInstant ==> d == item.publishDate
    ensures item.publishDate == MinInstant && item.lastUpdated != MinInstant ==> d == item.lastUpdated
    ensures item.publishDate == MinInstant && item.lastUpdated == MinInstant ==> d == now
  {
    if item.publishDate != MinInstant then item.publishDate
    else if item.lastUpdated != MinInstant then item.lastUpdated
    else now
  }

  /** The title the record gets: the trimmed text, or "No title" when there is none. */
  function TitleOf(item: SyndicationItem): string {
    match item.title
    case Some(t) => Trim(t)
    case None => "No title"
  }

  /** The summary the record gets: the trimmed text, or "" when there is none. */
  function SummaryOf(item: SyndicationItem): string {
    match item.summary
    case Some(t) => Trim(t)
    case None => ""
  }

  /** The base `ParseItem`, given what the processor's `ExtractImage` returned
      for the item: nothing without a usable link, otherwise the canonical record. */
  function NormalizeBase(item: SyndicationItem, sourceName: string, image: Option<string>, now: Instant): (r: Option<NewsItem>)
    ensures r.None? <==> LinkKey(item).None?
    ensures r.Some? ==> r.value.link == LinkKey(item).value
    ensures r.Some? ==> r.value.source == sourceName && r.value.imageUrl == image && r.value.id.None?
    ensures r.Some? ==> r.value.title == TitleOf(item) && r.value.summary == SummaryOf(item)
    ensures r.Some? ==> r.value.publishDate == ResolvePublishDate(item, now)
  {
    match LinkKey(item)
    case None => None
    case Some(link) =>
      Some(NewsItem(None, TitleOf(item), SummaryOf(item), link, image, ResolvePublishDate(item, now), sourceName))
  }

  /** No surrounding white space. */
  predicate Trimmed(s: string) {
    |s| == 0 || (!IsWhiteSpace(s[0]) && !IsWhiteSpace(s[|s| - 1]))
  }

  /** What every normalised record satisfies: a non-empty trimmed link, a
      trimmed title (or the placeholder), a trimmed summary. */
  predicate WellFormed(n: NewsItem) {
    && |n.link| > 0 && Trimmed(n.link)
    && Trimmed(n.title)
    && Trimmed(n.summary)
  }

  /** The title a record gets never has surrounding white space, the
      placeholder included. */
  lemma TitleTrimmed(item: SyndicationItem)
    ensures Trimmed(TitleOf(item))
  {
    if item.title.None? {
      VisibleAsciiNotWhiteSpace('N');
      VisibleAsciiNotWhiteSpace('e');
    }
  }

  /** Normalisation only ever produces well-formed records, and the record's
      link is the item's trimmed first link. */
  lemma NormalizeBaseWellFormed(item: SyndicationItem, sourceName: string, image: Option<string>, now: Instant)
    ensures var r := NormalizeBase(item, sourceName, image, now);
      r.Some? ==> WellFormed(r.value) && Some(r.value.link) == FirstLink(item)
  {
    TitleTrimmed(item);
  }

  /** Title defaults: the placeholder appears only for a missing title; a
      white-space-only title becomes the empty string. */
  lemma TitleDefaults(item: SyndicationItem)
    ensures item.title.None? ==> TitleOf(item) == "No title"
    ensures item.title.Some? && AllWhiteSpace(item.title.value) ==> TitleOf(item) == ""
    ensures item.title.Some? && !AllWhiteSpace(item.title.value) ==> |TitleOf(item)| > 0 && Trimmed(TitleOf(item))
  {
  }

  /** The three branches of the date chain on concrete instants. */
  lemma PublishDateBranches(now: Instant)
    ensures ResolvePublishDate(SyndicationItem([], None, None, 20240101, 20240201, []), now) == 20240101
    ensures ResolvePublishDate(SyndicationItem([], None, None, MinInstant, 20240201, []), now) == 20240201
    ensures ResolvePublishDate(SyndicationItem([], None, None, MinInstant, MinInstant, []), now) == now
  {
  }
}
