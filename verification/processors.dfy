/** The processor family: which strategy a source name selects
    (`RssBackgroundService.CreateProcessor`) and the `ExtractImage`/`ParseItem`
    pair each processor runs. */
module Processors {
  import opened Common
  import opened Text
  import opened Feed
  import opened Images
  import opened Sanitize

  /** The processor classes. `Default` is `_DefaultRssProcessor`, which
      inherits everything from `RssFeedProcessor`. */
  datatype Strategy = Default | Bbc | Cnn | Guardian | Abc

  /** The source name a dedicated processor is registered under. */
  function RegisteredName(s: Strategy): Option<string> {
    match s
    case Default => None
    case Bbc => Some("BBC")
    case Cnn => Some("CNN")
    case Guardian => Some("Guardian")
    case Abc => Some("ABCNews")
  }

  /** `CreateProcessor`: an exact, case-sensitive switch on the source name;
      every other name gets the default processor. */
  function CreateProcessor(name: string): (s: Strategy)
    ensures s != Default ==> RegisteredName(s) == Some(name)
    ensures s == Default <==> name !in {"BBC", "CNN", "Guardian", "ABCNews"}
  {
    if name == "BBC" then Bbc
    else if name == "CNN" then Cnn
    else if name == "Guardian" then Guardian
    else if name == "ABCNews" then Abc
    else Default
  }

  /** Every dedicated processor is reachable, by exactly its registered name. */
  lemma CreateProcessorRegistered(s: Strategy, name: string)
    requires s != Default
    ensures CreateProcessor(name) == s <==> RegisteredName(s) == Some(name)
  {
  }

  /** Names with their own processor classes elsewhere in the repository still
      get the default one, as do other spellings of the registered names. */
  lemma CreateProcessorDefaults()
    ensures CreateProcessor("DeutscheWelle") == Default
    ensures CreateProcessor("LeaderIr") == Default
    ensures CreateProcessor("NYTimes") == Default
    ensures CreateProcessor("bbc") == Default
    ensures CreateProcessor("ABC") == Default
  {
  }

  /** The processor's `ExtractImage`. ABC News ranks its thumbnails by the
      key as the source evaluates it, in wrapping 32-bit arithmetic. */
  function ExtractImage(s: Strategy, item: SyndicationItem, parseInt: IntParser): (r: Option<string>)
    ensures s in {Default, Bbc, Cnn} && !IsNullOrEmpty(BaseImage(item)) && !Contains(BaseImage(item).value, LowResSegment) ==>
      r == BaseImage(item)
    ensures s == Default || s == Bbc ==> (r.None? <==> BaseImage(item).None?)
    ensures s == Abc ==> (r.None? <==> |AbcCandidates(item.extensions)| == 0)
    ensures s == Guardian ==> (r.None? <==> |GuardianCandidates(item.extensions)| == 0)
  {
    match s
    case Default => BaseImage(item)
    case Bbc => BbcImage(item)
    case Cnn => CnnImage(item)
    case Guardian => GuardianImage(item, parseInt)
    case Abc => AbcImageAsWritten(item, parseInt)
  }

  /** No strategy finds an image in an item without Media RSS content,
      thumbnails or groups. */
  lemma ExtractImageNoMedia(s: Strategy, item: SyndicationItem, parseInt: IntParser)
    requires forall i :: 0 <= i < |item.extensions| ==>
      !IsMedia(item.extensions[i], "content") && !IsMedia(item.extensions[i], "thumbnail") && !IsMedia(item.extensions[i], "group")
    ensures ExtractImage(s, item, parseInt).None?
  {
    var exts := item.extensions;
    BaseImageNone(item);
    assert FirstMedia(exts, "group") == |exts|;
    NoAbcCandidates(exts);
    NoGuardianCandidates(exts);
  }

  /** Without thumbnails there is no ABC candidate. */
  lemma {:induction false} NoAbcCandidates(exts: seq<Element>)
    requires forall i :: 0 <= i < |exts| ==> !IsMedia(exts[i], "thumbnail")
    ensures AbcCandidates(exts) == []
    decreases |exts|
  {
    if |exts| > 0 {
      NoAbcCandidates(exts[1..]);
    }
  }

  /** Without Media RSS content there is no Guardian candidate. */
  lemma {:induction false} NoGuardianCandidates(exts: seq<Element>)
    requires forall i :: 0 <= i < |exts| ==> !IsMedia(exts[i], "content")
    ensures GuardianCandidates(exts) == []
    decreases |exts|
  {
    if |exts| > 0 {
      NoGuardianCandidates(exts[1..]);
    }
  }

  /** ABC News and Guardian never consult the base rule: two items with the
      same extensions get the same image, whatever their other media say. */
  lemma ExtractImageOnlyCandidates(s: Strategy, a: SyndicationItem, b: SyndicationItem, parseInt: IntParser)
    requires s == Abc || s == Guardian
    requires AbcCandidates(a.extensions) == AbcCandidates(b.extensions)
    requires GuardianCandidates(a.extensions) == GuardianCandidates(b.extensions)
    ensures ExtractImage(s, a, parseInt) == ExtractImage(s, b, parseInt)
  {
  }

  /** The processor's `ParseItem`: the base normalisation with this processor's
      image; Guardian additionally cleans a non-empty summary. */
  function ParseItem(s: Strategy, item: SyndicationItem, sourceName: string, parseInt: IntParser, now: Instant): (r: Option<NewsItem>)
    ensures r.None? <==> LinkKey(item).None?
    ensures r.Some? ==> r.value.link == LinkKey(item).value && r.value.source == sourceName
    ensures r.Some? ==> r.value.imageUrl == ExtractImage(s, item, parseInt)
    ensures r.Some? ==> r.value.title == TitleOf(item) && r.value.publishDate == ResolvePublishDate(item, now)
    ensures r.Some? && s != Guardian ==> r.value.summary == SummaryOf(item)
    ensures r.Some? && s == Guardian ==> r.value.summary == SanitizeSummary(SummaryOf(item))
  {
    var base := NormalizeBase(item, sourceName, ExtractImage(s, item, parseInt), now);
    match base
    case None => None
    case Some(n) =>
      if s == Guardian && |n.summary| > 0 then Some(n.(summary := SanitizeSummary(n.summary)))
      else base
  }

  /** When no thumbnail's key leaves the 32-bit range, the ABC News record
      carries the image the exact key ranks first. */
  lemma AbcParseItemInRange(item: SyndicationItem, sourceName: string, parseInt: IntParser, now: Instant)
    requires forall i :: 0 <= i < |AbcCandidates(item.extensions)| ==>
      MinInt32 <= AbcKey(AbcCandidates(item.extensions)[i], parseInt) <= MaxInt32
    ensures var r := ParseItem(Abc, item, sourceName, parseInt, now);
      r.Some? ==> r.value.imageUrl == AbcImage(item, parseInt)
  {
    AbcKeysAgreeInRange(item, parseInt);
  }

  /** Two processors other than Guardian produce records that differ at most
      in the image: everything else is the inherited normalisation. */
  lemma OnlyImageDiffers(s1: Strategy, s2: Strategy, item: SyndicationItem, sourceName: string, parseInt: IntParser, now: Instant)
    requires s1 != Guardian && s2 != Guardian
    ensures var r1 := ParseItem(s1, item, sourceName, parseInt, now);
      var r2 := ParseItem(s2, item, sourceName, parseInt, now);
      && r1.Some? == r2.Some?
      && (r1.Some? ==> r1.value.(imageUrl := None) == r2.value.(imageUrl := None))
  {
  }

  /** Guardian's record is the default record with its own image and a cleaned
      summary; an empty summary stays empty. */
  lemma GuardianParseItemFromBase(item: SyndicationItem, sourceName: string, parseInt: IntParser, now: Instant)
    ensures var g := ParseItem(Guardian, item, sourceName, parseInt, now);
      var d := ParseItem(Default, item, sourceName, parseInt, now);
      && g.Some? == d.Some?
      && (g.Some? ==> g.value == d.value.(imageUrl := GuardianImage(item, parseInt), summary := SanitizeSummary(d.value.summary)))
      && (g.Some? && d.value.summary == "" ==> g.value.summary == "")
  {
  }

  /** Guardian summaries never exceed 803 characters and contain no tag. */
  lemma GuardianSummaryBounded(item: SyndicationItem, sourceName: string, parseInt: IntParser, now: Instant)
    ensures var g := ParseItem(Guardian, item, sourceName, parseInt, now);
      g.Some? ==> |g.value.summary| <= 803 && TagFree(g.value.summary)
  {
    var g := ParseItem(Guardian, item, sourceName, parseInt, now);
    if g.Some? {
      var s := SummaryOf(item);
      if |s| > 0 && |StripTags(s)| > MaxSummaryLength {
        assert |g.value.summary| == MaxSummaryLength + |Ellipsis|;
      }
    }
  }

  /** Every processor's record is well formed. */
  lemma ParseItemWellFormed(s: Strategy, item: SyndicationItem, sourceName: string, parseInt: IntParser, now: Instant)
    requires s != Guardian
    ensures var r := ParseItem(s, item, sourceName, parseInt, now);
      r.Some? ==> WellFormed(r.value) && Some(r.value.link) == FirstLink(item)
  {
    NormalizeBaseWellFormed(item, sourceName, ExtractImage(s, item, parseInt), now);
  }
}
