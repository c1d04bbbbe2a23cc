/** The Deutsche Welle processor, which reads RSS 1.0 (RDF Site Summary)
    documents itself: `<item>` elements with `title`, `link`, `description`
    and a Dublin Core `dc:date`. One run collects candidates across the
    source's URLs, gates them against the store by their raw link, inserts and
    sends the new records, and writes one process log. */
module DeutscheWelle {
  import opened Common
  import opened Text
  import opened Feed
  import opened Images
  import opened Processors
  import opened Collect
  import opened Entities

  /** An `<item>` of an RDF document: the inner text of its children, `None`
      for a missing child. */
  datatype RdfItem = RdfItem(title: Option<string>, link: Option<string>, description: Option<string>, date: Option<string>)

  /** One URL: the `<item>` elements of the downloaded document, or the
      download or XML parse threw before any item was read. */
  datatype RdfFeed = Fetched(items: seq<RdfItem>) | FetchFailed

  /** What the run needs from the outside: the clock, `new Uri(link).ToString()`
      (`None` when the constructor throws), `DateTimeOffset.TryParse`, the
      exception message of `InsertManyAsync` if it throws, the two counts the
      delivery step returns, and the duration rendered with `F1`. */
  datatype DwEnv = DwEnv(
    sourceName: string,
    startTime: Instant,
    now: Instant,
    parseUri: string -> Option<string>,
    tryParseDate: string -> Option<Instant>,
    insertError: Option<string>,
    sent: Int32,
    failed: Int32,
    durationText: string)

  /** `ParseDcDate`: the current time for a missing or empty date, the parsed
      instant when parsing succeeds, the current time otherwise. */
  function ParseDcDate(date: Option<string>, now: Instant, tryParse: string -> Option<Instant>): (d: Instant)
    ensures IsNullOrEmpty(date) ==> d == now
    ensures !IsNullOrEmpty(date) && tryParse(date.value).Some? ==> d == tryParse(date.value).value
    ensures !IsNullOrEmpty(date) && tryParse(date.value).None? ==> d == now
  {
    if IsNullOrEmpty(date) then now
    else match tryParse(date.value)
      case Some(d) => d
      case None => now
  }

  /** An item with a non-empty link and a non-empty title. */
  predicate Usable(r: RdfItem) {
    !IsNullOrEmpty(r.link) && !IsNullOrEmpty(r.title)
  }

  /** The `SyndicationItem` built for a usable item whose link `Uri` rendered as `rendered`. */
  function ToSyndication(r: RdfItem, rendered: string, env: DwEnv): SyndicationItem {
    SyndicationItem(
      [Some(rendered)],
      Some(r.title.GetOr("No title")),
      Some(r.description.GetOr("")),
      ParseDcDate(r.date, env.now, env.tryParseDate),
      MinInstant,
      [])
  }

  /** The items of one document that reach the dedup step, paired with their
      raw link: usable items, until the first one whose link the `Uri`
      constructor rejects; that exception abandons the rest of the document. */
  function Built(items: seq<RdfItem>, env: DwEnv): (r: seq<(string, SyndicationItem)>)
    ensures |r| <= |items|
    ensures forall i :: 0 <= i < |r| ==> |r[i].0| > 0
  {
    if |items| == 0 then []
    else
      var x := items[0];
      if !Usable(x) then Built(items[1..], env)
      else match env.parseUri(x.link.value)
        case None => []
        case Some(u) => [(x.link.value, ToSyndication(x, u, env))] + Built(items[1..], env)
  }

  /** Built items of all documents, in URL order. */
  function AllBuilt(feeds: seq<RdfFeed>, env: DwEnv): (r: seq<(string, SyndicationItem)>)
    ensures forall i :: 0 <= i < |r| ==> |r[i].0| > 0
  {
    if |feeds| == 0 then []
    else (match feeds[0] case FetchFailed => [] case Fetched(xs) => Built(xs, env)) + AllBuilt(feeds[1..], env)
  }

  /** The number of `<item>` elements in the documents that loaded. */
  function RawCount(feeds: seq<RdfFeed>): nat {
    if |feeds| == 0 then 0
    else (match feeds[0] case FetchFailed => 0 case Fetched(xs) => |xs|) + RawCount(feeds[1..])
  }

  /** `totalFetched += items.Count` over the documents, as unchecked `int`
      additions starting from `acc`. */
  function FetchedCount(acc: Int32, feeds: seq<RdfFeed>): Int32
    decreases |feeds|
  {
    if |feeds| == 0 then acc
    else FetchedCount(Wrap32(acc + match feeds[0] case FetchFailed => 0 case Fetched(xs) => |xs|), feeds[1..])
  }

  /** The running count is the item total, wrapped once. */
  lemma {:induction false} FetchedCountIsTotal(acc: Int32, feeds: seq<RdfFeed>)
    ensures FetchedCount(acc, feeds) == Wrap32(acc + RawCount(feeds))
    decreases |feeds|
  {
    if |feeds| > 0 {
      var n := match feeds[0] case FetchFailed => 0 case Fetched(xs) => |xs|;
      FetchedCountIsTotal(Wrap32(acc + n), feeds[1..]);
      Wrap32Add(acc + n, RawCount(feeds[1..]));
    }
  }

  /** A run's count starts at zero. */
  lemma FetchedCountFromZero(feeds: seq<RdfFeed>)
    ensures FetchedCount(0, feeds) == Wrap32(RawCount(feeds))
  {
    var raw := RawCount(feeds);
    FetchedCountIsTotal(0, feeds);
    assert 0 + raw == raw;
  }

  /** The dedup key: the raw link text. */
  function RawKey(p: (string, SyndicationItem)): Option<string> {
    Some(p.0)
  }

  /** Drops the duplicated key the merge pairs each entry with. */
  function Unpair(r: seq<(string, (string, SyndicationItem))>): (c: seq<(string, SyndicationItem)>)
    ensures |c| == |r|
    ensures forall i :: 0 <= i < |c| ==> c[i] == r[i].1
  {
    seq(|r|, i requires 0 <= i < |r| => r[i].1)
  }

  /** `potentialNews`: first-seen-wins on the raw link across all documents. */
  function DwCandidates(feeds: seq<RdfFeed>, env: DwEnv): (c: seq<(string, SyndicationItem)>)
    ensures DistinctKeys(c)
    ensures forall i :: 0 <= i < |c| ==> c[i] in AllBuilt(feeds, env)
  {
    var m := Merge(AllBuilt(feeds, env), RawKey, {});
    var c := Unpair(m);
    assert forall i :: 0 <= i < |c| ==> c[i].0 == m[i].0;
    c
  }

  /** Across all documents the first item carrying a raw link wins. */
  lemma DwFirstSeen(feeds: seq<RdfFeed>, env: DwEnv)
    ensures DwCandidates(feeds, env) == Unpair(FirstsFrom(AllBuilt(feeds, env), RawKey, 0))
  {
    MergeIsFirsts(AllBuilt(feeds, env), RawKey);
  }

  /** The outcome of a run that did not hit the outer `catch`: the one process
      log written, the raw links queried (none when the run finishes early),
      the logged duplicate count, the records handed to `InsertManyAsync`, and
      whether they went on to delivery. */
  datatype DwOutcome = DwOutcome(
    log: ProcessLog,
    queried: Option<set<string>>,
    duplicatesFound: nat,
    toInsert: seq<NewsItem>,
    delivered: bool)

  const NoNewItemsNote: string := "No new items"
  const NoValidItemsNote: string := "No valid new items after parsing"
  const InsertFailedPrefix: string := "Insert failed: "
  const CompletedPrefix: string := "Completed in "

  /** The image parser is never consulted by the default strategy. */
  function NoParse(s: string): Option<Int32> {
    None
  }

  /** The links of the candidates (`allNewLinks`). */
  function KeySet(cands: seq<(string, SyndicationItem)>): set<string> {
    set i | 0 <= i < |cands| :: cands[i].0
  }

  /** The records built for the candidates that pass the gate. */
  function DwRecords(cands: seq<(string, SyndicationItem)>, existing: set<string>, env: DwEnv): seq<NewsItem> {
    ParseAll(Default, Gate(cands, existing), env.sourceName, NoParse, env.now)
  }

  /** `ProcessAsync` of the Deutsche Welle processor. */
  function DwRun(feeds: seq<RdfFeed>, store: set<string>, env: DwEnv): (r: DwOutcome)
    ensures r.queried.None? <==> |DwCandidates(feeds, env)| == 0
    ensures r.log.sourceName == env.sourceName && r.log.executionTime == env.startTime
  {
    var cands := DwCandidates(feeds, env);
    var total := FetchedCount(0, feeds);
    if |cands| == 0 then
      DwOutcome(ProcessLog(env.sourceName, env.startTime, total, 0, 0, 0, NoNewItemsNote), None, 0, [], false)
    else
      var links := KeySet(cands);
      var existing := store * links;
      DwFinish(total, links, existing, DwRecords(cands, existing, env), env)
  }

  /** The run after the store query: `existing` are the queried links found
      stored, `toInsert` the records built for the rest. */
  function DwFinish(total: Int32, links: set<string>, existing: set<string>, toInsert: seq<NewsItem>, env: DwEnv): (r: DwOutcome)
    ensures r.queried == Some(links) && r.duplicatesFound == |existing|
    ensures r.log.sourceName == env.sourceName && r.log.executionTime == env.startTime
  {
    var n := |toInsert|;
    if n == 0 then
      DwOutcome(ProcessLog(env.sourceName, env.startTime, total, 0, 0, 0, NoValidItemsNote), Some(links), |existing|, [], false)
    else match env.insertError
      case Some(msg) =>
        DwOutcome(ProcessLog(env.sourceName, env.startTime, total, 0, 0, 0, InsertFailedPrefix + msg), Some(links), |existing|, toInsert, false)
      case None =>
        var log := ProcessLog(env.sourceName, env.startTime, Wrap32(total + n), Wrap32(n), env.sent, env.failed,
                              CompletedPrefix + env.durationText + "s");
        DwOutcome(log, Some(links), |existing|, toInsert, true)
  }

  /** The run's path, with the note and the counts logged on it. */
  predicate PathLogged(r: DwOutcome, total: Int32, env: DwEnv) {
    && (r.queried.None? ==> r.log.notes == NoNewItemsNote && r.log.totalFetched == total && !r.delivered && r.toInsert == [])
    && (r.queried.Some? && |r.toInsert| == 0 ==> r.log.notes == NoValidItemsNote && r.log.totalFetched == total && !r.delivered)
    && (|r.toInsert| > 0 && env.insertError.Some? ==>
          r.log.notes == InsertFailedPrefix + env.insertError.value && r.log.totalFetched == total && !r.delivered)
    && (|r.toInsert| > 0 && env.insertError.None? ==>
          && r.delivered && r.log.notes == CompletedPrefix + env.durationText + "s"
          && r.log.totalFetched == Wrap32(total + |r.toInsert|) && r.log.newInserted == Wrap32(|r.toInsert|)
          && r.log.sentToTelegram == env.sent && r.log.failedToSend == env.failed)
    && (!r.delivered ==> r.log.newInserted == 0 && r.log.sentToTelegram == 0 && r.log.failedToSend == 0)
  }

  lemma FinishPath(total: Int32, links: set<string>, existing: set<string>, toInsert: seq<NewsItem>, env: DwEnv)
    ensures PathLogged(DwFinish(total, links, existing, toInsert, env), total, env)
    ensures DwFinish(total, links, existing, toInsert, env).toInsert == (if |toInsert| == 0 then [] else toInsert)
  {
  }

  /** Exactly one log per run, whose note names the path taken; only the
      completed path records inserted or sent counts, and its item count is
      every `<item>` of every loaded document, usable or not, plus the
      inserted records once more. */
  lemma DwRunPaths(feeds: seq<RdfFeed>, store: set<string>, env: DwEnv)
    ensures PathLogged(DwRun(feeds, store, env), Wrap32(RawCount(feeds)), env)
  {
    FetchedCountFromZero(feeds);
    var cands := DwCandidates(feeds, env);
    if |cands| > 0 {
      var links := KeySet(cands);
      var existing := store * links;
      var ins := DwRecords(cands, existing, env);
      assert DwRun(feeds, store, env) == DwFinish(FetchedCount(0, feeds), links, existing, ins, env);
      FinishPath(FetchedCount(0, feeds), links, existing, ins, env);
    }
  }

  /** The four notes are told apart: the note alone identifies the path. */
  lemma NotesDiffer(env: DwEnv)
    ensures NoValidItemsNote != NoNewItemsNote
    ensures env.insertError.Some? ==> InsertFailedPrefix + env.insertError.value != NoNewItemsNote
    ensures env.insertError.Some? ==> InsertFailedPrefix + env.insertError.value != NoValidItemsNote
    ensures CompletedPrefix + env.durationText + "s" != NoNewItemsNote
    ensures CompletedPrefix + env.durationText + "s" != NoValidItemsNote
    ensures env.insertError.Some? ==> InsertFailedPrefix + env.insertError.value != CompletedPrefix + env.durationText + "s"
  {
    assert NoNewItemsNote[3] == 'n';
    assert NoValidItemsNote[3] == 'v';
    assert NoNewItemsNote[0] == 'N' && NoValidItemsNote[0] == 'N';
    if env.insertError.Some? {
      assert (InsertFailedPrefix + env.insertError.value)[0] == 'I';
    }
    assert (CompletedPrefix + env.durationText + "s")[0] == 'C';
  }

  /** The logged counts without wrap-around: the item total, plus the
      inserted records once more when the run completed. */
  predicate CountsExact(r: DwOutcome, raw: nat) {
    && (r.delivered ==> r.log.totalFetched == raw + |r.toInsert| && r.log.newInserted == |r.toInsert|)
    && (!r.delivered ==> r.log.totalFetched == raw)
  }

  /** The logged total with the wrap-around made explicit: below 2^31 items
      the count is exact. */
  lemma DwRunFetchedCount(feeds: seq<RdfFeed>, store: set<string>, env: DwEnv)
    requires RawCount(feeds) + |DwRun(feeds, store, env).toInsert| <= MaxInt32
    ensures CountsExact(DwRun(feeds, store, env), RawCount(feeds))
  {
    DwRunPaths(feeds, store, env);
    PathCountsExact(DwRun(feeds, store, env), RawCount(feeds), env);
  }

  /** On every path, a total below 2^31 is logged without wrapping. */
  lemma PathCountsExact(r: DwOutcome, raw: nat, env: DwEnv)
    requires PathLogged(r, Wrap32(raw), env)
    requires raw + |r.toInsert| <= MaxInt32
    ensures CountsExact(r, raw)
  {
    assert Wrap32(raw) == raw;
    if r.delivered {
      assert Wrap32(raw + |r.toInsert|) == raw + |r.toInsert|;
    }
  }

  /** `duplicatesFound` is the number of distinct queried links already stored;
      a candidate whose raw link is stored is never parsed or inserted. */
  lemma DwRunGate(feeds: seq<RdfFeed>, store: set<string>, env: DwEnv)
    requires DwRun(feeds, store, env).queried.Some?
    ensures var r := DwRun(feeds, store, env);
      && r.duplicatesFound == |store * r.queried.value|
      && r.toInsert == ParseAll(Default, Gate(DwCandidates(feeds, env), store), env.sourceName, NoParse, env.now)
  {
    var cands := DwCandidates(feeds, env);
    GateRestrict(cands, KeySet(cands), store);
    FinishPath(FetchedCount(0, feeds), KeySet(cands), store * KeySet(cands), DwRecords(cands, store * KeySet(cands), env), env);
  }

  /** An unusable item is skipped, yet counted. */
  lemma SkippedButCounted(x: RdfItem, items: seq<RdfItem>, env: DwEnv)
    requires !Usable(x)
    ensures Built([x] + items, env) == Built(items, env)
    ensures RawCount([Fetched([x] + items)]) == |items| + 1
  {
    assert ([x] + items)[1..] == items;
  }

  /** A link the `Uri` constructor rejects ends its document: nothing after it
      is collected, while the later documents still are. */
  lemma {:induction false} InvalidUriDropsRest(xs: seq<RdfItem>, x: RdfItem, ys: seq<RdfItem>, env: DwEnv)
    requires Usable(x) && env.parseUri(x.link.value).None?
    requires forall i :: 0 <= i < |xs| ==> !Usable(xs[i]) || env.parseUri(xs[i].link.value).Some?
    ensures Built(xs + [x] + ys, env) == Built(xs, env)
    decreases |xs|
  {
    if |xs| == 0 {
      assert xs + [x] + ys == [x] + ys;
    } else {
      assert (xs + [x] + ys)[1..] == xs[1..] + [x] + ys;
      assert (xs + [x] + ys)[0] == xs[0];
      InvalidUriDropsRest(xs[1..], x, ys, env);
    }
  }

  /** Documents contribute independently: a failing URL does not affect the others. */
  lemma {:induction false} AllBuiltAppend(a: seq<RdfFeed>, b: seq<RdfFeed>, env: DwEnv)
    ensures AllBuilt(a + b, env) == AllBuilt(a, env) + AllBuilt(b, env)
    decreases |a|
  {
    if |a| == 0 {
      assert a + b == b;
    } else {
      assert (a + b)[1..] == a[1..] + b;
      assert (a + b)[0] == a[0];
      AllBuiltAppend(a[1..], b, env);
    }
  }

  /** The gate keys on the raw link while the store holds the `Uri`
      rendering: when the rendering differs (here `Uri` adds a trailing '/'),
      an article stored by an earlier run passes the gate, is counted as no
      duplicate and is handed to `InsertManyAsync` once more, where the
      collection's unique link index makes the insert fail. Gating on the
      rendered link lets nothing through. */
  lemma RawLinkGateMissesStoredLink(env: DwEnv)
    requires env.parseUri("http://dw.com") == Some("http://dw.com/")
    ensures var feeds := [Fetched([RdfItem(Some("T"), Some("http://dw.com"), None, None)])];
      var r := DwRun(feeds, {"http://dw.com/"}, env);
      && r.duplicatesFound == 0
      && |r.toInsert| == 1
      && r.toInsert[0].link == "http://dw.com/"
      && (env.insertError.Some? ==> r.log.notes == InsertFailedPrefix + env.insertError.value && !r.delivered)
  {
    var x := RdfItem(Some("T"), Some("http://dw.com"), None, None);
    var feeds := [Fetched([x])];
    var item := ToSyndication(x, "http://dw.com/", env);
    SingleCandidate(x, env);
    var cands := DwCandidates(feeds, env);
    var links := KeySet(cands);
    assert links == {"http://dw.com"};
    var store: set<string> := {"http://dw.com/"};
    assert "http://dw.com/" != "http://dw.com";
    assert store * links == {};
    RenderedLinkKey(item);
    assert cands[1..] == [];
    assert Gate(cands, {}) == cands;
    var rec := ParseItem(Default, item, env.sourceName, NoParse, env.now);
    assert rec.Some? && rec.value.link == "http://dw.com/";
    assert DwRecords(cands, {}, env) == [rec.value];
    assert DwRun(feeds, store, env) == DwFinish(FetchedCount(0, feeds), links, {}, [rec.value], env);
  }

  /** Gating the same document on the rendered link finds the stored
      article and builds no record. */
  lemma RenderedGateStopsStoredLink(env: DwEnv)
    requires env.parseUri("http://dw.com") == Some("http://dw.com/")
    ensures var feeds := [Fetched([RdfItem(Some("T"), Some("http://dw.com"), None, None)])];
      DwRecordsRendered(DwCandidates(feeds, env), {"http://dw.com/"}, env) == []
  {
    var x := RdfItem(Some("T"), Some("http://dw.com"), None, None);
    var item := ToSyndication(x, "http://dw.com/", env);
    SingleCandidate(x, env);
    RenderedLinkKey(item);
    var cands := [("http://dw.com", item)];
    assert cands[1..] == [];
    assert RenderedKeyed(cands[1..]) == [];
    var keyed := RenderedKeyed(cands);
    assert keyed == [("http://dw.com/", item)] + RenderedKeyed(cands[1..]);
    assert keyed[1..] == [];
    assert Gate(keyed, {"http://dw.com/"}) == [];
  }

  /** The candidates keyed by the link their record will carry (the `Uri`
      rendering) instead of the raw link; a candidate without one is dropped. */
  function RenderedKeyed(cands: seq<(string, SyndicationItem)>): (r: seq<(string, SyndicationItem)>)
    ensures forall i :: 0 <= i < |r| ==> LinkKey(r[i].1) == Some(r[i].0)
    ensures forall i :: 0 <= i < |cands| && LinkKey(cands[i].1).Some? ==> (LinkKey(cands[i].1).value, cands[i].1) in r
  {
    if |cands| == 0 then []
    else
      var rest := RenderedKeyed(cands[1..]);
      assert forall i :: 1 <= i < |cands| ==> cands[i] == cands[1..][i - 1];
      match LinkKey(cands[0].1)
      case None => rest
      case Some(k) => [(k, cands[0].1)] + rest
  }

  /** The records a gate on the rendered link would build: none carries a
      stored link, and every candidate whose rendered link is not stored
      yields one. */
  function DwRecordsRendered(cands: seq<(string, SyndicationItem)>, store: set<string>, env: DwEnv): (r: seq<NewsItem>)
    ensures forall i :: 0 <= i < |r| ==> r[i].link !in store
    ensures forall c :: c in cands && LinkKey(c.1).Some? && LinkKey(c.1).value !in store ==>
      exists i :: 0 <= i < |r| && r[i].link == LinkKey(c.1).value
  {
    var keyed := RenderedKeyed(cands);
    var g := Gate(keyed, store);
    GateKeepsLinks(keyed, store);
    ParseAllKeepsAll(Default, g, env.sourceName, NoParse, env.now);
    var r := ParseAll(Default, g, env.sourceName, NoParse, env.now);
    forall c | c in cands && LinkKey(c.1).Some? && LinkKey(c.1).value !in store
      ensures exists i :: 0 <= i < |r| && r[i].link == LinkKey(c.1).value
    {
      RenderedRecordFor(cands, store, env, c);
    }
    r
  }

  /** A candidate whose rendered link is not stored yields a record. */
  lemma RenderedRecordFor(cands: seq<(string, SyndicationItem)>, store: set<string>, env: DwEnv, c: (string, SyndicationItem))
    requires c in cands && LinkKey(c.1).Some? && LinkKey(c.1).value !in store
    ensures var r := ParseAll(Default, Gate(RenderedKeyed(cands), store), env.sourceName, NoParse, env.now);
      exists i :: 0 <= i < |r| && r[i].link == LinkKey(c.1).value
  {
    var keyed := RenderedKeyed(cands);
    RenderedPasses(cands, store, c);
    GateKeepsLinks(keyed, store);
    KeyedCover(Gate(keyed, store), env, (LinkKey(c.1).value, c.1));
  }

  /** Such a candidate passes the rendered gate. */
  lemma RenderedPasses(cands: seq<(string, SyndicationItem)>, store: set<string>, c: (string, SyndicationItem))
    requires c in cands && LinkKey(c.1).Some? && LinkKey(c.1).value !in store
    ensures (LinkKey(c.1).value, c.1) in Gate(RenderedKeyed(cands), store)
  {
    var n :| 0 <= n < |cands| && cands[n] == c;
    assert (LinkKey(c.1).value, c.1) in RenderedKeyed(cands);
  }

  /** Keyed candidates parse one for one into records carrying their keys. */
  lemma KeyedCover(g: seq<(string, SyndicationItem)>, env: DwEnv, x: (string, SyndicationItem))
    requires forall i :: 0 <= i < |g| ==> LinkKey(g[i].1) == Some(g[i].0)
    requires x in g
    ensures var ins := ParseAll(Default, g, env.sourceName, NoParse, env.now);
      exists i :: 0 <= i < |ins| && ins[i].link == x.0
  {
    ParseAllKeepsAll(Default, g, env.sourceName, NoParse, env.now);
    FollowersCover(ParseAll(Default, g, env.sourceName, NoParse, env.now), g, x);
  }

  /** The one-item document yields exactly one candidate. */
  lemma SingleCandidate(x: RdfItem, env: DwEnv)
    requires x == RdfItem(Some("T"), Some("http://dw.com"), None, None)
    requires env.parseUri("http://dw.com") == Some("http://dw.com/")
    ensures DwCandidates([Fetched([x])], env) == [("http://dw.com", ToSyndication(x, "http://dw.com/", env))]
  {
    var feeds := [Fetched([x])];
    assert [x][1..] == [];
    var item := ToSyndication(x, "http://dw.com/", env);
    var p: (string, SyndicationItem) := ("http://dw.com", item);
    var ps: seq<(string, SyndicationItem)> := [p];
    assert Built([x], env) == ps;
    assert feeds[1..] == [];
    assert AllBuilt(feeds, env) == ps;
    assert ps[1..] == [];
    var m := Merge(ps, RawKey, {});
    assert m == [("http://dw.com", p)] + Merge(ps[1..], RawKey, {} + {"http://dw.com"});
    assert Unpair(m) == ps;
  }

  /** The rendered link is already trimmed. */
  lemma RenderedLinkKey(item: SyndicationItem)
    requires item.links == [Some("http://dw.com/")]
    ensures LinkKey(item) == Some("http://dw.com/")
  {
    VisibleAsciiNotWhiteSpace('h');
    VisibleAsciiNotWhiteSpace('/');
    TrimIdentity("http://dw.com/");
  }
}
