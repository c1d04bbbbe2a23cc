# ForNewsRSS core, modelled in Dafny

ForNewsRSS polls RSS feeds for a set of news sources. It normalises each
syndication item into a `NewsItem`, inserts the records into MongoDB and
posts them to a Telegram channel. The base processors empty their
collection at the start of every run, so their check against stored links
finds nothing and every run inserts and posts every item again; the
Deutsche Welle processor and the earlier single-collection service keep
their collections and skip links already stored.
A separate controller exports untranslated news as JSON and merges uploaded
translations back into a per-language collection. A plain-text report
summarises the process logs and the Telegram error log.

This project models the pure decision logic of that pipeline.

- **Normalisation and extraction strategies** (`feed.dfy`, `images.dfy`,
  `sanitize.dfy`, `processors.dfy`):
  - the base `ParseItem`/`ExtractImage`;
  - the BBC, CNN, ABC News and Guardian overrides;
  - the Guardian summary clean-up;
  - the `CreateProcessor` dispatch.
- **Per-run dedup** (`collect.dfy`, `deutschewelle.dfy`, `legacy.dfy`):
  - first-seen-wins merge of links across a source's URLs;
  - the gate against stored links;
  - the Deutsche Welle RDF path with its process log;
  - the earlier single-collection service with its own image rule and send order.
- **Delivery** (`telegram.dfy`):
  - HTML escaping and message layout;
  - photo or text choice with the bad-request fallback;
  - the rate-limit retry rule, as a function over a finite sequence of responses.
- **Scheduling** (`scheduler.dfy`):
  - the staggered first runs;
  - the per-source periodic loop, its tick arithmetic and failure containment.
- **Report and translations** (`reporting.dfy`, `translation.dfy`):
  - per-source aggregation with checked sums;
  - the newest-100 error list and fixed-width cells;
  - the untranslated filter, download and upload validation;
  - the in-memory join of uploaded translations.

Shared pieces:

- `common.dfy`: `Option` for C# null, `Int32` and `Wrap32` for unchecked `int`, and `Instant` for dates as integer ticks.
- `text.dfy`: .NET `Trim`, `Contains`, ordinal `Replace` and the padding functions.
- `sorting.dfy`: a stable `SortBy` (LINQ `OrderBy`) and ordinal string order.
- `entities.dfy`: the `ProcessLog` and `TelegramErrorLog` records.

Parameters stand in for everything outside the program:

- the current time (`now`);
- `int.TryParse`, `DateTimeOffset.TryParse` and `new Uri(link).ToString()`;
- the calendar conversion of an instant;
- the loaded feeds, or a failure to load them;
- the store's links;
- the sequence of Bot API responses;
- the duration and outcome of each scheduled run.

Behaviour that differs from what names and comments suggest:

- The one-off staggered pass awaits each source's `i * 5` second delay in turn. Source `i` therefore starts 5·i(i+1)/2 seconds in, not `i * 5` (`Scheduler.StaggeredStarts`).
- Only the Deutsche Welle processor writes a process log. The base `ProcessAsync` writes none.
- A failure inside `ProcessAsync` is caught per run. A failure while building the scope or the processor escapes `ProcessSourceAsync` and ends that source's loop (`Scheduler.LoopEnds`).
- `CreateProcessor` has no case for "DeutscheWelle", so that source gets the default processor.
- The base `ProcessAsync` deletes every record of its collection before querying it for stored links (`Collect.BaseProcess`).
- The translation upload filters the originals by the uploaded ids, and `Id` is stored as an ObjectId. So any non-empty uploaded id that is not 24 hexadecimal digits fails the whole upload, even when it names nothing (`Translation.MalformedIdFails`).
- The ABC News ranking key, the report's error rows and its message cells are modelled as written; the corrected versions sit beside them (see "## Findings").

## Model

| member | source | states |
|---|---|---|
| Common.Wrap32 | ForNewsRSS/RssProcessor/ABCNewsRssProcessor.cs:39 | unchecked `int` arithmetic: the result is congruent to the exact value modulo 2^32, and equals it when it fits in 32 bits |
| Text.Trim | ForNewsRSS/Abstract/RssFeedProcessor.cs:52 | exactly the leading and trailing .NET white space is dropped; the result is empty iff the input is all white space, and otherwise neither starts nor ends in white space |
| Text.TrimIdentity | ForNewsRSS/Abstract/RssFeedProcessor.cs:113 | trimming a string without surrounding white space changes nothing, so trimming twice is trimming once |
| Text.ReplaceAllLength | ForNewsRSS/RssProcessor/BBCRssProcessor.cs:26 | `Replace` changes the length by (replacement length minus pattern length) per rewritten occurrence |
| Text.OccurrencesContains | ForNewsRSS/RssProcessor/BBCRssProcessor.cs:24-26 | `Replace` rewrites at least one occurrence exactly when `Contains` holds |
| Text.ReplaceAllAbsent | ForNewsRSS/RssProcessor/BBCRssProcessor.cs:24-29 | a string without the pattern comes back from `Replace` unchanged |
| Text.PadRight | ForNewsRSS/Extensions/ReportingEndpoints.cs:76 | the text is kept as a prefix and followed by spaces up to the width; it is never truncated |
| Text.PadLeft | ForNewsRSS/Extensions/ReportingEndpoints.cs:45 | the text is kept as a suffix and preceded by spaces up to the width; it is never truncated |
| Feed.FirstLink | ForNewsRSS/Abstract/RssFeedProcessor.cs:113 | no link, or a first link without a URI, gives null; otherwise the first link trimmed |
| Feed.LinkKey | ForNewsRSS/Abstract/RssFeedProcessor.cs:113-115 | an item has an identity exactly when its trimmed first link is present and non-empty, and the identity is that link |
| Feed.ResolvePublishDate | ForNewsRSS/Abstract/RssFeedProcessor.cs:119-123 | publish date unless MinValue, else last-updated unless MinValue, else now |
| Feed.NormalizeBase | ForNewsRSS/Abstract/RssFeedProcessor.cs:111-134 | null exactly when the item has no usable link; otherwise the link, source name, extracted image, defaulted title and summary, and resolved date, with no id |
| Feed.TitleTrimmed | ForNewsRSS/Abstract/RssFeedProcessor.cs:127 | a record's title never has surrounding white space, the "No title" placeholder included |
| Feed.NormalizeBaseWellFormed | ForNewsRSS/Abstract/RssFeedProcessor.cs:125-133 | every normalised record has a non-empty trimmed link equal to the item's first link, and a trimmed title and summary |
| Feed.TitleDefaults | ForNewsRSS/Abstract/RssFeedProcessor.cs:127 | "No title" appears only for a missing title; a white-space title becomes ""; any other title stays non-empty |
| Feed.PublishDateBranches | ForNewsRSS/Abstract/RssFeedProcessor.cs:119-123 | the three branches of the date chain on concrete dates |
| Images.FirstMedia | ForNewsRSS/Abstract/RssFeedProcessor.cs:139-141 | the position `FirstOrDefault` finds: a Media RSS element with the name, with none before it |
| Images.BaseImage | ForNewsRSS/Abstract/RssFeedProcessor.cs:136-159 | the url of the first media:content if there is one (possibly null); else the url of the first media:thumbnail; else null |
| Images.BaseImageNoThumbnailFallback | ForNewsRSS/Abstract/RssFeedProcessor.cs:143-146 | a media:content without url yields null even when a thumbnail with a url exists |
| Images.BaseImageNone | ForNewsRSS/Abstract/RssFeedProcessor.cs:158 | with neither media:content nor media:thumbnail there is no image |
| Images.UpgradeResolution | ForNewsRSS/RssProcessor/BBCRssProcessor.cs:24-27 | null stays null; an empty URL or one without "/240/" is unchanged; a rewritten URL grows by one character per occurrence |
| Images.BbcImage | ForNewsRSS/RssProcessor/BBCRssProcessor.cs:19-30 | the base result, with "/240/" rewritten to "/1024/" only when the result is non-empty and contains it |
| Images.BbcRewriteChangesUrl | ForNewsRSS/RssProcessor/BBCRssProcessor.cs:24-26 | a URL containing "/240/" is really changed, by the number of occurrences |
| Images.BbcRewriteSinglePass | ForNewsRSS/RssProcessor/BBCRssProcessor.cs:26 | "/240/240/" becomes "/1024/240/", which still contains "/240/" |
| Images.FirstImageContent | ForNewsRSS/RssProcessor/CNNRssProcessor.cs:39-40 | the first content child whose medium is "image", in document order |
| Images.CnnImage | ForNewsRSS/RssProcessor/CNNRssProcessor.cs:21-59 | a non-empty base result as is; otherwise null without a media:group; otherwise the url of the first image content of the first group, or null |
| Images.CnnChoiceUnique | ForNewsRSS/RssProcessor/CNNRssProcessor.cs:21-59 | the CNN choice is determined: any result meeting the rule (base result, else the first group's first image content url, else null) is the one `CnnImage` gives |
| Images.CnnOnlyFirstGroup | ForNewsRSS/RssProcessor/CNNRssProcessor.cs:31-32 | image content in a later group is never used when the first group has none |
| Images.BestIndex | ForNewsRSS/RssProcessor/ABCNewsRssProcessor.cs:34-41 | `OrderByDescending(key).FirstOrDefault()`: a position with the maximal key, and every earlier position has a strictly smaller key |
| Images.BestIndexTieEarliest | ForNewsRSS/RssProcessor/ABCNewsRssProcessor.cs:34-41 | of two candidates with equal keys the later one is never chosen |
| Images.ParsedOrZero | ForNewsRSS/RssProcessor/ABCNewsRssProcessor.cs:37-38 | a parseable attribute gives its value; a missing or unparseable one gives 0 |
| Images.AbcCandidates | ForNewsRSS/RssProcessor/ABCNewsRssProcessor.cs:26-29 | exactly the media:thumbnail elements that have a url |
| Images.AbcImageAsWritten | ForNewsRSS/RssProcessor/ABCNewsRssProcessor.cs:21-46 | null iff no candidate; otherwise the url of the earliest candidate whose key, wrapped to 32-bit `int`, is maximal |
| Images.AbcImage | ForNewsRSS/RssProcessor/ABCNewsRssProcessor.cs:21-46 | null iff no candidate; otherwise the url of the earliest candidate maximising width*1000+height |
| Images.AbcKeyIsWidthThenHeight | ForNewsRSS/RssProcessor/ABCNewsRssProcessor.cs:39 | with heights in 0..999 the key orders by width, then by height |
| Images.AbcKeyHeightOverflow | ForNewsRSS/RssProcessor/ABCNewsRssProcessor.cs:39 | a 0x1000 thumbnail listed first is chosen over a 1x0 one, against width-then-height order |
| Images.AbcKeysAgreeInRange | ForNewsRSS/RssProcessor/ABCNewsRssProcessor.cs:39 | when no key overflows, the as-written and corrected choices agree |
| Images.AbcWrapPicksNarrower | ForNewsRSS/RssProcessor/ABCNewsRssProcessor.cs:39 | a 3000000-wide thumbnail wraps to a negative key and loses to a 100-wide one |
| Images.GuardianCandidates | ForNewsRSS/RssProcessor/GuardianRssProcessor.cs:43-47 | exactly the media:content elements with a url whose medium is "image" or absent |
| Images.GuardianImage | ForNewsRSS/RssProcessor/GuardianRssProcessor.cs:38-62 | null iff no candidate; otherwise the url of the earliest widest candidate, unparseable widths counting as 0 |
| Images.GuardianIgnoresThumbnails | ForNewsRSS/RssProcessor/GuardianRssProcessor.cs:43-50 | without media:content there is no image, whatever thumbnails exist |
| Sanitize.StripTagsTagFree | ForNewsRSS/RssProcessor/GuardianRssProcessor.cs:29 | after the replacement no match of `<.*?>` remains |
| Sanitize.StripTagsIdentity | ForNewsRSS/RssProcessor/GuardianRssProcessor.cs:29 | a text without a match is left unchanged |
| Sanitize.StripTagsIdempotent | ForNewsRSS/RssProcessor/GuardianRssProcessor.cs:29 | a second replacement changes nothing |
| Sanitize.StripTagsShrinks | ForNewsRSS/RssProcessor/GuardianRssProcessor.cs:29 | the replacement only removes characters and keeps every newline |
| Sanitize.Truncate | ForNewsRSS/RssProcessor/GuardianRssProcessor.cs:31-32 | up to 800 characters unchanged; longer gives the first 800 then "...", 803 in all |
| Sanitize.SanitizeSummary | ForNewsRSS/RssProcessor/GuardianRssProcessor.cs:27-33 | an empty summary is untouched; otherwise the tag-stripped text when it has at most 800 characters, else its first 800 followed by "..."; never over 803 characters and never containing a tag |
| Sanitize.SanitizeSummaryIdempotent | ForNewsRSS/RssProcessor/GuardianRssProcessor.cs:27-33 | cleaning a cleaned summary changes nothing |
| Sanitize.TagFreeCut | ForNewsRSS/RssProcessor/GuardianRssProcessor.cs:31-32 | cutting a tag-free text and appending a suffix without '<' keeps it tag-free, so the truncation cannot create a tag |
| Processors.CreateProcessor | ForNewsRSS/Services/RssBackgroundService.cs:113-120 | a dedicated processor only for its exact registered name; the default for every other name |
| Processors.CreateProcessorRegistered | ForNewsRSS/Services/RssBackgroundService.cs:113-120 | each dedicated processor is selected by exactly its registered name |
| Processors.CreateProcessorDefaults | ForNewsRSS/Services/RssBackgroundService.cs:119 | "DeutscheWelle", "LeaderIr", "NYTimes", "bbc" and "ABC" get the default processor |
| Processors.ExtractImage | ForNewsRSS/Abstract/RssFeedProcessor.cs:117 | the virtual call resolves to the selected processor's image strategy, ABC with its 32-bit key; the default and BBC strategies find an image iff the base rule does, ABC iff some thumbnail has a url, Guardian iff some image content has a url; a usable base URL without "/240/" is kept by the default, BBC and CNN strategies |
| Processors.ExtractImageNoMedia | ForNewsRSS/Abstract/RssFeedProcessor.cs:136-159 | an item without media:content, media:thumbnail or media:group has no image under any processor |
| Processors.ExtractImageOnlyCandidates | ForNewsRSS/RssProcessor/ABCNewsRssProcessor.cs:26-29 | ABC and Guardian look only at their candidate elements: items with the same candidates get the same image |
| Processors.AbcParseItemInRange | ForNewsRSS/RssProcessor/ABCNewsRssProcessor.cs:34-41 | when no candidate's key overflows, the ABC record carries the image of the exact ranking |
| Processors.ParseItem | ForNewsRSS/Abstract/RssFeedProcessor.cs:111-134 | null iff no usable link; otherwise the base fields with the processor's image (ABC ranked by its 32-bit key), and Guardian's summary cleaned |
| Processors.OnlyImageDiffers | ForNewsRSS/RssProcessor/BBCRssProcessor.cs:19-30 | two non-Guardian processors produce records that differ at most in the image |
| Processors.GuardianParseItemFromBase | ForNewsRSS/RssProcessor/GuardianRssProcessor.cs:22-36 | Guardian returns null exactly when the base does; otherwise the base record with its own image and the cleaned summary |
| Processors.GuardianSummaryBounded | ForNewsRSS/RssProcessor/GuardianRssProcessor.cs:27-33 | a Guardian summary never exceeds 803 characters and never contains a tag |
| Processors.ParseItemWellFormed | ForNewsRSS/Abstract/RssFeedProcessor.cs:125-133 | every non-Guardian record is well formed |
| Collect.Merge | ForNewsRSS/Abstract/RssFeedProcessor.cs:50-60 | entries carry their item's key, never a key already seen, no key twice, and only items of the input |
| Collect.MergeFrom | ForNewsRSS/Abstract/RssFeedProcessor.cs:50-60 | the loop resumed at any position, with the keys seen so far, yields the first occurrences from there on |
| Collect.MergeIsFirsts | ForNewsRSS/Abstract/RssFeedProcessor.cs:50-60 | the merge is exactly the reference list of first occurrences, in encounter order |
| Collect.MergeEntryIsFirst | ForNewsRSS/Abstract/RssFeedProcessor.cs:56-58 | each merged entry is the first item carrying its link |
| Collect.MergeComplete | ForNewsRSS/Abstract/RssFeedProcessor.cs:50-60 | every present link not already seen gets an entry |
| Collect.MergeKeys | ForNewsRSS/Abstract/RssFeedProcessor.cs:56 | a link has an entry iff some item carries it |
| Collect.Gate | ForNewsRSS/Abstract/RssFeedProcessor.cs:87-91 | kept candidates are not stored, and every unstored candidate is kept |
| Collect.GateAppend | ForNewsRSS/Abstract/RssFeedProcessor.cs:87-91 | the gate works candidate by candidate, so it keeps the order |
| Collect.GateRestrict | ForNewsRSS/Abstract/RssFeedProcessor.cs:77-82 | querying only the candidates' links selects the same candidates as consulting the whole store |
| Collect.LoadedItems | ForNewsRSS/Abstract/RssFeedProcessor.cs:37-48 | no feeds give no items |
| Collect.LoadedItemsMembers | ForNewsRSS/Abstract/RssFeedProcessor.cs:37-48 | an item is loaded iff some feed loaded and contains it |
| Collect.LoadedItemsAppend | ForNewsRSS/Abstract/RssFeedProcessor.cs:37-48 | feeds contribute in URL order, each independently |
| Collect.BaseProcess | ForNewsRSS/Abstract/RssFeedProcessor.cs:30-96 | the run after the collection was emptied: it stops early iff no item has a usable link, and otherwise inserts distinct records of the source |
| Collect.BaseProcessReinserts | ForNewsRSS/Abstract/RssFeedProcessor.cs:32-96 | every usable link is inserted again, whatever the collection held before the run |
| Collect.BaseProcessIgnoresStore | ForNewsRSS/Abstract/RssFeedProcessor.cs:32 | the run does not depend on what was stored before it |
| Collect.ParseAll | ForNewsRSS/Abstract/RssFeedProcessor.cs:92-95 | parsing never adds records |
| Collect.ParseAllKeepsAll | ForNewsRSS/Abstract/RssFeedProcessor.cs:92-95 | candidates with usable links all parse, one record each in order, carrying the candidate's link |
| Collect.ProcessRun | ForNewsRSS/Abstract/RssFeedProcessor.cs:37-96 | the run stops before the store query iff no item has a usable link; otherwise it queries exactly the set of usable links |
| Collect.MergeEmpty | ForNewsRSS/Abstract/RssFeedProcessor.cs:70-74 | an empty candidate list means no item had a usable link |
| Collect.MergeSameKeys | ForNewsRSS/Abstract/RssFeedProcessor.cs:77-78 | the links queried are all the usable links of the loaded items |
| Collect.ProcessRunFresh | ForNewsRSS/Abstract/RssFeedProcessor.cs:77-96 | against the links stored before the run, nothing already stored is inserted, no link twice, and every record is well formed under the source's name |
| Collect.ProcessRunComplete | ForNewsRSS/Abstract/RssFeedProcessor.cs:87-96 | every usable link that is not stored gets a record |
| Collect.GatedRecordsFresh | ForNewsRSS/Abstract/RssFeedProcessor.cs:87-96 | records built from gated candidates are fresh and distinct |
| Collect.GatedRecordsComplete | ForNewsRSS/Abstract/RssFeedProcessor.cs:87-96 | an unstored candidate yields a record with its link |
| Collect.RecordsFollowCandidates | ForNewsRSS/Abstract/RssFeedProcessor.cs:92-95 | one record per distinct keyed candidate, in order, with the candidate's link |
| Collect.GateDistinct | ForNewsRSS/Abstract/RssFeedProcessor.cs:87-91 | gating keeps distinct links distinct |
| DeutscheWelle.ParseDcDate | ForNewsRSS/RssProcessor/DeutscheWelleRssProcessor.cs:221-231 | now for a null or empty date, the parsed value when parsing succeeds, now otherwise |
| DeutscheWelle.Built | ForNewsRSS/RssProcessor/DeutscheWelleRssProcessor.cs:76-103 | at most one built item per `<item>`, each with a non-empty raw link |
| DeutscheWelle.AllBuilt | ForNewsRSS/RssProcessor/DeutscheWelleRssProcessor.cs:43-117 | every built item of every document has a non-empty raw link |
| DeutscheWelle.FetchedCountIsTotal | ForNewsRSS/RssProcessor/DeutscheWelleRssProcessor.cs:73 | the unchecked running count equals the item total wrapped once |
| DeutscheWelle.FetchedCountFromZero | ForNewsRSS/RssProcessor/DeutscheWelleRssProcessor.cs:34 | from zero, the count is the wrapped total of `<item>` elements of the loaded documents |
| DeutscheWelle.DwCandidates | ForNewsRSS/RssProcessor/DeutscheWelleRssProcessor.cs:99-102 | candidates have distinct raw links and all come from built items |
| DeutscheWelle.DwFirstSeen | ForNewsRSS/RssProcessor/DeutscheWelleRssProcessor.cs:99-102 | across all documents, the first item carrying a raw link wins |
| DeutscheWelle.DwRun | ForNewsRSS/RssProcessor/DeutscheWelleRssProcessor.cs:29-213 | the store is queried iff there is a candidate; the log carries the source name and start time |
| DeutscheWelle.DwFinish | ForNewsRSS/RssProcessor/DeutscheWelleRssProcessor.cs:134-209 | the queried links and the duplicate count, which is the number of queried links found stored |
| DeutscheWelle.FinishPath | ForNewsRSS/RssProcessor/DeutscheWelleRssProcessor.cs:164-209 | after the query, each path logs its own note and counts; only the completed path delivers |
| DeutscheWelle.DwRunPaths | ForNewsRSS/RssProcessor/DeutscheWelleRssProcessor.cs:122-209 | one log per run, with a note naming the path; only the completed path records inserted and sent counts, and adds the inserted count to the fetched total |
| DeutscheWelle.NotesDiffer | ForNewsRSS/RssProcessor/DeutscheWelleRssProcessor.cs:127-209 | the four notes are pairwise different, so the note identifies the path |
| DeutscheWelle.DwRunFetchedCount | ForNewsRSS/RssProcessor/DeutscheWelleRssProcessor.cs:188 | below 2^31, the logged total is the raw item count, plus the inserted count on the completed path |
| DeutscheWelle.PathCountsExact | ForNewsRSS/RssProcessor/DeutscheWelleRssProcessor.cs:188-209 | on every path, totals below 2^31 are logged without wrapping |
| DeutscheWelle.DwRunGate | ForNewsRSS/RssProcessor/DeutscheWelleRssProcessor.cs:139-151 | the duplicate count is the number of distinct queried links already stored; no stored raw link is inserted |
| DeutscheWelle.SkippedButCounted | ForNewsRSS/RssProcessor/DeutscheWelleRssProcessor.cs:83-87 | an item without title or link builds nothing but still counts as fetched |
| DeutscheWelle.InvalidUriDropsRest | ForNewsRSS/RssProcessor/DeutscheWelleRssProcessor.cs:97 | a link the `Uri` constructor rejects ends its document: later items of that URL are dropped |
| DeutscheWelle.AllBuiltAppend | ForNewsRSS/RssProcessor/DeutscheWelleRssProcessor.cs:105-116 | documents contribute independently, so a failing URL does not affect the others |
| DeutscheWelle.RawLinkGateMissesStoredLink | ForNewsRSS/RssProcessor/DeutscheWelleRssProcessor.cs:97-101 | the gate keys on the raw link while the record stores the rendered `Uri`: a stored item is not counted as a duplicate and reaches the insert again, which on an insert error logs "Insert failed" and sends nothing |
| DeutscheWelle.RenderedKeyed | ForNewsRSS/RssProcessor/DeutscheWelleRssProcessor.cs:97-101 | candidates keyed by the link their record will carry; every keyed candidate is kept |
| DeutscheWelle.DwRecordsRendered | ForNewsRSS/RssProcessor/DeutscheWelleRssProcessor.cs:139-160 | a gate on the rendered link builds no record with a stored link, and one for every candidate whose rendered link is not stored |
| DeutscheWelle.RenderedGateStopsStoredLink | ForNewsRSS/RssProcessor/DeutscheWelleRssProcessor.cs:139-160 | on the same document the rendered-link gate builds nothing |
| Legacy.LegacyPickVsBase | ForNewsRSS/NewsRssBackgroundService.cs:110-129 | agrees with the base rule whenever that finds a URL, or there is no thumbnail; otherwise it takes the thumbnail's url |
| Legacy.LegacyThumbnailFallback | ForNewsRSS/NewsRssBackgroundService.cs:119-129 | a media:content without url falls back to the thumbnail, where the base rule yields null |
| Legacy.LegacyImageIsBbcRule | ForNewsRSS/NewsRssBackgroundService.cs:132-135 | where the base rule finds a URL, the stored image is the BBC processor's |
| Legacy.LegacyUpgradesEverySource | ForNewsRSS/NewsRssBackgroundService.cs:132-135 | the "/240/" rewrite also changes the image of a source whose processor would keep it |
| Legacy.TaggedItems | ForNewsRSS/NewsRssBackgroundService.cs:52-75 | no feeds give no items |
| Legacy.TagMembers | ForNewsRSS/NewsRssBackgroundService.cs:60-65 | a tagged pair is exactly an item of the feed with the feed's name |
| Legacy.TaggedItemsMembers | ForNewsRSS/NewsRssBackgroundService.cs:52-75 | a pair is collected iff some feed loaded, contains the item, and carries that name |
| Legacy.LegacyRecordIsBase | ForNewsRSS/NewsRssBackgroundService.cs:138-152 | the record is the base normalisation with the feed's name and this service's image, hence well formed |
| Legacy.Records | ForNewsRSS/NewsRssBackgroundService.cs:144-154 | one record per gated candidate, in order |
| Legacy.LegacyRun | ForNewsRSS/NewsRssBackgroundService.cs:46-168 | returns before the query iff no usable link; queries exactly the usable links; sends a permutation of the inserted records |
| Legacy.NewRecordsFresh | ForNewsRSS/NewsRssBackgroundService.cs:102-105 | nothing already stored is inserted, and no link twice |
| Legacy.NewRecordsComplete | ForNewsRSS/NewsRssBackgroundService.cs:99-155 | every usable link of any feed that is not stored is inserted |
| Legacy.NewRecordsFirstSeen | ForNewsRSS/NewsRssBackgroundService.cs:71-74 | each record comes from the first item with its link, so it keeps the first feed's name |
| Legacy.LegacySendOrder | ForNewsRSS/NewsRssBackgroundService.cs:171-178 | delivery goes oldest first, with equal dates in insertion order |
| Sorting.SortBy | ForNewsRSS/NewsRssBackgroundService.cs:171-173 | the result has the input's length |
| Sorting.SortByPermutes | ForNewsRSS/NewsRssBackgroundService.cs:171-173 | the sort is a permutation |
| Sorting.SortBySorted | ForNewsRSS/NewsRssBackgroundService.cs:171-173 | keys are non-decreasing |
| Sorting.SortByStable | ForNewsRSS/NewsRssBackgroundService.cs:171-173 | elements with equal keys keep their input order |
| Sorting.SortByUnique | ForNewsRSS/NewsRssBackgroundService.cs:171-173 | any sorted permutation that keeps equal keys in input order is the sort's result |
| Sorting.DistinctAscending | ForNewsRSS/Extensions/ReportingEndpoints.cs:34 | the distinct names, strictly ascending in ordinal order, and exactly the input's names |
| Sorting.AscendingDistinct | ForNewsRSS/Extensions/ReportingEndpoints.cs:34 | a strictly ascending list has no name twice |
| Telegram.ReplaceChainIsEscaped | ForNewsRSS/Services/TelegramBotService.cs:138-142 | the four `Replace` passes, "&" first, escape character by character |
| Telegram.EscapedNoMarkup | ForNewsRSS/Services/TelegramBotService.cs:138-142 | escaped text has no raw `<`, `>` or `"` |
| Telegram.EscapedLength | ForNewsRSS/Services/TelegramBotService.cs:138-142 | each `&` adds 4 characters, each `<` and `>` 3, each `"` 5 |
| Telegram.UnescapeEscaped | ForNewsRSS/Services/TelegramBotService.cs:138-142 | decoding the four entities gives the text back |
| Telegram.EscapeHtml | ForNewsRSS/Services/TelegramBotService.cs:135-143 | no raw markup characters, the exact length growth, and decoding restores the input; empty gives empty |
| Telegram.EscapeHtmlInjective | ForNewsRSS/Services/TelegramBotService.cs:135-143 | different texts escape differently |
| Telegram.BuildMessageTitle | ForNewsRSS/Services/TelegramBotService.cs:123-124 | the message opens with the escaped title in bold, which decodes to the record's title |
| Telegram.BuildMessageLink | ForNewsRSS/Services/TelegramBotService.cs:130 | the link is inserted verbatim, unescaped, right before the end of the anchor |
| Telegram.Post | ForNewsRSS/Services/TelegramBotService.cs:87-118 | a call posts at least once iff a response is available, never posts more often than there are responses, and runs out only after using all of them |
| Telegram.PostCharacterised | ForNewsRSS/Services/TelegramBotService.cs:95-117 | the call retries through the leading accepted rate limits, waits the sum of their delays, and the first other response decides it |
| Telegram.PostUnbounded | ForNewsRSS/Services/TelegramBotService.cs:100-110 | n zero-second rate limits then success make n+1 attempts: there is no retry cap |
| Telegram.RetryAfterOverflow | ForNewsRSS/Services/TelegramBotService.cs:107 | `retry_after` of int.MaxValue wraps the wait to a negative delay, which `Task.Delay` rejects |
| Telegram.Deliver | ForNewsRSS/Services/TelegramBotService.cs:25-85 | the delivery never posts more than the responses it is given |
| Telegram.DeliverShape | ForNewsRSS/Services/TelegramBotService.cs:72-84 | photo posts come first, then text posts; the text-only path posts only text |
| Telegram.SendNews | ForNewsRSS/Services/TelegramBotService.cs:25-45 | the delivery of a record never posts more often than there are responses; every ending, failures included, is a returned outcome |
| Telegram.SendNewsPaths | ForNewsRSS/Services/TelegramBotService.cs:29-36 | the text-only path iff the image URL is blank; fallback to text iff the photo call failed with "400" or "BAD_REQUEST" |
| Telegram.SendNewsCarries | ForNewsRSS/Services/TelegramBotService.cs:47-70 | every post carries the chat and the built message; photo posts carry the image URL |
| Telegram.SendNewsOrder | ForNewsRSS/Services/TelegramBotService.cs:77-84 | once a text message is posted no photo follows; the text-only path posts no photo |
| Telegram.BadRequestTextLacks | ForNewsRSS/Services/TelegramBotService.cs:114 | the error text of a 400 reply with body "{}" contains neither "400" nor "BAD_REQUEST" |
| Telegram.BadRequestNeedsBodyText | ForNewsRSS/Services/TelegramBotService.cs:77 | such a reply does not trigger the text fallback: the filter reads the message, not the status |
| Scheduler.StaggeredStarts | ForNewsRSS/Services/RssBackgroundService.cs:69-82 | source i's first run starts 5·i(i+1)/2 seconds in, because the waits are awaited one after another |
| Scheduler.TriMonotone | ForNewsRSS/Services/RssBackgroundService.cs:71-78 | a later source's first run starts later |
| Scheduler.StartedCount | ForNewsRSS/Services/RssBackgroundService.cs:71-78 | the first runs started before a cancellation form a prefix: those whose wait ended before it |
| Scheduler.NextTickAfter | ForNewsRSS/Services/RssBackgroundService.cs:54 | the next tick is strictly later and at least one interval after the previous one |
| Scheduler.Loop | ForNewsRSS/Services/RssBackgroundService.cs:52-66 | the loop never starts more runs than it is given |
| Scheduler.RunPeriodic | ForNewsRSS/Services/RssBackgroundService.cs:39-68 | cancelled in the delay iff a delay exists and cancellation comes first; timer rejected iff the interval is not positive or exceeds 0xFFFFFFFE ms; neither starts a run |
| Scheduler.TimerBounds | ForNewsRSS/Services/RssBackgroundService.cs:50 | a zero interval and one a second past the longest period are refused; the longest period itself runs |
| Scheduler.LoopEndsInLoop | ForNewsRSS/Services/RssBackgroundService.cs:52-66 | the loop itself never ends in one of the outcomes that precede it |
| Scheduler.LoopRate | ForNewsRSS/Services/RssBackgroundService.cs:50-57 | run k starts no earlier than k intervals after the first tick |
| Scheduler.LoopNoOverlap | ForNewsRSS/Services/RssBackgroundService.cs:54-56 | a run starts only after the previous one has finished |
| Scheduler.LoopFirstStart | ForNewsRSS/Services/RssBackgroundService.cs:54-57 | the first run waits for the first tick |
| Scheduler.LoopExactRhythm | ForNewsRSS/Services/RssBackgroundService.cs:50-57 | runs shorter than the interval start exactly on the ticks |
| Scheduler.LoopLogsFailures | ForNewsRSS/Services/RssBackgroundService.cs:97-104 | the errors logged are those of the started runs whose processing threw, in order |
| Scheduler.LoopEnds | ForNewsRSS/Services/RssBackgroundService.cs:52-66 | the loop faults iff the last run started failed to build its processor, with that message; no earlier run did; a loop still running has made every run |
| Scheduler.FailureKeepsStarts | ForNewsRSS/Services/RssBackgroundService.cs:97-104 | a failing `ProcessAsync` does not shift the later runs |
| Scheduler.FailureKeepsEnd | ForNewsRSS/Services/RssBackgroundService.cs:97-104 | a failing `ProcessAsync` does not change how the loop ends |
| Scheduler.Execute | ForNewsRSS/Services/RssBackgroundService.cs:27-37 | either no periodic loop runs or one runs per source, and the loops run only once every source's first run has started |
| Scheduler.NoSectionNoWork | ForNewsRSS/Services/RssBackgroundService.cs:22-24 | a missing "RssSources" section starts nothing |
| Scheduler.ExecuteFirstRuns | ForNewsRSS/Services/RssBackgroundService.cs:69-82 | first runs start at the staggered offsets before the cancellation, the first source at once; the periodic phase runs iff every first run started |
| Scheduler.RunPeriodicRate | ForNewsRSS/Services/RssBackgroundService.cs:41-57 | after the i*5 second delay, each run starts at least one interval after the previous one |
| Scheduler.ExecuteEntry | ForNewsRSS/Services/RssBackgroundService.cs:35 | source i's loop is its periodic processing entered when the staggered pass has ended, and its first run started at its staggered offset |
| Scheduler.PeriodicAfterFirstRun | ForNewsRSS/Services/RssBackgroundService.cs:32-47 | a source's periodic runs start after its own first run, and run k at least k+1 intervals after its initial delay |
| Reporting.SourceBorderShape | ForNewsRSS/Extensions/ReportingEndpoints.cs:30 | the statistics border is the border for column widths 14, 11, 14, 22, 16 |
| Reporting.ErrorBorderShape | ForNewsRSS/Extensions/ReportingEndpoints.cs:68 | the error border is the border for column widths 14, 19, 28, 34 |
| Reporting.HeadersAligned | ForNewsRSS/Extensions/ReportingEndpoints.cs:30-32 | both header rows line up with their borders |
| Reporting.CheckedSum | ForNewsRSS/Extensions/ReportingEndpoints.cs:41-43 | checked `Sum`: when it succeeds it is the exact sum |
| Reporting.CheckedSumFits | ForNewsRSS/Extensions/ReportingEndpoints.cs:41-43 | over non-negative counts the sum succeeds iff the total fits in `int` |
| Reporting.LogsOf | ForNewsRSS/Extensions/ReportingEndpoints.cs:36-38 | exactly the logs of that source, in order |
| Reporting.Summarize | ForNewsRSS/Extensions/ReportingEndpoints.cs:40-43 | executions is the number of the source's logs; the totals are the exact sums of fetched, sent and failed |
| Reporting.SummarizeFits | ForNewsRSS/Extensions/ReportingEndpoints.cs:41-43 | with non-negative counts a summary exists iff each of the three totals fits in `int` |
| Reporting.SummariesOf | ForNewsRSS/Extensions/ReportingEndpoints.cs:34-46 | all summaries exist iff each source's does; one summary per name, in order |
| Reporting.SummariesListSources | ForNewsRSS/Extensions/ReportingEndpoints.cs:34 | sources are listed strictly ascending, and exactly the sources that have logs |
| Reporting.SummariesCount | ForNewsRSS/Extensions/ReportingEndpoints.cs:40 | the executions of the listed sources add up to the number of logs under those names |
| Reporting.ExecutionsAddUp | ForNewsRSS/Extensions/ReportingEndpoints.cs:19-40 | every process log is counted once, under its own source |
| Reporting.SummaryCountBound | ForNewsRSS/Extensions/ReportingEndpoints.cs:40 | a source's executions never exceed the number of logs |
| Reporting.RecentErrors | ForNewsRSS/Extensions/ReportingEndpoints.cs:56-60 | at most 100 errors, and all of them when there are fewer |
| Reporting.RecentErrorsNewestFirst | ForNewsRSS/Extensions/ReportingEndpoints.cs:58 | timestamps are non-increasing, and only logged errors appear |
| Reporting.RecentErrorsTop | ForNewsRSS/Extensions/ReportingEndpoints.cs:56-60 | an error left out means the list is full of errors at least as recent |
| Reporting.ShortTitle | ForNewsRSS/Extensions/ReportingEndpoints.cs:74-76 | always 28 characters: the first 25 and "..." when longer, else the title padded with spaces |
| Reporting.ShortTitleIdempotent | ForNewsRSS/Extensions/ReportingEndpoints.cs:74-76 | shortening a short title changes nothing |
| Reporting.ShortMessage | ForNewsRSS/Extensions/ReportingEndpoints.cs:78-80 | at most 35 characters: the first 32 and "..." when longer, else the message unchanged |
| Reporting.ShortMessageOverflows | ForNewsRSS/Extensions/ReportingEndpoints.cs:78-85 | a message of 35 or more characters fills 35 columns of a 34-column cell |
| Reporting.FittedMessage | ForNewsRSS/Extensions/ReportingEndpoints.cs:78-80 | at most 34 characters: the first 31 and "..." when longer, else unchanged |
| Reporting.FittedMessageIdempotent | ForNewsRSS/Extensions/ReportingEndpoints.cs:78-80 | fitting a fitted message changes nothing |
| Reporting.Digits | ForNewsRSS/Extensions/ReportingEndpoints.cs:83 | a zero-padded field of exactly the width, all digits |
| Reporting.DigitsRoundTrip | ForNewsRSS/Extensions/ReportingEndpoints.cs:83 | reading the digits back gives the number when it fits the width |
| Reporting.Stamp | ForNewsRSS/Extensions/ReportingEndpoints.cs:83 | "yyyy-MM-dd HH:mm:ss" is 19 characters |
| Reporting.StampRoundTrip | ForNewsRSS/Extensions/ReportingEndpoints.cs:83 | parsing a valid stamp gives back the calendar fields |
| Reporting.IntToStringDigits | ForNewsRSS/Extensions/ReportingEndpoints.cs:45 | a number below 10^k renders in at most k characters |
| Reporting.IntToStringWidth | ForNewsRSS/Extensions/ReportingEndpoints.cs:45 | an `int` renders in at most 11 characters, 10 when non-negative |
| Reporting.SourceRowAligned | ForNewsRSS/Extensions/ReportingEndpoints.cs:45 | a source row lines up with the border when the name fits 14 columns |
| Reporting.ErrorRowAsWrittenMisaligned | ForNewsRSS/Extensions/ReportingEndpoints.cs:82-85 | the as-written row has the padded name in its first cell and the stamp followed by ",-19" in the second, so it no longer lines up with the border |
| Reporting.ErrorRowAsWrittenReadsBack | ForNewsRSS/Extensions/ReportingEndpoints.cs:82-85 | the as-written row shows the source name and a stamp that parses back to the error's time, followed by ",-19" |
| Reporting.ErrorRowAligned | ForNewsRSS/Extensions/ReportingEndpoints.cs:82-85 | the corrected row lines up with the border when the source name fits 14 columns |
| Reporting.SourceRows | ForNewsRSS/Extensions/ReportingEndpoints.cs:34-46 | one row per summary, in order |
| Reporting.ErrorRows | ForNewsRSS/Extensions/ReportingEndpoints.cs:72-86 | one as-written row per listed error, in order |
| Reporting.FittedErrorRows | ForNewsRSS/Extensions/ReportingEndpoints.cs:72-86 | one corrected row per listed error, in order |
| Reporting.Opening | ForNewsRSS/Extensions/ReportingEndpoints.cs:24-32 | version line, blank line, title, blank, border, header, border |
| Reporting.Middle | ForNewsRSS/Extensions/ReportingEndpoints.cs:48-54 | closing border, two blanks, the errors title and a blank |
| Reporting.Report | ForNewsRSS/Extensions/ReportingEndpoints.cs:17-91 | the report is produced iff every source's sums fit in `int` |
| Reporting.ReportStatistics | ForNewsRSS/Extensions/ReportingEndpoints.cs:24-48 | opens with "Server Running V:1.103" and a blank line; the source rows sit between the statistics borders |
| Reporting.ReportErrors | ForNewsRSS/Extensions/ReportingEndpoints.cs:53-89 | the error section follows the statistics; "No errors recorded." iff there are no errors, else the bordered table of recent errors |
| Reporting.SourceRowsAligned | ForNewsRSS/Extensions/ReportingEndpoints.cs:30-48 | with names of at most 14 characters, every statistics row lines up with the border |
| Reporting.FittedErrorRowsAligned | ForNewsRSS/Extensions/ReportingEndpoints.cs:68-88 | with source names of at most 14 characters, every corrected error row lines up with the border |
| Reporting.ReportErrorLines | ForNewsRSS/Extensions/ReportingEndpoints.cs:72-86 | the i-th recent error appears on its own line of the report, with its name and its time read back, and the ",-19" misalignment |
| Translation.NotIn | ForNewsRSS/Controllers/TranslationController.cs:92-94 | the originals whose link is not in the list, in order |
| Translation.UntranslatedMeansNoLink | ForNewsRSS/Controllers/TranslationController.cs:88-96 | an original is untranslated iff no translated record has its link, also when nothing is translated |
| Translation.NotInEmpty | ForNewsRSS/Controllers/TranslationController.cs:92-94 | the filter keeps nothing iff every original's link is listed |
| Translation.NotInNothing | ForNewsRSS/Controllers/TranslationController.cs:92-94 | an empty filter keeps every original |
| Translation.UntranslatedCount | ForNewsRSS/Controllers/TranslationController.cs:83-97 | the count is at most the number of originals, all of them for an empty language collection, and zero exactly when every original's link is already translated |
| Translation.Limit | ForNewsRSS/Controllers/TranslationController.cs:114 | a prefix of the list: all of it for 0, else at most the absolute value of n elements |
| Translation.UntranslatedNews | ForNewsRSS/Controllers/TranslationController.cs:99-122 | each exported entry carries the id, title and summary of the picked original |
| Translation.PickedLatestFirst | ForNewsRSS/Controllers/TranslationController.cs:112-114 | untranslated originals only, newest first, as many as the limit allows |
| Translation.PickedTop | ForNewsRSS/Controllers/TranslationController.cs:112-114 | an untranslated original left out means every exported one is at least as recent |
| Translation.Download | ForNewsRSS/Controllers/TranslationController.cs:32-47 | a bad request iff the language is null or empty; otherwise "untranslated_" + lang + ".json" with the picked entries |
| Translation.IncomingIds | ForNewsRSS/Controllers/TranslationController.cs:132 | every non-empty id of the upload, no empty id, and none at all iff every id is null or empty |
| Translation.WithIds | ForNewsRSS/Controllers/TranslationController.cs:138-141 | the originals whose id is among the incoming ids |
| Translation.Lookup | ForNewsRSS/Controllers/TranslationController.cs:154 | `TryGetValue`: an original with that id if there is one |
| Translation.WithIdsLookup | ForNewsRSS/Controllers/TranslationController.cs:138-154 | for an incoming id, the fetched dictionary finds what the whole collection would |
| Translation.Translate | ForNewsRSS/Controllers/TranslationController.cs:160-168 | link, image, date and source from the original; title and summary from the upload, trimmed |
| Translation.BuildRecords | ForNewsRSS/Controllers/TranslationController.cs:150-169 | the loop completes iff every accepted entry has a title and summary; never more records than entries |
| Translation.AcceptedPairs | ForNewsRSS/Controllers/TranslationController.cs:152-158 | the entries with a known id whose original's link is not yet translated, each with its original |
| Translation.BuildRecordsArePairs | ForNewsRSS/Controllers/TranslationController.cs:152-169 | one record per accepted entry, in upload order, built from it and its original |
| Translation.SaveTranslations | ForNewsRSS/Controllers/TranslationController.cs:123-182 | a null or empty upload, or one without a non-empty id, saves nothing; a non-empty id that is not 24 hexadecimal digits fails the save; a save never builds more records than entries |
| Translation.SaveIsTheLoop | ForNewsRSS/Controllers/TranslationController.cs:123-169 | an id that is not an ObjectId fails the save; when every id is one, querying by the incoming ids builds the same records as looking every id up in the whole collection |
| Translation.NothingToLookUp | ForNewsRSS/Controllers/TranslationController.cs:132-135 | against an empty dictionary the loop accepts no entry and builds nothing |
| Translation.SaveFails | ForNewsRSS/Controllers/TranslationController.cs:138-163 | the save fails iff some non-empty id is not an ObjectId (the filter throws) or an accepted entry has a null title or summary |
| Translation.MalformedIdFails | ForNewsRSS/NewsItem.cs:6-8 | `Id` is stored as an ObjectId, so an upload naming the id "abc" fails whatever the store holds |
| Translation.SaveRecords | ForNewsRSS/Controllers/TranslationController.cs:152-169 | a successful save builds one record per accepted entry, in upload order |
| Translation.SavedFresh | ForNewsRSS/Controllers/TranslationController.cs:157-168 | every saved record has a link not yet translated, the link, source and date of an original, and trimmed texts |
| Translation.DuplicateIdsBothSaved | ForNewsRSS/Controllers/TranslationController.cs:144-169 | two entries with the same id both become records with the same link |
| Translation.MissingTextsSavedEmpty | ForNewsRSS/Controllers/TranslationController.cs:195-200 | an entry without title or summary properties keeps their empty defaults and is saved with an empty title and summary |
| Translation.SaveShrinksUntranslated | ForNewsRSS/Controllers/TranslationController.cs:172-174 | after a save, the untranslated originals are those that were, minus the ones whose link was just saved |
| Translation.Upload | ForNewsRSS/Controllers/TranslationController.cs:52-80 | no file is reported first, then a missing language, then a JSON null |
| Translation.UploadReportsSave | ForNewsRSS/Controllers/TranslationController.cs:66-76 | the page reports the number saved, or nothing new; the request fails iff the save does; insertion happens only for a positive count |

## Left out

- Fetching and parsing: HTTP, XML and `SyndicationFeed.Load`, and the RDF document reader. Loaded feeds are parameters, and a failed load is `None`.
- MongoDB: queries and inserts. Each collection is a set or sequence of records; `DeleteManyAsync` at `RssFeedProcessor.cs:32` is the empty store of `Collect.BaseProcess`.
- The unique link index of `DatabaseInitializationService.cs`: an insert it rejects is the Deutsche Welle insert error parameter; in the base pipeline the collection is emptied first, so within one run the merge already keeps links distinct.
- Insert failures in the base pipeline, and the asynchronous `InsertManyAsync` that is never awaited. The Deutsche Welle insert error is a parameter.
- Concurrency and time: timers, `Task.Delay`, cancellation tokens, and the sends that are started but never awaited (`RssFeedProcessor.cs:102`, `NewsRssBackgroundService.cs:161`, `TranslationController.cs:176`). Run durations and the cancellation time are parameters. Times are whole seconds; sub-second timer precision is not modelled, so a period between 0 and 1 second, which `PeriodicTimer` accepts, is not representable.
- The 10-second and 1-second pauses between sends. They only space out posts.
- The clock, `int.TryParse`, `DateTimeOffset.TryParse`, `new Uri(..).ToString()`, and the calendar conversion of an instant. All are parameters.
- JSON: serialising the Bot API payloads and the download file, and deserialising uploads (`JsonList` stands for the result). Null elements in an uploaded list are not modelled.
- The Telegram HTTP transport. Each exchange is an abstract `Response`.
- The Deutsche Welle collaborators `SaveProcessLog` and the tuple-returning `SendToTelegramAsync`, which the base class does not define. Their results (sent and failed counts) are parameters.
- The outer `catch` of the Deutsche Welle run. A critical error writes no log; the model covers the runs that reach a log.
- `Program.cs`, the rest of `DatabaseInitializationService.cs`, the older root-level `TelegramBotService.cs`, and the LeaderIr, NYTimes and default processors. They add no decision logic.
- The MVC plumbing: views, `TempData`, redirects and the anti-forgery check. `Index` adds only the upper-cased language name, which needs culture-sensitive case mapping; its count is `Translation.UntranslatedCount`.
- The string comparison used by `OrderBy` on source names. It is culture-sensitive in .NET; the model uses ordinal order.
- MongoDB's order among equal sort keys. It is unspecified; the model uses a stable sort, which is one allowed order.
- Duplicate `_id` values among the originals. `ToDictionary` would throw on them, but `_id` is unique in MongoDB.
- Line terminators in the report. It is modelled as a list of lines.
- String lengths count UTF-16 code units in .NET. The model counts characters, so surrogate pairs are not modelled.
- The product `index * 5` overflowing `int`. It would need over 400 million sources.
- Scheduler.Loop: a tick that fires during a run is kept, at most one. Every other wait returns on the next grid tick; timer drift is not modelled.
- Telegram.Post: a wait that `Task.Delay` rejects ends the call as `DelayRejected`, not with an exception text, so the photo fallback never treats it as a bad request.

## Findings

| source | as written | input that shows it | evidently intended | confidence | as-written member | corrected member |
|---|---|---|---|---|---|---|
| ForNewsRSS/RssProcessor/ABCNewsRssProcessor.cs:39 | the ranking key `width * 1000 + height` is evaluated in unchecked 32-bit `int` | thumbnails 3000000 and 100 pixels wide: the wide key wraps to -1294967296 and the narrow one is chosen | rank by the exact key, so the widest thumbnail wins | high, not executed | Images.AbcImageAsWritten | Images.AbcImage |
| ForNewsRSS/Extensions/ReportingEndpoints.cs:83 | in `{error.Timestamp:yyyy-MM-dd HH:mm:ss,-19}` everything after the colon is the format string, so ",-19" is printed literally | any error row: the cell reads "2024-01-02 03:04:05,-19" and the row is 4 characters wider than the border | left-align the 19-character stamp in a 19-column cell | high, not executed | Reporting.ErrorRowAsWritten | Reporting.ErrorRow |
| ForNewsRSS/Abstract/RssFeedProcessor.cs:32 | `ProcessAsync` first deletes every record of `News_{Name}`, so the stored-link query at lines 77-82 always comes back empty | a link inserted and posted by the previous run: it is inserted and posted again on every run | skip links stored by earlier runs, which the query and the duplicate check at lines 77-91 exist for | medium, not executed | Collect.BaseProcessReinserts | Collect.ProcessRunFresh |
| ForNewsRSS/RssProcessor/DeutscheWelleRssProcessor.cs:97-101 | candidates are keyed, and the store queried, by the raw `<link>` text, while the record keeps `new Uri(link).ToString()` | "http://dw.com" stored earlier as "http://dw.com/": it is no duplicate, so it goes to `InsertManyAsync` again, where the unique link index rejects it and the run logs "Insert failed" | gate on the link the record stores | medium, not executed | DeutscheWelle.RawLinkGateMissesStoredLink | DeutscheWelle.DwRecordsRendered |
| ForNewsRSS/Extensions/ReportingEndpoints.cs:78-80 | a message longer than 35 characters becomes 32 characters plus "...", 35 in all, in a column padded to 34 | a 36-character error message: its cell is 35 characters wide | cut to fit the 34-character column | medium, not executed | Reporting.ShortMessage | Reporting.FittedMessage |
