/** The per-run dedup pipeline of `RssFeedProcessor.ProcessAsync`: candidates
    are collected across the source's URLs with first-seen-wins on the link,
    then gated against the links already in the store. The merge and the gate
    are generic; the Deutsche Welle processor and the legacy service reuse them. */
module Collect {
  import opened Common
  import opened Text
  import opened Feed
  import opened Images
  import opened Processors

  // ------------------------------------------------------ first-seen merge

  /** The keys of `xs` that are present. */
  function KeysOf<T>(xs: seq<T>, key: T -> Option<string>): set<string> {
    set i | 0 <= i < |xs| && key(xs[i]).Some? :: key(xs[i]).value
  }

  /** The left-to-right loop with a `HashSet`: an element whose key is present
      and not yet seen is kept, paired with its key, and the key becomes seen. */
  function Merge<T>(xs: seq<T>, key: T -> Option<string>, seen: set<string>): (r: seq<(string, T)>)
    ensures forall i :: 0 <= i < |r| ==> r[i].0 !in seen && key(r[i].1) == Some(r[i].0)
    ensures DistinctKeys(r)
    ensures forall i :: 0 <= i < |r| ==> r[i].1 in xs
    decreases |xs|
  {
    if |xs| == 0 then []
    else
      var rest := xs[1..];
      match key(xs[0])
      case None => Merge(rest, key, seen)
      case Some(k) =>
        if k in seen then Merge(rest, key, seen)
        else [(k, xs[0])] + Merge(rest, key, seen + {k})
  }

  /** Reference definition: position `i` holds the first occurrence of its key. */
  predicate IsFirst<T>(xs: seq<T>, key: T -> Option<string>, i: nat)
    requires i < |xs|
  {
    key(xs[i]).Some? && forall j :: 0 <= j < i ==> key(xs[j]) != key(xs[i])
  }

  /** Reference definition: the first occurrences at positions `i` and later, in order. */
  function FirstsFrom<T>(xs: seq<T>, key: T -> Option<string>, i: nat): seq<(string, T)>
    requires i <= |xs|
    decreases |xs| - i
  {
    if i == |xs| then []
    else (if IsFirst(xs, key, i) then [(key(xs[i]).value, xs[i])] else []) + FirstsFrom(xs, key, i + 1)
  }

  lemma KeysOfStep<T>(xs: seq<T>, key: T -> Option<string>, i: nat)
    requires i < |xs|
    ensures KeysOf(xs[..i + 1], key) == KeysOf(xs[..i], key) + (if key(xs[i]).Some? then {key(xs[i]).value} else {})
  {
    var a := xs[..i + 1];
    var b := xs[..i];
    assert forall j :: 0 <= j < i ==> a[j] == b[j];
    assert a[i] == xs[i];
  }

  lemma IsFirstByKeys<T>(xs: seq<T>, key: T -> Option<string>, i: nat)
    requires i < |xs|
    ensures IsFirst(xs, key, i) <==> key(xs[i]).Some? && key(xs[i]).value !in KeysOf(xs[..i], key)
  {
    var b := xs[..i];
    if key(xs[i]).Some? && key(xs[i]).value in KeysOf(b, key) {
      var j :| 0 <= j < |b| && key(b[j]).Some? && key(b[j]).value == key(xs[i]).value;
      assert key(xs[j]) == key(xs[i]);
    }
    if key(xs[i]).Some? && !IsFirst(xs, key, i) {
      var j :| 0 <= j < i && key(xs[j]) == key(xs[i]);
      assert b[j] == xs[j];
    }
  }

  /** The loop started at position `i` with the keys seen so far computes the
      reference first occurrences from `i` on. */
  lemma {:induction false} MergeFrom<T>(xs: seq<T>, key: T -> Option<string>, i: nat)
    requires i <= |xs|
    ensures Merge(xs[i..], key, KeysOf(xs[..i], key)) == FirstsFrom(xs, key, i)
    decreases |xs| - i
  {
    if i < |xs| {
      var seen := KeysOf(xs[..i], key);
      var tail := xs[i..];
      assert tail[0] == xs[i];
      assert tail[1..] == xs[i + 1..];
      KeysOfStep(xs, key, i);
      IsFirstByKeys(xs, key, i);
      MergeFrom(xs, key, i + 1);
      var rest := FirstsFrom(xs, key, i + 1);
      if key(xs[i]).None? || key(xs[i]).value in seen {
        assert KeysOf(xs[..i + 1], key) == seen;
        assert Merge(tail, key, seen) == Merge(xs[i + 1..], key, seen);
        assert FirstsFrom(xs, key, i) == rest;
      } else {
        var k := key(xs[i]).value;
        assert KeysOf(xs[..i + 1], key) == seen + {k};
        assert Merge(tail, key, seen) == [(k, xs[i])] + Merge(xs[i + 1..], key, seen + {k});
        assert FirstsFrom(xs, key, i) == [(k, xs[i])] + rest;
      }
    }
  }

  /** The merge keeps exactly the first occurrence of every present key, in order. */
  lemma MergeIsFirsts<T>(xs: seq<T>, key: T -> Option<string>)
    ensures Merge(xs, key, {}) == FirstsFrom(xs, key, 0)
  {
    assert xs[0..] == xs;
    assert KeysOf(xs[..0], key) == {};
    MergeFrom(xs, key, 0);
  }

  /** Each entry of the reference list is the first occurrence of its key, at
      position `i` or later. */
  lemma {:induction false} FirstsFromMember<T>(xs: seq<T>, key: T -> Option<string>, i: nat, m: nat)
    requires i <= |xs| && m < |FirstsFrom(xs, key, i)|
    ensures exists j :: i <= j < |xs| && IsFirst(xs, key, j) && FirstsFrom(xs, key, i)[m] == (key(xs[j]).value, xs[j])
    decreases |xs| - i
  {
    assert i < |xs|;
    var h: seq<(string, T)> := if IsFirst(xs, key, i) then [(key(xs[i]).value, xs[i])] else [];
    var f := FirstsFrom(xs, key, i);
    assert f == h + FirstsFrom(xs, key, i + 1);
    if m < |h| {
      assert f[m] == (key(xs[i]).value, xs[i]);
    } else {
      FirstsFromMember(xs, key, i + 1, m - |h|);
      assert f[m] == FirstsFrom(xs, key, i + 1)[m - |h|];
    }
  }

  /** Each merged entry is the first element carrying its key. */
  lemma MergeEntryIsFirst<T>(xs: seq<T>, key: T -> Option<string>, m: nat)
    requires m < |Merge(xs, key, {})|
    ensures exists j :: 0 <= j < |xs| && IsFirst(xs, key, j) && Merge(xs, key, {})[m] == (key(xs[j]).value, xs[j])
  {
    MergeIsFirsts(xs, key);
    FirstsFromMember(xs, key, 0, m);
  }

  /** Every present key not already seen gets an entry: the merge loses no link. */
  lemma {:induction false} MergeComplete<T>(xs: seq<T>, key: T -> Option<string>, seen: set<string>, k: string)
    requires k in KeysOf(xs, key) && k !in seen
    ensures exists i :: 0 <= i < |Merge(xs, key, seen)| && Merge(xs, key, seen)[i].0 == k
    decreases |xs|
  {
    var j :| 0 <= j < |xs| && key(xs[j]).Some? && key(xs[j]).value == k;
    var r := Merge(xs, key, seen);
    if key(xs[0]) == Some(k) {
      assert r[0].0 == k;
    } else {
      assert j > 0 && xs[1..][j - 1] == xs[j];
      assert k in KeysOf(xs[1..], key);
      if key(xs[0]).Some? && key(xs[0]).value !in seen {
        var seen' := seen + {key(xs[0]).value};
        var t := Merge(xs[1..], key, seen');
        assert r == [(key(xs[0]).value, xs[0])] + t;
        MergeComplete(xs[1..], key, seen', k);
        var i :| 0 <= i < |t| && t[i].0 == k;
        assert r[i + 1] == t[i];
      } else {
        assert r == Merge(xs[1..], key, seen);
        MergeComplete(xs[1..], key, seen, k);
      }
    }
  }

  /** The set the loop fills (`allNewLinks`): all present keys. */
  lemma MergeKeys<T>(xs: seq<T>, key: T -> Option<string>, k: string)
    ensures (exists i :: 0 <= i < |Merge(xs, key, {})| && Merge(xs, key, {})[i].0 == k) <==> k in KeysOf(xs, key)
  {
    var r := Merge(xs, key, {});
    if k in KeysOf(xs, key) {
      MergeComplete(xs, key, {}, k);
    }
    if i :| 0 <= i < |r| && r[i].0 == k {
      var j :| 0 <= j < |xs| && xs[j] == r[i].1;
      assert key(xs[j]) == Some(k);
    }
  }

  // ------------------------------------------------------------------ gate

  /** Drops the candidates whose link is among the existing ones, keeping order. */
  function Gate<T>(cands: seq<(string, T)>, existing: set<string>): (r: seq<(string, T)>)
    ensures forall i :: 0 <= i < |r| ==> r[i] in cands && r[i].0 !in existing
    ensures forall i :: 0 <= i < |cands| && cands[i].0 !in existing ==> cands[i] in r
    ensures |r| <= |cands|
  {
    if |cands| == 0 then []
    else if cands[0].0 in existing then Gate(cands[1..], existing)
    else [cands[0]] + Gate(cands[1..], existing)
  }

  /** The gate works element by element, so it keeps relative order. */
  lemma {:induction false} GateAppend<T>(a: seq<(string, T)>, b: seq<(string, T)>, existing: set<string>)
    ensures Gate(a + b, existing) == Gate(a, existing) + Gate(b, existing)
    decreases |a|
  {
    if |a| == 0 {
      assert a + b == b;
    } else {
      assert (a + b)[1..] == a[1..] + b;
      assert (a + b)[0] == a[0];
      GateAppend(a[1..], b, existing);
    }
  }

  /** Gating against the store restricted to the candidates' links is gating
      against the whole store. */
  lemma {:induction false} GateRestrict<T>(cands: seq<(string, T)>, links: set<string>, store: set<string>)
    requires forall i :: 0 <= i < |cands| ==> cands[i].0 in links
    ensures Gate(cands, store * links) == Gate(cands, store)
    decreases |cands|
  {
    if |cands| > 0 {
      GateRestrict(cands[1..], links, store);
    }
  }

  // -------------------------------------------------- the base processor run

  /** What loading one URL produced: its items, or `None` when reading or
      parsing the feed threw (the error is logged and the URL skipped). */
  type FeedLoad = Option<seq<SyndicationItem>>

  /** The items of all URLs that loaded, in URL order. */
  function LoadedItems(feeds: seq<FeedLoad>): (items: seq<SyndicationItem>)
    ensures feeds == [] ==> items == []
  {
    if |feeds| == 0 then []
    else (match feeds[0] case None => [] case Some(xs) => xs) + LoadedItems(feeds[1..])
  }

  /** An item is loaded exactly when some feed that loaded contains it: a
      failed or empty feed adds nothing. */
  lemma {:induction false} LoadedItemsMembers(feeds: seq<FeedLoad>)
    ensures forall x :: x in LoadedItems(feeds) <==> exists f :: 0 <= f < |feeds| && feeds[f].Some? && x in feeds[f].value
    decreases |feeds|
  {
    if |feeds| > 0 {
      var rest := feeds[1..];
      LoadedItemsMembers(rest);
      forall x
        ensures x in LoadedItems(feeds) <==> exists f :: 0 <= f < |feeds| && feeds[f].Some? && x in feeds[f].value
      {
        if x in LoadedItems(rest) {
          var f :| 0 <= f < |rest| && rest[f].Some? && x in rest[f].value;
          assert feeds[f + 1] == rest[f];
        }
        if f :| 0 <= f < |feeds| && feeds[f].Some? && x in feeds[f].value {
          if f > 0 {
            assert rest[f - 1] == feeds[f];
          }
        }
      }
    }
  }

  /** Feeds contribute in URL order, each independently of the others. */
  lemma {:induction false} LoadedItemsAppend(a: seq<FeedLoad>, b: seq<FeedLoad>)
    ensures LoadedItems(a + b) == LoadedItems(a) + LoadedItems(b)
    decreases |a|
  {
    if |a| == 0 {
      assert a + b == b;
    } else {
      var head := match a[0] case None => [] case Some(xs) => xs;
      assert (a + b)[1..] == a[1..] + b;
      assert (a + b)[0] == a[0];
      assert LoadedItems(a + b) == head + LoadedItems(a[1..] + b);
      LoadedItemsAppend(a[1..], b);
      assert LoadedItems(a) == head + LoadedItems(a[1..]);
      assert head + (LoadedItems(a[1..]) + LoadedItems(b)) == (head + LoadedItems(a[1..])) + LoadedItems(b);
    }
  }

  /** Result of one run: no candidate at all (returns before the store query),
      or the set of links queried and the records inserted and then sent, in order. */
  datatype RunOutcome =
    | NoCandidates
    | Processed(queried: set<string>, inserted: seq<NewsItem>)

  /** The candidate list `potentialNews`. */
  function Candidates(feeds: seq<FeedLoad>): seq<(string, SyndicationItem)> {
    Merge(LoadedItems(feeds), LinkKey, {})
  }

  /** Parses each candidate; drops those `ParseItem` rejects. */
  function ParseAll(s: Strategy, cands: seq<(string, SyndicationItem)>, sourceName: string, parseInt: IntParser, now: Instant): (r: seq<NewsItem>)
    ensures |r| <= |cands|
  {
    if |cands| == 0 then []
    else
      var rest := ParseAll(s, cands[1..], sourceName, parseInt, now);
      match ParseItem(s, cands[0].1, sourceName, parseInt, now)
      case None => rest
      case Some(n) => [n] + rest
  }

  /** A candidate always parses, to a record carrying its link. */
  lemma {:induction false} ParseAllKeepsAll(s: Strategy, cands: seq<(string, SyndicationItem)>, sourceName: string, parseInt: IntParser, now: Instant)
    requires forall i :: 0 <= i < |cands| ==> LinkKey(cands[i].1) == Some(cands[i].0)
    ensures var r := ParseAll(s, cands, sourceName, parseInt, now);
      && |r| == |cands|
      && forall i :: 0 <= i < |r| ==> r[i] == ParseItem(s, cands[i].1, sourceName, parseInt, now).value && r[i].link == cands[i].0
  {
    if |cands| > 0 {
      ParseAllKeepsAll(s, cands[1..], sourceName, parseInt, now);
    }
  }

  /** `ProcessAsync` lines 37-96, given the loaded feeds and the links in the
      store: the run as its stored-link check intends it. The source empties
      the store first; `BaseProcess` is that run. */
  function ProcessRun(s: Strategy, feeds: seq<FeedLoad>, store: set<string>, sourceName: string, parseInt: IntParser, now: Instant): (r: RunOutcome)
    ensures r.NoCandidates? <==> KeysOf(LoadedItems(feeds), LinkKey) == {}
    ensures r.Processed? ==> r.queried == KeysOf(LoadedItems(feeds), LinkKey)
  {
    var cands := Candidates(feeds);
    if |cands| == 0 then
      MergeEmpty(LoadedItems(feeds), LinkKey);
      NoCandidates
    else
      var links := set i | 0 <= i < |cands| :: cands[i].0;
      MergeSameKeys(LoadedItems(feeds), LinkKey);
      var existing := store * links;
      Processed(links, ParseAll(s, Gate(cands, existing), sourceName, parseInt, now))
  }

  /** The base `ProcessAsync` as written: its first statement deletes every
      document of `News_{Name}`, so the links stored before the run are gone
      when the gate queries them. */
  function BaseProcess(s: Strategy, feeds: seq<FeedLoad>, store: set<string>, sourceName: string, parseInt: IntParser, now: Instant): (r: RunOutcome)
    ensures r.NoCandidates? <==> KeysOf(LoadedItems(feeds), LinkKey) == {}
    ensures r.Processed? ==> FreshRecords(r.inserted, {}, sourceName)
  {
    var r := ProcessRun(s, feeds, {}, sourceName, parseInt, now);
    if r.Processed? then
      ProcessRunFresh(s, feeds, {}, sourceName, parseInt, now);
      r
    else r
  }

  /** Hence the gate never drops anything: every usable link of the loaded
      feeds is inserted and sent on every run, those stored by earlier runs
      included. */
  lemma BaseProcessReinserts(s: Strategy, feeds: seq<FeedLoad>, store: set<string>, sourceName: string, parseInt: IntParser, now: Instant, k: string)
    requires k in KeysOf(LoadedItems(feeds), LinkKey)
    ensures var r := BaseProcess(s, feeds, store, sourceName, parseInt, now);
      r.Processed? && exists i :: 0 <= i < |r.inserted| && r.inserted[i].link == k
  {
    ProcessRunComplete(s, feeds, {}, sourceName, parseInt, now, k);
  }

  /** What the run does is independent of what was stored before it. */
  lemma BaseProcessIgnoresStore(s: Strategy, feeds: seq<FeedLoad>, a: set<string>, b: set<string>, sourceName: string, parseInt: IntParser, now: Instant)
    ensures BaseProcess(s, feeds, a, sourceName, parseInt, now) == BaseProcess(s, feeds, b, sourceName, parseInt, now)
  {
  }

  /** An empty merge means no element had a key. */
  lemma MergeEmpty<T>(xs: seq<T>, key: T -> Option<string>)
    requires |Merge(xs, key, {})| == 0
    ensures KeysOf(xs, key) == {}
  {
    if k :| k in KeysOf(xs, key) {
      MergeKeys(xs, key, k);
    }
  }

  /** The merged keys are all the present keys (`allNewLinks`). */
  lemma MergeSameKeys<T>(xs: seq<T>, key: T -> Option<string>)
    ensures var c := Merge(xs, key, {});
      (set i | 0 <= i < |c| :: c[i].0) == KeysOf(xs, key)
  {
    var c := Merge(xs, key, {});
    forall k
      ensures k in (set i | 0 <= i < |c| :: c[i].0) <==> k in KeysOf(xs, key)
    {
      MergeKeys(xs, key, k);
    }
  }

  /** What a run inserts: nothing already stored, every record under the
      source's name, no link twice. */
  predicate FreshRecords(ins: seq<NewsItem>, store: set<string>, sourceName: string) {
    && (forall i :: 0 <= i < |ins| ==> ins[i].link !in store && ins[i].source == sourceName)
    && (forall i, j :: 0 <= i < j < |ins| ==> ins[i].link != ins[j].link)
  }

  /** The run's guarantees: nothing already stored is inserted, every record
      carries the source's name, and no link is inserted twice. */
  lemma ProcessRunFresh(s: Strategy, feeds: seq<FeedLoad>, store: set<string>, sourceName: string, parseInt: IntParser, now: Instant)
    requires ProcessRun(s, feeds, store, sourceName, parseInt, now).Processed?
    ensures FreshRecords(ProcessRun(s, feeds, store, sourceName, parseInt, now).inserted, store, sourceName)
  {
    var cands := Candidates(feeds);
    var links := set i | 0 <= i < |cands| :: cands[i].0;
    GateRestrict(cands, links, store);
    assert ProcessRun(s, feeds, store, sourceName, parseInt, now).inserted == ParseAll(s, Gate(cands, store), sourceName, parseInt, now);
    GatedRecordsFresh(s, cands, store, sourceName, parseInt, now);
  }

  /** Every link present in a loaded feed and not yet stored is inserted. */
  lemma ProcessRunComplete(s: Strategy, feeds: seq<FeedLoad>, store: set<string>, sourceName: string, parseInt: IntParser, now: Instant, k: string)
    requires ProcessRun(s, feeds, store, sourceName, parseInt, now).Processed?
    requires k in KeysOf(LoadedItems(feeds), LinkKey) && k !in store
    ensures exists i :: 0 <= i < |ProcessRun(s, feeds, store, sourceName, parseInt, now).inserted| &&
                        ProcessRun(s, feeds, store, sourceName, parseInt, now).inserted[i].link == k
  {
    var cands := Candidates(feeds);
    var links := set i | 0 <= i < |cands| :: cands[i].0;
    GateRestrict(cands, links, store);
    MergeKeys(LoadedItems(feeds), LinkKey, k);
    var c :| 0 <= c < |cands| && cands[c].0 == k;
    assert ProcessRun(s, feeds, store, sourceName, parseInt, now).inserted == ParseAll(s, Gate(cands, store), sourceName, parseInt, now);
    GatedRecordsComplete(s, cands, store, sourceName, parseInt, now, c);
  }

  /** Gated candidates keep the link each candidate was keyed by. */
  lemma GateKeepsLinks(cands: seq<(string, SyndicationItem)>, store: set<string>)
    requires forall i :: 0 <= i < |cands| ==> LinkKey(cands[i].1) == Some(cands[i].0)
    ensures var g := Gate(cands, store);
      forall i :: 0 <= i < |g| ==> LinkKey(g[i].1) == Some(g[i].0)
  {
    var g := Gate(cands, store);
    forall i | 0 <= i < |g|
      ensures LinkKey(g[i].1) == Some(g[i].0)
    {
      var n :| 0 <= n < |cands| && cands[n] == g[i];
    }
  }

  /** The records built from gated candidates: none is stored already, all
      carry the source's name, and no link occurs twice. */
  lemma GatedRecordsFresh(s: Strategy, cands: seq<(string, SyndicationItem)>, store: set<string>, sourceName: string, parseInt: IntParser, now: Instant)
    requires forall i :: 0 <= i < |cands| ==> LinkKey(cands[i].1) == Some(cands[i].0)
    requires DistinctKeys(cands)
    ensures FreshRecords(ParseAll(s, Gate(cands, store), sourceName, parseInt, now), store, sourceName)
  {
    var g := Gate(cands, store);
    GateKeepsLinks(cands, store);
    GateDistinct(cands, store);
    RecordsFollowCandidates(s, g, sourceName, parseInt, now);
  }

  /** A candidate whose link is not stored yields a record with that link. */
  lemma GatedRecordsComplete(s: Strategy, cands: seq<(string, SyndicationItem)>, store: set<string>, sourceName: string, parseInt: IntParser, now: Instant, c: nat)
    requires forall i :: 0 <= i < |cands| ==> LinkKey(cands[i].1) == Some(cands[i].0)
    requires DistinctKeys(cands)
    requires c < |cands| && cands[c].0 !in store
    ensures exists i :: 0 <= i < |ParseAll(s, Gate(cands, store), sourceName, parseInt, now)| &&
                        ParseAll(s, Gate(cands, store), sourceName, parseInt, now)[i].link == cands[c].0
  {
    var g := Gate(cands, store);
    GateKeepsLinks(cands, store);
    GateDistinct(cands, store);
    RecordsFollowCandidates(s, g, sourceName, parseInt, now);
    assert cands[c] in g;
    var ins := ParseAll(s, g, sourceName, parseInt, now);
    FollowersCover(ins, g, cands[c]);
  }

  /** Records that follow their candidates one for one include one for every
      candidate. */
  lemma FollowersCover(ins: seq<NewsItem>, g: seq<(string, SyndicationItem)>, x: (string, SyndicationItem))
    requires |ins| == |g| && forall i :: 0 <= i < |ins| ==> ins[i].link == g[i].0
    requires x in g
    ensures exists i :: 0 <= i < |ins| && ins[i].link == x.0
  {
    var i :| 0 <= i < |g| && g[i] == x;
    assert ins[i].link == x.0;
  }

  /** Records from candidates with distinct, keyed links: one per candidate,
      with the candidate's link and the source name. */
  lemma RecordsFollowCandidates(s: Strategy, g: seq<(string, SyndicationItem)>, sourceName: string, parseInt: IntParser, now: Instant)
    requires forall i :: 0 <= i < |g| ==> LinkKey(g[i].1) == Some(g[i].0)
    requires DistinctKeys(g)
    ensures var ins := ParseAll(s, g, sourceName, parseInt, now);
      && |ins| == |g|
      && (forall i :: 0 <= i < |ins| ==> ins[i].link == g[i].0 && ins[i].source == sourceName)
      && (forall i, j :: 0 <= i < j < |ins| ==> ins[i].link != ins[j].link)
  {
    ParseAllKeepsAll(s, g, sourceName, parseInt, now);
  }

  /** No key occurs twice. */
  predicate DistinctKeys<T>(s: seq<(string, T)>) {
    forall i, j :: 0 <= i < j < |s| ==> s[i].0 != s[j].0
  }

  /** Gating keeps distinct links distinct. */
  lemma {:induction false} GateDistinct<T>(cands: seq<(string, T)>, existing: set<string>)
    requires DistinctKeys(cands)
    ensures DistinctKeys(Gate(cands, existing))
    decreases |cands|
  {
    if |cands| > 0 {
      GateDistinct(cands[1..], existing);
      var t := Gate(cands[1..], existing);
      forall m | 0 <= m < |t|
        ensures t[m].0 != cands[0].0
      {
        var n :| 0 <= n < |cands[1..]| && cands[1..][n] == t[m];
        assert cands[n + 1] == t[m];
      }
      if cands[0].0 !in existing {
        var g := Gate(cands, existing);
        assert g == [cands[0]] + t;
        forall i, j | 0 <= i < j < |g|
          ensures g[i].0 != g[j].0
        {
          assert g[j] == t[j - 1];
          if i > 0 {
            assert g[i] == t[i - 1];
          }
        }
      }
    }
  }
}
