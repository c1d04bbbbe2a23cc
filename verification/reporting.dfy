/** The plain-text status report served at `/`: an all-time table of the
    process logs per source, then the newest delivery errors. */
module Reporting {
  import opened Common
  import opened Text
  import opened Sorting
  import opened Entities

  const Version: string := "Server Running V:1.103"
  const StatsTitle: string := "=== RSS Sources Overall Statistics (All Time Summary) ==="
  const ErrorsTitle: string := "=== Last 100 Telegram Send Errors (Newest First) ==="
  const NoErrors: string := "No errors recorded."

  /** How many errors the report lists at most. */
  const ErrorLimit: nat := 100

  // --------------------------------------------------------- table geometry

  /** The content widths of the columns of the two tables. */
  const SourceWidths: seq<nat> := [14, 11, 14, 22, 16]
  const ErrorWidths: seq<nat> := [14, 19, 28, 34]

  const SourceBorder: string :=
    "+" + "----------------" + "+" + "-------------" + "+" + "----------------" + "+" + "------------------------" + "+" + "------------------" + "+"
  const SourceHeader: string :=
    Row(["Source        ", "Executions ", "Total Fetched ", "Total Sent to Telegram", "Total Failed    "])
  const ErrorBorder: string :=
    "+" + "----------------" + "+" + "---------------------" + "+" + "------------------------------" + "+" + "------------------------------------" + "+"
  const ErrorHeader: string :=
    Row(["Source        ", "Timestamp          ", "News Title                  ", "Error Message                     "])

  function Dashes(n: nat): (r: string)
    ensures |r| == n && forall i :: 0 <= i < n ==> r[i] == '-'
  {
    seq(n, _ => '-')
  }

  /** A border line for columns of the given content widths: each column is
      its content plus one space either side, between `+` corners. */
  function Border(ws: seq<nat>): string {
    "+" + BorderTail(ws)
  }

  function BorderTail(ws: seq<nat>): string {
    if |ws| == 0 then [] else Dashes(ws[0] + 2) + "+" + BorderTail(ws[1..])
  }

  /** A table line: each cell between "| " and " |". */
  function Row(cells: seq<string>): string {
    "|" + RowTail(cells)
  }

  function RowTail(cells: seq<string>): string {
    if |cells| == 0 then [] else " " + cells[0] + " |" + RowTail(cells[1..])
  }

  /** A line sits in a table with the given border when it is as wide as the
      border and has a `|` under every `+` of it. */
  predicate Aligned(line: string, border: string) {
    |line| == |border| && forall p :: 0 <= p < |border| && border[p] == '+' ==> line[p] == '|'
  }

  lemma {:induction false} TailAligned(cells: seq<string>, ws: seq<nat>)
    requires |cells| == |ws|
    requires forall i :: 0 <= i < |ws| ==> |cells[i]| == ws[i]
    ensures |RowTail(cells)| == |BorderTail(ws)|
    ensures forall p :: 0 <= p < |BorderTail(ws)| && BorderTail(ws)[p] == '+' ==> RowTail(cells)[p] == '|'
    decreases |ws|
  {
    if |ws| > 0 {
      TailAligned(cells[1..], ws[1..]);
      var w := ws[0];
      var rh := " " + cells[0] + " |";
      var bh := Dashes(w + 2) + "+";
      var rt := RowTail(cells[1..]);
      var bt := BorderTail(ws[1..]);
      assert RowTail(cells) == rh + rt;
      assert BorderTail(ws) == bh + bt;
      assert |rh| == |bh| == w + 3;
      forall p | 0 <= p < |bh + bt| && (bh + bt)[p] == '+'
        ensures (rh + rt)[p] == '|'
      {
        if p < w + 3 {
          assert p == w + 2;
        } else {
          assert (bh + bt)[p] == bt[p - (w + 3)];
          assert (rh + rt)[p] == rt[p - (w + 3)];
        }
      }
    }
  }

  /** Cells of exactly the column widths make a line that fits the table. */
  lemma RowAligned(cells: seq<string>, ws: seq<nat>)
    requires |cells| == |ws|
    requires forall i :: 0 <= i < |ws| ==> |cells[i]| == ws[i]
    ensures Aligned(Row(cells), Border(ws))
  {
    TailAligned(cells, ws);
    var r := Row(cells);
    var b := Border(ws);
    forall p | 0 <= p < |b| && b[p] == '+'
      ensures r[p] == '|'
    {
      if p > 0 {
        assert b[p] == BorderTail(ws)[p - 1];
        assert r[p] == RowTail(cells)[p - 1];
      }
    }
  }

  /** The statistics table has five columns of 14, 11, 14, 22 and 16
      characters. */
  lemma SourceBorderShape()
    ensures SourceBorder == Border(SourceWidths)
  {
    var ws := SourceWidths;
    assert BorderTail(ws[4..]) == Dashes(18) + "+" + BorderTail([]);
    assert BorderTail(ws[3..]) == Dashes(24) + "+" + BorderTail(ws[4..]);
    assert BorderTail(ws[2..]) == Dashes(16) + "+" + BorderTail(ws[3..]);
    assert BorderTail(ws[1..]) == Dashes(13) + "+" + BorderTail(ws[2..]);
    assert BorderTail(ws) == Dashes(16) + "+" + BorderTail(ws[1..]);
    assert Dashes(13) == "-------------";
    assert Dashes(16) == "----------------";
    assert Dashes(18) == "------------------";
    assert Dashes(24) == "------------------------";
  }

  /** The error table has four columns of 14, 19, 28 and 34 characters. */
  lemma ErrorBorderShape()
    ensures ErrorBorder == Border(ErrorWidths)
  {
    var ws := ErrorWidths;
    assert BorderTail(ws[3..]) == Dashes(36) + "+" + BorderTail([]);
    assert BorderTail(ws[2..]) == Dashes(30) + "+" + BorderTail(ws[3..]);
    assert BorderTail(ws[1..]) == Dashes(21) + "+" + BorderTail(ws[2..]);
    assert BorderTail(ws) == Dashes(16) + "+" + BorderTail(ws[1..]);
    assert Dashes(16) == "----------------";
    assert Dashes(21) == "---------------------";
    assert Dashes(30) == "------------------------------";
    assert Dashes(36) == "------------------------------------";
  }

  /** Both header lines fit their tables. */
  lemma HeadersAligned()
    ensures Aligned(SourceHeader, SourceBorder)
    ensures Aligned(ErrorHeader, ErrorBorder)
  {
    SourceBorderShape();
    ErrorBorderShape();
    RowAligned(["Source        ", "Executions ", "Total Fetched ", "Total Sent to Telegram", "Total Failed    "], SourceWidths);
    RowAligned(["Source        ", "Timestamp          ", "News Title                  ", "Error Message                     "], ErrorWidths);
  }

  // ----------------------------------------------------------- checked sums

  function RawSum(xs: seq<int>): int {
    if |xs| == 0 then 0 else xs[0] + RawSum(xs[1..])
  }

  /** `Enumerable.Sum` over `int` values: a checked running total that throws
      (`None`) as soon as a partial sum leaves the 32-bit range. */
  function CheckedSum(acc: Int32, xs: seq<Int32>): (r: Option<Int32>)
    ensures r.Some? ==> r.value == acc + RawSum(xs)
    decreases |xs|
  {
    if |xs| == 0 then Some(acc)
    else
      var t := acc + xs[0];
      if t < MinInt32 || t > MaxInt32 then None else CheckedSum(t, xs[1..])
  }

  lemma RawSumNonNegative(xs: seq<int>)
    requires forall i :: 0 <= i < |xs| ==> xs[i] >= 0
    ensures RawSum(xs) >= 0
  {
  }

  /** Over counts that are never negative the running total only grows, so
      the sum throws exactly when the true total does not fit in an `int`. */
  lemma {:induction false} CheckedSumFits(acc: Int32, xs: seq<Int32>)
    requires acc >= 0
    requires forall i :: 0 <= i < |xs| ==> xs[i] >= 0
    ensures CheckedSum(acc, xs).Some? <==> acc + RawSum(xs) <= MaxInt32
    decreases |xs|
  {
    if |xs| > 0 {
      var t := acc + xs[0];
      RawSumNonNegative(xs[1..]);
      if t <= MaxInt32 {
        CheckedSumFits(t, xs[1..]);
      }
    }
  }

  // ------------------------------------------------------ per-source totals

  /** The logs of one source, in store order (`Find(p => p.SourceName == source)`). */
  function LogsOf(logs: seq<ProcessLog>, name: string): (r: seq<ProcessLog>)
    ensures |r| <= |logs|
    ensures forall i :: 0 <= i < |r| ==> r[i].sourceName == name && r[i] in logs
    ensures forall i :: 0 <= i < |logs| && logs[i].sourceName == name ==> logs[i] in r
  {
    if |logs| == 0 then []
    else (if logs[0].sourceName == name then [logs[0]] else []) + LogsOf(logs[1..], name)
  }

  function Fetched(logs: seq<ProcessLog>): seq<Int32> {
    seq(|logs|, i requires 0 <= i < |logs| => logs[i].totalFetched)
  }

  function Sent(logs: seq<ProcessLog>): seq<Int32> {
    seq(|logs|, i requires 0 <= i < |logs| => logs[i].sentToTelegram)
  }

  function Failed(logs: seq<ProcessLog>): seq<Int32> {
    seq(|logs|, i requires 0 <= i < |logs| => logs[i].failedToSend)
  }

  /** One line of the statistics table before formatting. */
  datatype SourceSummary = SourceSummary(name: string, executions: nat, fetched: Int32, sent: Int32, failed: Int32)

  /** The totals of one source, or `None` when one of the sums overflows. */
  function Summarize(logs: seq<ProcessLog>, name: string): (r: Option<SourceSummary>)
    ensures r.Some? ==> var mine := LogsOf(logs, name);
      && r.value.name == name && r.value.executions == |mine|
      && r.value.fetched == RawSum(Fetched(mine))
      && r.value.sent == RawSum(Sent(mine))
      && r.value.failed == RawSum(Failed(mine))
  {
    var mine := LogsOf(logs, name);
    var f := CheckedSum(0, Fetched(mine));
    var s := CheckedSum(0, Sent(mine));
    var x := CheckedSum(0, Failed(mine));
    if f.None? || s.None? || x.None? then None
    else Some(SourceSummary(name, |mine|, f.value, s.value, x.value))
  }

  /** Counts that a run cannot make negative. */
  predicate NonNegative(l: ProcessLog) {
    l.totalFetched >= 0 && l.sentToTelegram >= 0 && l.failedToSend >= 0
  }

  /** With non-negative counts, a source's line fails only when one of its
      true totals exceeds `int.MaxValue`. */
  lemma SummarizeFits(logs: seq<ProcessLog>, name: string)
    requires forall i :: 0 <= i < |logs| ==> NonNegative(logs[i])
    ensures Summarize(logs, name).Some? <==> var mine := LogsOf(logs, name);
      && RawSum(Fetched(mine)) <= MaxInt32
      && RawSum(Sent(mine)) <= MaxInt32
      && RawSum(Failed(mine)) <= MaxInt32
  {
    var mine := LogsOf(logs, name);
    assert forall i :: 0 <= i < |mine| ==> NonNegative(mine[i]);
    CheckedSumFits(0, Fetched(mine));
    CheckedSumFits(0, Sent(mine));
    CheckedSumFits(0, Failed(mine));
  }

  function SourceNames(logs: seq<ProcessLog>): (r: seq<string>)
    ensures |r| == |logs| && forall i :: 0 <= i < |logs| ==> r[i] == logs[i].sourceName
  {
    seq(|logs|, i requires 0 <= i < |logs| => logs[i].sourceName)
  }

  /** The table lines for the given sources, in order; the request fails
      (`None`) if any of them does. */
  function SummariesOf(names: seq<string>, logs: seq<ProcessLog>): (r: Option<seq<SourceSummary>>)
    ensures r.Some? <==> forall i :: 0 <= i < |names| ==> Summarize(logs, names[i]).Some?
    ensures r.Some? ==> |r.value| == |names|
    ensures r.Some? ==> forall i :: 0 <= i < |names| ==> Summarize(logs, names[i]) == Some(r.value[i])
    decreases |names|
  {
    if |names| == 0 then Some([])
    else
      match Summarize(logs, names[0])
      case None => None
      case Some(s) =>
        match SummariesOf(names[1..], logs)
        case None => None
        case Some(rest) => Some([s] + rest)
  }

  /** The statistics table's lines: every distinct source name in ascending
      order with its totals. */
  function Summaries(logs: seq<ProcessLog>): Option<seq<SourceSummary>> {
    SummariesOf(DistinctAscending(SourceNames(logs)), logs)
  }

  /** The table lists each source that has a log exactly once, in ascending
      order, and no other. */
  lemma SummariesListSources(logs: seq<ProcessLog>)
    requires Summaries(logs).Some?
    ensures var ss := Summaries(logs).value;
      && (forall i, j :: 0 <= i < j < |ss| ==> StrLess(ss[i].name, ss[j].name))
      && (set i | 0 <= i < |ss| :: ss[i].name) == (set k | 0 <= k < |logs| :: logs[k].sourceName)
  {
    var names := DistinctAscending(SourceNames(logs));
    var ss := Summaries(logs).value;
    assert forall i :: 0 <= i < |ss| ==> ss[i].name == names[i];
    var listed := set i | 0 <= i < |ss| :: ss[i].name;
    var logged := set k | 0 <= k < |logs| :: logs[k].sourceName;
    forall n | n in logged
      ensures n in listed
    {
      var k :| 0 <= k < |logs| && logs[k].sourceName == n;
      assert SourceNames(logs)[k] == n;
      assert n in names;
      var i :| 0 <= i < |names| && names[i] == n;
      assert ss[i].name == n;
    }
    forall n | n in listed
      ensures n in logged
    {
      var i :| 0 <= i < |ss| && ss[i].name == n;
      assert names[i] in names;
      var k :| 0 <= k < |logs| && SourceNames(logs)[k] == n;
    }
  }

  /** How many times `x` occurs in `ns`. */
  function CountOf(ns: seq<string>, x: string): nat {
    if |ns| == 0 then 0 else (if ns[0] == x then 1 else 0) + CountOf(ns[1..], x)
  }

  /** How many logs the given sources' lines would count between them. */
  function Counted(ns: seq<string>, logs: seq<ProcessLog>): nat {
    if |ns| == 0 then 0 else |LogsOf(logs, ns[0])| + Counted(ns[1..], logs)
  }

  /** The executions column added up. */
  function TotalExecutions(ss: seq<SourceSummary>): nat {
    if |ss| == 0 then 0 else ss[0].executions + TotalExecutions(ss[1..])
  }

  lemma {:induction false} LogsOfSnoc(logs: seq<ProcessLog>, l: ProcessLog, n: string)
    ensures |LogsOf(logs + [l], n)| == |LogsOf(logs, n)| + (if l.sourceName == n then 1 else 0)
    decreases |logs|
  {
    if |logs| == 0 {
      assert logs + [l] == [l];
    } else {
      assert (logs + [l])[1..] == logs[1..] + [l];
      LogsOfSnoc(logs[1..], l, n);
    }
  }

  lemma {:induction false} CountedSnoc(ns: seq<string>, logs: seq<ProcessLog>, l: ProcessLog)
    ensures Counted(ns, logs + [l]) == Counted(ns, logs) + CountOf(ns, l.sourceName)
    decreases |ns|
  {
    if |ns| > 0 {
      LogsOfSnoc(logs, l, ns[0]);
      CountedSnoc(ns[1..], logs, l);
    }
  }

  lemma {:induction false} CountOfDistinct(ns: seq<string>, x: string)
    requires forall i, j :: 0 <= i < j < |ns| ==> ns[i] != ns[j]
    requires x in ns
    ensures CountOf(ns, x) == 1
    decreases |ns|
  {
    if ns[0] == x {
      CountOfAbsent(ns[1..], x);
    } else {
      CountOfDistinct(ns[1..], x);
    }
  }

  lemma {:induction false} CountOfAbsent(ns: seq<string>, x: string)
    requires x !in ns
    ensures CountOf(ns, x) == 0
    decreases |ns|
  {
    if |ns| > 0 {
      CountOfAbsent(ns[1..], x);
    }
  }

  /** Distinct sources that cover every log count each log exactly once. */
  lemma {:induction false} CountedAll(ns: seq<string>, logs: seq<ProcessLog>)
    requires forall i, j :: 0 <= i < j < |ns| ==> ns[i] != ns[j]
    requires forall k :: 0 <= k < |logs| ==> logs[k].sourceName in ns
    ensures Counted(ns, logs) == |logs|
    decreases |logs|
  {
    if |logs| == 0 {
      CountedNone(ns);
    } else {
      var init := logs[..|logs| - 1];
      var l := logs[|logs| - 1];
      assert logs == init + [l];
      CountedAll(ns, init);
      CountedSnoc(ns, init, l);
      CountOfDistinct(ns, l.sourceName);
    }
  }

  lemma {:induction false} CountedNone(ns: seq<string>)
    ensures Counted(ns, []) == 0
    decreases |ns|
  {
    if |ns| > 0 {
      CountedNone(ns[1..]);
    }
  }

  lemma {:induction false} SummariesCount(names: seq<string>, logs: seq<ProcessLog>)
    requires SummariesOf(names, logs).Some?
    ensures TotalExecutions(SummariesOf(names, logs).value) == Counted(names, logs)
    decreases |names|
  {
    if |names| > 0 {
      SummariesCount(names[1..], logs);
      var ss := SummariesOf(names, logs).value;
      assert ss[1..] == SummariesOf(names[1..], logs).value;
    }
  }

  /** Every log is counted under exactly one source: the executions column
      adds up to the number of logs. */
  lemma ExecutionsAddUp(logs: seq<ProcessLog>)
    requires Summaries(logs).Some?
    ensures TotalExecutions(Summaries(logs).value) == |logs|
  {
    var names := DistinctAscending(SourceNames(logs));
    AscendingDistinct(names);
    forall k | 0 <= k < |logs|
      ensures logs[k].sourceName in names
    {
      assert SourceNames(logs)[k] in SourceNames(logs);
    }
    SummariesCount(names, logs);
    CountedAll(names, logs);
  }

  // ----------------------------------------------------------------- errors

  /** The sort key of `SortByDescending(e => e.Timestamp)`. */
  function Newest(e: TelegramErrorLog): int {
    -e.timestamp
  }

  /** The errors the report lists: newest first, at most `ErrorLimit`. */
  function RecentErrors(errors: seq<TelegramErrorLog>): (r: seq<TelegramErrorLog>)
    ensures |r| == if |errors| < ErrorLimit then |errors| else ErrorLimit
  {
    var s := SortBy(errors, Newest);
    if |s| <= ErrorLimit then s else s[..ErrorLimit]
  }

  /** The listed errors come from the log, newest first. */
  lemma RecentErrorsNewestFirst(errors: seq<TelegramErrorLog>)
    ensures var r := RecentErrors(errors);
      && (forall i, j :: 0 <= i < j < |r| ==> r[i].timestamp >= r[j].timestamp)
      && multiset(r) <= multiset(errors)
  {
    var s := SortBy(errors, Newest);
    SortBySorted(errors, Newest);
    SortByPermutes(errors, Newest);
    var r := RecentErrors(errors);
    assert s == r + s[|r|..];
    assert forall i, j :: 0 <= i < j < |r| ==> Newest(s[i]) <= Newest(s[j]);
  }

  /** An error left out of the list is no newer than any listed one, and is
      left out only because the list is full. */
  lemma RecentErrorsTop(errors: seq<TelegramErrorLog>, e: TelegramErrorLog)
    requires e in errors && e !in RecentErrors(errors)
    ensures |RecentErrors(errors)| == ErrorLimit
    ensures forall j :: 0 <= j < ErrorLimit ==> RecentErrors(errors)[j].timestamp >= e.timestamp
  {
    var s := SortBy(errors, Newest);
    SortBySorted(errors, Newest);
    SortByPermutes(errors, Newest);
    assert e in multiset(s);
    var p :| 0 <= p < |s| && s[p] == e;
    assert p >= ErrorLimit;
    forall j | 0 <= j < ErrorLimit
      ensures RecentErrors(errors)[j].timestamp >= e.timestamp
    {
      assert RecentErrors(errors)[j] == s[j];
      assert Newest(s[j]) <= Newest(s[p]);
    }
  }

  // ------------------------------------------------------------------ cells

  /** The title cell: the first 25 characters and "..." when longer than 28,
      else the title padded to 28. */
  function ShortTitle(t: string): (r: string)
    ensures |r| == 28
    ensures |t| <= 28 ==> r[..|t|] == t && forall i :: |t| <= i < 28 ==> r[i] == ' '
    ensures |t| > 28 ==> r[..25] == t[..25] && r[25..] == "..."
  {
    if |t| > 28 then t[..25] + "..." else PadRight(t, 28)
  }

  /** Shortening a shortened title changes nothing. */
  lemma ShortTitleIdempotent(t: string)
    ensures ShortTitle(ShortTitle(t)) == ShortTitle(t)
  {
  }

  /** The message cell as written: the first 32 characters and "..." when
      longer than 35, else the message itself. */
  function ShortMessage(m: string): (r: string)
    ensures |r| <= 35
    ensures |m| <= 35 ==> r == m
    ensures |m| > 35 ==> |r| == 35 && r[..32] == m[..32] && r[32..] == "..."
  {
    if |m| > 35 then m[..32] + "..." else m
  }

  /** A message of 35 characters or more gives a 35-character cell, one more
      than the column's 34. */
  lemma ShortMessageOverflows(m: string)
    requires |m| >= 35
    ensures |PadRight(ShortMessage(m), ErrorWidths[3])| == ErrorWidths[3] + 1
  {
  }

  /** The message cell cut to the column: the first 31 characters and "..."
      when longer than 34, else the message itself. */
  function FittedMessage(m: string): (r: string)
    ensures |r| <= 34
    ensures |m| <= 34 ==> r == m
    ensures |m| > 34 ==> |r| == 34 && r[..31] == m[..31] && r[31..] == "..."
  {
    if |m| > 34 then m[..31] + "..." else m
  }

  lemma FittedMessageIdempotent(m: string)
    ensures FittedMessage(FittedMessage(m)) == FittedMessage(m)
  {
  }

  // -------------------------------------------------------------- timestamp

  /** The calendar fields `DateTime` formatting reads; turning an instant into
      them is the calendar's business and is a parameter here. */
  datatype DateTimeParts = DateTimeParts(year: nat, month: nat, day: nat, hour: nat, minute: nat, second: nat)

  /** Fields a `DateTime` can hold. */
  predicate ValidParts(p: DateTimeParts) {
    1 <= p.year <= 9999 && 1 <= p.month <= 12 && 1 <= p.day <= 31 &&
    p.hour < 24 && p.minute < 60 && p.second < 60
  }

  function Pow10(n: nat): (r: nat)
    ensures r >= 1
  {
    if n == 0 then 1 else 10 * Pow10(n - 1)
  }

  /** `n` in exactly `w` decimal digits, zero-padded on the left (as the
      custom specifiers "yyyy", "MM", "dd", "HH", "mm" and "ss" print). */
  function Digits(n: nat, w: nat): (r: string)
    ensures |r| == w
    ensures forall i :: 0 <= i < w ==> '0' <= r[i] <= '9'
  {
    if w == 0 then [] else Digits(n / 10, w - 1) + [(('0' as int) + n % 10) as char]
  }

  /** The number a string of decimal digits denotes (a non-digit reads as 0). */
  function DigitsValue(s: string): nat {
    if |s| == 0 then 0 else 10 * DigitsValue(s[..|s| - 1]) + DigitValue(s[|s| - 1])
  }

  function DigitValue(c: char): nat {
    if '0' <= c <= '9' then (c as int) - ('0' as int) else 0
  }

  /** Digits read back as the number they print, when it fits their width. */
  lemma {:induction false} DigitsRoundTrip(n: nat, w: nat)
    requires n < Pow10(w)
    ensures DigitsValue(Digits(n, w)) == n
    decreases w
  {
    if w > 0 {
      var d := Digits(n, w);
      assert d[..w - 1] == Digits(n / 10, w - 1);
      assert n / 10 < Pow10(w - 1);
      DigitsRoundTrip(n / 10, w - 1);
    }
  }

  /** The format "yyyy-MM-dd HH:mm:ss". */
  function Stamp(p: DateTimeParts): (r: string)
    ensures |r| == 19
  {
    Digits(p.year, 4) + "-" + Digits(p.month, 2) + "-" + Digits(p.day, 2) + " " +
    Digits(p.hour, 2) + ":" + Digits(p.minute, 2) + ":" + Digits(p.second, 2)
  }

  /** Reading the fields back from their fixed positions in a stamp. */
  function ParseStamp(s: string): DateTimeParts
    requires |s| == 19
  {
    DateTimeParts(DigitsValue(s[0..4]), DigitsValue(s[5..7]), DigitsValue(s[8..10]),
                  DigitsValue(s[11..13]), DigitsValue(s[14..16]), DigitsValue(s[17..19]))
  }

  /** A stamp of valid fields shows the time to the second: it reads back to
      the same fields, so distinct times print differently. */
  lemma StampRoundTrip(p: DateTimeParts)
    requires ValidParts(p)
    ensures ParseStamp(Stamp(p)) == p
  {
    var s := Stamp(p);
    assert Pow10(2) == 100 && Pow10(4) == 10000;
    assert s[0..4] == Digits(p.year, 4);
    assert s[5..7] == Digits(p.month, 2);
    assert s[8..10] == Digits(p.day, 2);
    assert s[11..13] == Digits(p.hour, 2);
    assert s[14..16] == Digits(p.minute, 2);
    assert s[17..19] == Digits(p.second, 2);
    DigitsRoundTrip(p.year, 4);
    DigitsRoundTrip(p.month, 2);
    DigitsRoundTrip(p.day, 2);
    DigitsRoundTrip(p.hour, 2);
    DigitsRoundTrip(p.minute, 2);
    DigitsRoundTrip(p.second, 2);
  }

  // ------------------------------------------------------------------- rows

  /** A line of the statistics table: the name left-aligned in 14, the
      figures right-aligned in 11, 14, 22 and 16. */
  function SourceRow(s: SourceSummary): string {
    Row([PadRight(s.name, 14), PadLeft(IntToString(s.executions), 11), PadLeft(IntToString(s.fetched), 14),
         PadLeft(IntToString(s.sent), 22), PadLeft(IntToString(s.failed), 16)])
  }

  lemma {:induction false} IntToStringDigits(n: nat, k: nat)
    requires 1 <= k && n < Pow10(k)
    ensures |IntToString(n)| <= k
    decreases k
  {
    if n >= 10 {
      assert k >= 2;
      assert n / 10 < Pow10(k - 1);
      IntToStringDigits(n / 10, k - 1);
    }
  }

  /** An `int` prints in at most 11 characters, a non-negative one in 10. */
  lemma IntToStringWidth(n: int)
    requires MinInt32 <= n <= MaxInt32
    ensures |IntToString(n)| <= 11
    ensures n >= 0 ==> |IntToString(n)| <= 10
  {
    assert Pow10(10) == 10_000_000_000;
    if n < 0 {
      IntToStringDigits(-n, 10);
    } else {
      IntToStringDigits(n, 10);
    }
  }

  /** A source whose name fits its column gives a line that fits the table:
      every figure fits its column. */
  lemma SourceRowAligned(s: SourceSummary)
    requires |s.name| <= 14 && s.executions <= MaxInt32
    ensures Aligned(SourceRow(s), SourceBorder)
  {
    IntToStringWidth(s.executions);
    IntToStringWidth(s.fetched);
    IntToStringWidth(s.sent);
    IntToStringWidth(s.failed);
    SourceBorderShape();
    RowAligned([PadRight(s.name, 14), PadLeft(IntToString(s.executions), 11), PadLeft(IntToString(s.fetched), 14),
                PadLeft(IntToString(s.sent), 22), PadLeft(IntToString(s.failed), 16)], SourceWidths);
  }

  /** A line of the error table as written: the format string
      "yyyy-MM-dd HH:mm:ss,-19" is all date format, so ",-19" is printed
      after the stamp instead of padding it; the message cell is
      `ShortMessage`. */
  function ErrorRowAsWritten(e: TelegramErrorLog, calendar: Instant -> DateTimeParts): string {
    Row([PadRight(e.sourceName, 14), Stamp(calendar(e.timestamp)) + ",-19",
         PadRight(ShortTitle(e.newsTitle), 28), PadRight(ShortMessage(e.errorMessage), 34)])
  }

  /** A line of the error table: the stamp in 19 characters and the message
      cut to its 34-character column. */
  function ErrorRow(e: TelegramErrorLog, calendar: Instant -> DateTimeParts): string {
    Row([PadRight(e.sourceName, 14), PadRight(Stamp(calendar(e.timestamp)), 19),
         PadRight(ShortTitle(e.newsTitle), 28), PadRight(FittedMessage(e.errorMessage), 34)])
  }

  /** A four-cell line spelled out. */
  lemma RowOfFour(a: string, b: string, c: string, d: string)
    ensures Row([a, b, c, d]) == "|" + (" " + a + " |") + (" " + b + " |") + (" " + c + " |") + (" " + d + " |")
  {
    assert RowTail([d]) == " " + d + " |" + RowTail([]);
    assert [c, d][1..] == [d];
    assert RowTail([c, d]) == " " + c + " |" + RowTail([d]);
    assert [b, c, d][1..] == [c, d];
    assert RowTail([b, c, d]) == " " + b + " |" + RowTail([c, d]);
    assert [a, b, c, d][1..] == [b, c, d];
    assert RowTail([a, b, c, d]) == " " + a + " |" + RowTail([b, c, d]);
  }

  /** As written, every error line with a source name that fits runs past
      the table's right edge and prints ",-19" after the stamp. */
  lemma ErrorRowAsWrittenMisaligned(e: TelegramErrorLog, calendar: Instant -> DateTimeParts)
    requires |e.sourceName| <= 14
    ensures |ErrorRowAsWritten(e, calendar)| >= |ErrorBorder| + 4
    ensures !Aligned(ErrorRowAsWritten(e, calendar), ErrorBorder)
    ensures ErrorRowAsWritten(e, calendar)[2..16] == PadRight(e.sourceName, 14)
    ensures ErrorRowAsWritten(e, calendar)[19..38] == Stamp(calendar(e.timestamp))
    ensures ErrorRowAsWritten(e, calendar)[38..42] == ",-19"
  {
    var a := PadRight(e.sourceName, 14);
    var b := Stamp(calendar(e.timestamp)) + ",-19";
    var c := PadRight(ShortTitle(e.newsTitle), 28);
    var d := PadRight(ShortMessage(e.errorMessage), 34);
    RowOfFour(a, b, c, d);
    ErrorBorderShape();
    var row := ErrorRowAsWritten(e, calendar);
    var pre := "|" + (" " + a + " |") + " ";
    var post := " |" + (" " + c + " |") + (" " + d + " |");
    assert row == pre + b + post;
    assert |pre| == 19 && |b| == 23;
    assert |row| >= 112 > |ErrorBorder|;
    assert row[2..16] == pre[2..16] == a;
    assert row[19..42] == b;
  }

  /** A line that shows an error as the endpoint prints it: the name, then
      spaces, in the first cell; the date and time, readable to the second,
      in the 19 characters before a stray ",-19"; and past the table's edge. */
  predicate ShowsError(line: string, e: TelegramErrorLog, calendar: Instant -> DateTimeParts) {
    && |line| >= 42 && |e.sourceName| <= 14
    && !Aligned(line, ErrorBorder)
    && line[2..2 + |e.sourceName|] == e.sourceName
    && (forall k :: 2 + |e.sourceName| <= k < 16 ==> line[k] == ' ')
    && ParseStamp(line[19..38]) == calendar(e.timestamp)
    && line[38..42] == ",-19"
  }

  /** The source and the time of an error can be read back from its line. */
  lemma ErrorRowAsWrittenReadsBack(e: TelegramErrorLog, calendar: Instant -> DateTimeParts)
    requires |e.sourceName| <= 14 && ValidParts(calendar(e.timestamp))
    ensures ShowsError(ErrorRowAsWritten(e, calendar), e, calendar)
  {
    var row := ErrorRowAsWritten(e, calendar);
    ErrorRowAsWrittenMisaligned(e, calendar);
    var cell := PadRight(e.sourceName, 14);
    assert row[2..2 + |e.sourceName|] == cell[..|e.sourceName|];
    assert forall k :: 2 + |e.sourceName| <= k < 16 ==> row[k] == cell[k - 2];
    StampRoundTrip(calendar(e.timestamp));
  }

  /** Every error line with a source name that fits lies in the table. */
  lemma ErrorRowAligned(e: TelegramErrorLog, calendar: Instant -> DateTimeParts)
    requires |e.sourceName| <= 14
    ensures Aligned(ErrorRow(e, calendar), ErrorBorder)
  {
    ErrorBorderShape();
    RowAligned([PadRight(e.sourceName, 14), PadRight(Stamp(calendar(e.timestamp)), 19),
                PadRight(ShortTitle(e.newsTitle), 28), PadRight(FittedMessage(e.errorMessage), 34)], ErrorWidths);
  }

  // ----------------------------------------------------------------- report

  function SourceRows(ss: seq<SourceSummary>): (r: seq<string>)
    ensures |r| == |ss| && forall i :: 0 <= i < |ss| ==> r[i] == SourceRow(ss[i])
  {
    seq(|ss|, i requires 0 <= i < |ss| => SourceRow(ss[i]))
  }

  /** The lines of the error table, as the endpoint prints them. */
  function ErrorRows(es: seq<TelegramErrorLog>, calendar: Instant -> DateTimeParts): (r: seq<string>)
    ensures |r| == |es| && forall i :: 0 <= i < |es| ==> r[i] == ErrorRowAsWritten(es[i], calendar)
  {
    seq(|es|, i requires 0 <= i < |es| => ErrorRowAsWritten(es[i], calendar))
  }

  /** The lines of the error table as the layout intends them. */
  function FittedErrorRows(es: seq<TelegramErrorLog>, calendar: Instant -> DateTimeParts): (r: seq<string>)
    ensures |r| == |es| && forall i :: 0 <= i < |es| ==> r[i] == ErrorRow(es[i], calendar)
  {
    seq(|es|, i requires 0 <= i < |es| => ErrorRow(es[i], calendar))
  }

  /** The part after the error heading: a notice when there is nothing to
      list, else the table. */
  function ErrorSection(recent: seq<TelegramErrorLog>, calendar: Instant -> DateTimeParts): seq<string> {
    if |recent| == 0 then [NoErrors]
    else [ErrorBorder, ErrorHeader, ErrorBorder] + ErrorRows(recent, calendar) + [ErrorBorder]
  }

  /** The lines before the statistics rows: the version line, a blank line,
      the table's title and its head. */
  function Opening(): (r: seq<string>)
    ensures |r| == 7 && r[0] == Version && r[1] == "" && r[4] == SourceBorder && r[6] == SourceBorder
  {
    [Version, "", StatsTitle, "", SourceBorder, SourceHeader, SourceBorder]
  }

  /** The lines between the statistics rows and the error section. */
  function Middle(): (r: seq<string>)
    ensures |r| == 5 && r[0] == SourceBorder
  {
    [SourceBorder, "", "", ErrorsTitle, ""]
  }

  /** The report's lines (each ends with a line break in the response). */
  function ReportLines(ss: seq<SourceSummary>, recent: seq<TelegramErrorLog>, calendar: Instant -> DateTimeParts): seq<string> {
    Opening() + SourceRows(ss) + (Middle() + ErrorSection(recent, calendar))
  }

  /** `GET /`, given the process logs and error logs in store order and the
      calendar; `None` when a per-source sum overflows and the request fails. */
  function Report(logs: seq<ProcessLog>, errors: seq<TelegramErrorLog>, calendar: Instant -> DateTimeParts): (r: Option<seq<string>>)
    ensures r.Some? <==> Summaries(logs).Some?
  {
    match Summaries(logs)
    case None => None
    case Some(ss) => Some(ReportLines(ss, RecentErrors(errors), calendar))
  }

  /** The layout of the lines for any table contents. */
  lemma LinesStatistics(ss: seq<SourceSummary>, recent: seq<TelegramErrorLog>, calendar: Instant -> DateTimeParts)
    ensures var lines := ReportLines(ss, recent, calendar);
      && |lines| > 12 + |ss|
      && lines[0] == Version && lines[1] == ""
      && lines[4] == SourceBorder && lines[6] == SourceBorder && lines[7 + |ss|] == SourceBorder
      && lines[7..7 + |ss|] == SourceRows(ss)
  {
    var tail := Middle() + ErrorSection(recent, calendar);
    ConcatSlices(Opening(), SourceRows(ss), tail);
  }

  lemma SectionEnd(recent: seq<TelegramErrorLog>, calendar: Instant -> DateTimeParts)
    ensures var section := ErrorSection(recent, calendar);
      && (section[|section| - 1] == NoErrors <==> |recent| == 0)
      && (|recent| > 0 ==> |section| == 4 + |recent| && section[3..|section| - 1] == ErrorRows(recent, calendar))
  {
    if |recent| > 0 {
      var rows := ErrorRows(recent, calendar);
      ConcatSlices([ErrorBorder, ErrorHeader, ErrorBorder], rows, [ErrorBorder]);
      assert ErrorBorder != NoErrors by {
        assert |ErrorBorder| != |NoErrors|;
      }
    }
  }

  /** How the report's lines end, after `n` statistics rows: the notice
      exactly when nothing is listed, else the error table with one line per
      listed error. */
  predicate ErrorTail(lines: seq<string>, n: nat, recent: seq<TelegramErrorLog>, calendar: Instant -> DateTimeParts) {
    && |lines| > 12 + n
    && (lines[|lines| - 1] == NoErrors <==> |recent| == 0)
    && (|recent| > 0 ==> |lines| == 16 + n + |recent| &&
                         lines[15 + n..|lines| - 1] == ErrorRows(recent, calendar))
  }

  lemma LinesErrors(ss: seq<SourceSummary>, recent: seq<TelegramErrorLog>, calendar: Instant -> DateTimeParts)
    ensures ErrorTail(ReportLines(ss, recent, calendar), |ss|, recent, calendar)
  {
    var lines := ReportLines(ss, recent, calendar);
    var section := ErrorSection(recent, calendar);
    var head := Opening() + SourceRows(ss) + Middle();
    assert lines == head + section;
    assert |head| == 12 + |ss|;
    SectionEnd(recent, calendar);
    SliceAfter(head, section, |section| - 1, |section|);
    if |recent| > 0 {
      SliceAfter(head, section, 3, |section| - 1);
    }
  }

  /** A slice of the second part of a concatenation. */
  lemma SliceAfter<T>(head: seq<T>, section: seq<T>, i: nat, j: nat)
    requires i <= j <= |section|
    ensures (head + section)[|head| + i..|head| + j] == section[i..j]
  {
  }

  lemma ReportIsLines(logs: seq<ProcessLog>, errors: seq<TelegramErrorLog>, calendar: Instant -> DateTimeParts)
    requires Report(logs, errors, calendar).Some?
    ensures Report(logs, errors, calendar).value == ReportLines(Summaries(logs).value, RecentErrors(errors), calendar)
    ensures |RecentErrors(errors)| == 0 <==> |errors| == 0
  {
  }

  /** The report opens with the version line and a blank line, then the
      statistics table: one line per source between its border lines. */
  lemma ReportStatistics(logs: seq<ProcessLog>, errors: seq<TelegramErrorLog>, calendar: Instant -> DateTimeParts)
    requires Report(logs, errors, calendar).Some?
    ensures var lines := Report(logs, errors, calendar).value;
      var ss := Summaries(logs).value;
      && |lines| > 8 + |ss|
      && lines[0] == Version && lines[1] == ""
      && lines[4] == SourceBorder && lines[6] == SourceBorder && lines[7 + |ss|] == SourceBorder
      && lines[7..7 + |ss|] == SourceRows(ss)
  {
    ReportIsLines(logs, errors, calendar);
    LinesStatistics(Summaries(logs).value, RecentErrors(errors), calendar);
  }

  /** The report ends with "No errors recorded." exactly when no error is
      logged; otherwise its error table lists `RecentErrors`. */
  lemma ReportErrors(logs: seq<ProcessLog>, errors: seq<TelegramErrorLog>, calendar: Instant -> DateTimeParts)
    requires Report(logs, errors, calendar).Some?
    ensures ErrorTail(Report(logs, errors, calendar).value, |Summaries(logs).value|, RecentErrors(errors), calendar)
    ensures |RecentErrors(errors)| == 0 <==> |errors| == 0
  {
    ReportIsLines(logs, errors, calendar);
    LinesErrors(Summaries(logs).value, RecentErrors(errors), calendar);
  }

  /** Lines for sources whose names and counts fit lie in the table. */
  lemma RowsAligned(ss: seq<SourceSummary>)
    requires forall i :: 0 <= i < |ss| ==> |ss[i].name| <= 14 && ss[i].executions <= MaxInt32
    ensures forall i :: 0 <= i < |ss| ==> Aligned(SourceRows(ss)[i], SourceBorder)
  {
    forall i | 0 <= i < |ss|
      ensures Aligned(SourceRows(ss)[i], SourceBorder)
    {
      SourceRowAligned(ss[i]);
    }
  }

  /** With source names that fit their column (and fewer logs than
      `int.MaxValue`), every line of the statistics table lies in it. */
  lemma SourceRowsAligned(logs: seq<ProcessLog>)
    requires Summaries(logs).Some?
    requires |logs| <= MaxInt32
    requires forall k :: 0 <= k < |logs| ==> |logs[k].sourceName| <= 14
    ensures var ss := Summaries(logs).value;
      forall i :: 0 <= i < |ss| ==> Aligned(SourceRows(ss)[i], SourceBorder)
  {
    var ss := Summaries(logs).value;
    var names := DistinctAscending(SourceNames(logs));
    forall i | 0 <= i < |ss|
      ensures |ss[i].name| <= 14 && ss[i].executions <= MaxInt32
    {
      assert Summarize(logs, names[i]) == Some(ss[i]);
      assert names[i] in names;
      var k :| 0 <= k < |logs| && SourceNames(logs)[k] == names[i];
      SummaryCountBound(logs, names[i]);
    }
    RowsAligned(ss);
  }

  /** With source names that fit their column, every intended line of the
      error table lies in it. */
  lemma FittedErrorRowsAligned(errors: seq<TelegramErrorLog>, calendar: Instant -> DateTimeParts)
    requires forall k :: 0 <= k < |errors| ==> |errors[k].sourceName| <= 14
    ensures var rs := FittedErrorRows(RecentErrors(errors), calendar);
      forall i :: 0 <= i < |rs| ==> Aligned(rs[i], ErrorBorder)
  {
    var recent := RecentErrors(errors);
    RecentErrorsNewestFirst(errors);
    forall i | 0 <= i < |recent|
      ensures Aligned(FittedErrorRows(recent, calendar)[i], ErrorBorder)
    {
      assert recent[i] in multiset(errors);
      var k :| 0 <= k < |errors| && errors[k] == recent[i];
      ErrorRowAligned(recent[i], calendar);
    }
  }

  /** In the report as served, every listed error whose source name fits its
      column has a line that shows it: its source and, readable to the
      second, its time, followed by ",-19", running past the table's edge. */
  lemma ReportErrorLines(logs: seq<ProcessLog>, errors: seq<TelegramErrorLog>, calendar: Instant -> DateTimeParts, i: nat)
    requires Report(logs, errors, calendar).Some?
    requires i < |RecentErrors(errors)|
    requires |RecentErrors(errors)[i].sourceName| <= 14 && ValidParts(calendar(RecentErrors(errors)[i].timestamp))
    ensures var lines := Report(logs, errors, calendar).value;
      var n := |Summaries(logs).value|;
      15 + n + i < |lines| && ShowsError(lines[15 + n + i], RecentErrors(errors)[i], calendar)
  {
    var lines := Report(logs, errors, calendar).value;
    var recent := RecentErrors(errors);
    var n := |Summaries(logs).value|;
    ReportErrors(logs, errors, calendar);
    assert ErrorTail(lines, n, recent, calendar);
    TailLine(lines, n, recent, calendar, i);
    ErrorRowAsWrittenReadsBack(recent[i], calendar);
  }

  /** Line `i` of a listed error table. */
  lemma TailLine(lines: seq<string>, n: nat, recent: seq<TelegramErrorLog>, calendar: Instant -> DateTimeParts, i: nat)
    requires ErrorTail(lines, n, recent, calendar) && i < |recent|
    ensures 15 + n + i < |lines| && lines[15 + n + i] == ErrorRowAsWritten(recent[i], calendar)
  {
    var rows := ErrorRows(recent, calendar);
    assert lines[15 + n..|lines| - 1] == rows;
    assert lines[15 + n + i] == rows[i];
  }

  lemma SummaryCountBound(logs: seq<ProcessLog>, name: string)
    requires Summarize(logs, name).Some?
    ensures Summarize(logs, name).value.executions <= |logs|
  {
  }
}
