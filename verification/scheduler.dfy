/** `RssBackgroundService`: the configured sources, the one-off staggered
    first run of every source, and each source's own periodic loop. Time is
    in whole seconds from the moment `ExecuteAsync` starts; how long a run
    takes and how it ends are inputs. */
module Scheduler {
  import opened Common

  /** One entry of the "RssSources" section (`SourceConfig`), with the fetch
      interval in whole seconds. */
  datatype SourceConfig = SourceConfig(name: string, rssUrls: seq<string>, telegramChatId: string, fetchInterval: int)

  /** `FetchInterval`'s default, 15 minutes. */
  const DefaultFetchInterval: int := 15 * 60

  /** The stagger step, in seconds. */
  const StaggerSeconds: nat := 5

  /** The configured sources: a missing section binds to null, which becomes
      the empty list. */
  function Sources(section: Option<seq<SourceConfig>>): seq<SourceConfig> {
    section.GetOr([])
  }

  // ------------------------------------------------ staggered first run

  /** 0 + 1 + ... + i. */
  function Tri(i: nat): nat {
    if i == 0 then 0 else i + Tri(i - 1)
  }

  lemma {:induction false} TriClosed(i: nat)
    ensures 2 * Tri(i) == i * (i + 1)
  {
    if i > 0 {
      TriClosed(i - 1);
      assert (i - 1) * i + 2 * i == i * (i + 1);
    }
  }

  /** Later positions start later. */
  lemma {:induction false} TriMonotone(i: nat, j: nat)
    requires i <= j
    ensures Tri(i) <= Tri(j)
    decreases j - i
  {
    if i < j {
      TriMonotone(i, j - 1);
    }
  }

  /** When the first run of the source at position `i` begins: the loop waits
      `i * 5` seconds before starting source `i`, after the waits for every
      earlier source. */
  function StaggerOffset(i: nat): nat {
    StaggerSeconds * Tri(i)
  }

  /** `ProcessAllSourcesStaggeredAsync` without cancellation: the start time
      of each source's fire-and-forget first run. The waits add up, so source
      `i` starts 5·i(i+1)/2 seconds in, not `i * 5`. */
  method StaggeredStarts(n: nat) returns (offsets: seq<int>)
    ensures |offsets| == n
    ensures forall i :: 0 <= i < n ==> offsets[i] == StaggerOffset(i)
    ensures forall i :: 0 <= i < n ==> 2 * offsets[i] == StaggerSeconds * (i * (i + 1))
  {
    offsets := [];
    var clock := 0;
    var i := 0;
    while i < n
      invariant 0 <= i <= n && |offsets| == i
      invariant forall k :: 0 <= k < i ==> offsets[k] == StaggerOffset(k)
      invariant i > 0 ==> clock == StaggerOffset(i - 1)
      invariant i == 0 ==> clock == 0
    {
      var delay := i * StaggerSeconds;
      if delay > 0 {
        clock := clock + delay;
      }
      offsets := offsets + [clock];
      i := i + 1;
    }
    forall i | 0 <= i < n
      ensures 2 * offsets[i] == StaggerSeconds * (i * (i + 1))
    {
      TriClosed(i);
    }
  }

  /** How many first runs begin before the token is cancelled at `stopAt`:
      the source at position 0 waits for nothing, and a cancelled wait throws
      out of the loop, so the started sources are a prefix. */
  function StartedCount(i: nat, n: nat, stopAt: int): (c: nat)
    requires i <= n
    ensures i <= c <= n
    ensures forall k :: i <= k < c ==> k == 0 || StaggerOffset(k) < stopAt
    ensures c < n ==> c > 0 && stopAt <= StaggerOffset(c)
    decreases n - i
  {
    if i == n then n
    else if i > 0 && stopAt <= StaggerOffset(i) then i
    else StartedCount(i + 1, n, stopAt)
  }

  // ------------------------------------------------------ periodic loop

  /** How one call of `ProcessSourceAsync` went. */
  datatype RunReport =
    | Completed                       // `ProcessAsync` returned
    | ProcessFailed(message: string)  // `ProcessAsync` threw: caught and logged, the loop goes on
    | SetupFailed(message: string)    // building the scope, services or processor threw: escapes the call

  /** One run: how long it took and how it went. */
  datatype Attempt = Attempt(duration: nat, report: RunReport)

  /** How a periodic loop stopped, as far as it got. */
  datatype LoopEnd =
    | StillRunning             // the runs given are used up; the loop is still waiting
    | Canceled                 // the wait for a tick saw the cancellation; logged as cancelled
    | Faulted(message: string) // logged as an unexpected error; the loop ends
    | CanceledInDelay          // cancelled during the initial delay, outside the try; not logged
    | TimerRejected            // an interval `PeriodicTimer` refuses: the timer is never created, outside the try

  /** The start of every run, the errors logged per run, and how it ended. */
  datatype LoopTrace = LoopTrace(starts: seq<int>, errors: seq<string>, end: LoopEnd)

  /** The longest period `PeriodicTimer` takes, 0xFFFFFFFE milliseconds, in
      whole seconds. */
  const MaxTimerSeconds: int := 4294967

  /** The periods `PeriodicTimer` accepts, in whole seconds: at least a
      millisecond and at most `MaxTimerSeconds`. */
  predicate TimerAccepts(interval: int) {
    0 < interval <= MaxTimerSeconds
  }

  /** The first tick later than `s`, on the grid through `next`. */
  function NextTickAfter(next: int, s: int, interval: int): (t: int)
    requires interval > 0 && next <= s
    ensures s < t && next + interval <= t
  {
    var q := (s - next) / interval;
    assert q * interval <= s - next < (q + 1) * interval;
    assert (q + 1) * interval >= interval by {
      assert q >= 0;
      MulAtLeast(q + 1, interval);
    }
    next + (q + 1) * interval
  }

  /** `while (await timer.WaitForNextTickAsync(ct)) await ProcessSourceAsync(...)`
      from a state: `next` is the earliest tick not consumed yet, `free` the
      time the loop asks for one. A tick that fires during a run is kept (one
      at most), so the wait then returns at once; otherwise it returns at the
      tick. */
  function Loop(interval: int, next: int, free: int, attempts: seq<Attempt>, stopAt: int): (t: LoopTrace)
    requires interval > 0
    ensures |t.starts| <= |attempts|
    decreases |attempts|
  {
    var s := if next <= free then free else next;
    if stopAt <= s then LoopTrace([], [], Canceled)
    else if |attempts| == 0 then LoopTrace([], [], StillRunning)
    else
      var a := attempts[0];
      if a.report.SetupFailed? then LoopTrace([s], [], Faulted(a.report.message))
      else
        var rest := Loop(interval, NextTickAfter(next, s, interval), s + a.duration, attempts[1..], stopAt);
        LoopTrace([s] + rest.starts, Logged(a.report) + rest.errors, rest.end)
  }

  /** What `ProcessSourceAsync` logs for a run that got as far as processing. */
  function Logged(r: RunReport): seq<string> {
    match r
    case ProcessFailed(m) => [m]
    case _ => []
  }

  /** `RunPeriodicProcessing` for the source at position `i`, entered at
      `phaseStart`: the `i * 5` second delay (none for the first source), the
      timer, then the loop. */
  function RunPeriodic(i: nat, interval: int, phaseStart: int, attempts: seq<Attempt>, stopAt: int): (t: LoopTrace)
    ensures t.end == CanceledInDelay <==> i > 0 && stopAt <= phaseStart + i * StaggerSeconds
    ensures t.end == TimerRejected <==> !(i > 0 && stopAt <= phaseStart + i * StaggerSeconds) && !TimerAccepts(interval)
    ensures t.end in {CanceledInDelay, TimerRejected} ==> t.starts == [] && t.errors == []
  {
    var delay := i * StaggerSeconds;
    if delay > 0 && stopAt <= phaseStart + delay then LoopTrace([], [], CanceledInDelay)
    else if !TimerAccepts(interval) then LoopTrace([], [], TimerRejected)
    else
      var base := phaseStart + delay;
      LoopEndsInLoop(interval, base + interval, base, attempts, stopAt);
      Loop(interval, base + interval, base, attempts, stopAt)
  }

  /** A period one second past the longest is refused before any run, as
      is a zero one. */
  lemma TimerBounds(phaseStart: int, attempts: seq<Attempt>, stopAt: int)
    ensures RunPeriodic(0, MaxTimerSeconds + 1, phaseStart, attempts, stopAt) == LoopTrace([], [], TimerRejected)
    ensures RunPeriodic(0, 0, phaseStart, attempts, stopAt) == LoopTrace([], [], TimerRejected)
    ensures |attempts| > 0 && phaseStart + MaxTimerSeconds < stopAt ==>
      RunPeriodic(0, MaxTimerSeconds, phaseStart, attempts, stopAt).starts != []
  {
  }

  /** The loop itself never ends in one of the two outcomes that happen before it. */
  lemma {:induction false} LoopEndsInLoop(interval: int, next: int, free: int, attempts: seq<Attempt>, stopAt: int)
    requires interval > 0
    ensures Loop(interval, next, free, attempts, stopAt).end !in {CanceledInDelay, TimerRejected}
    decreases |attempts|
  {
    var s := if next <= free then free else next;
    if !(stopAt <= s) && |attempts| > 0 && !attempts[0].report.SetupFailed? {
      LoopEndsInLoop(interval, NextTickAfter(next, s, interval), s + attempts[0].duration, attempts[1..], stopAt);
    }
  }

  /** Run `k` starts no earlier than the `k`-th tick after `next`: at most one
      run per interval, however long the runs take. */
  lemma {:induction false} LoopRate(interval: int, next: int, free: int, attempts: seq<Attempt>, stopAt: int, k: nat)
    requires interval > 0
    requires k < |Loop(interval, next, free, attempts, stopAt).starts|
    ensures Loop(interval, next, free, attempts, stopAt).starts[k] >= next + k * interval
    decreases |attempts|
  {
    var s := if next <= free then free else next;
    if k > 0 {
      var next' := NextTickAfter(next, s, interval);
      LoopRate(interval, next', s + attempts[0].duration, attempts[1..], stopAt, k - 1);
      assert next' + (k - 1) * interval >= next + k * interval;
    }
  }

  /** A run begins once the previous one has finished: a source's periodic
      runs never overlap. */
  lemma {:induction false} LoopNoOverlap(interval: int, next: int, free: int, attempts: seq<Attempt>, stopAt: int, k: nat)
    requires interval > 0
    requires k + 1 < |Loop(interval, next, free, attempts, stopAt).starts|
    ensures var t := Loop(interval, next, free, attempts, stopAt);
      t.starts[k + 1] >= t.starts[k] + attempts[k].duration
    decreases |attempts|
  {
    var s := if next <= free then free else next;
    var next' := NextTickAfter(next, s, interval);
    var free' := s + attempts[0].duration;
    if k > 0 {
      LoopNoOverlap(interval, next', free', attempts[1..], stopAt, k - 1);
    } else {
      LoopFirstStart(interval, next', free', attempts[1..], stopAt);
    }
  }

  /** The first run waits for both the tick and the loop. */
  lemma LoopFirstStart(interval: int, next: int, free: int, attempts: seq<Attempt>, stopAt: int)
    requires interval > 0
    ensures var t := Loop(interval, next, free, attempts, stopAt);
      |t.starts| > 0 ==> t.starts[0] >= next && t.starts[0] >= free && t.starts[0] < stopAt
  {
  }

  /** Runs shorter than the interval keep the exact rhythm: run `k` starts on
      the `k`-th tick. */
  lemma {:induction false} LoopExactRhythm(interval: int, next: int, free: int, attempts: seq<Attempt>, stopAt: int, k: nat)
    requires interval > 0 && free <= next
    requires forall j :: 0 <= j < |attempts| ==> attempts[j].duration < interval
    requires k < |Loop(interval, next, free, attempts, stopAt).starts|
    ensures Loop(interval, next, free, attempts, stopAt).starts[k] == next + k * interval
    decreases |attempts|
  {
    if k > 0 {
      assert NextTickAfter(next, next, interval) == next + interval;
      LoopExactRhythm(interval, next + interval, next + attempts[0].duration, attempts[1..], stopAt, k - 1);
      assert next + interval + (k - 1) * interval == next + k * interval;
    }
  }

  /** The messages of the runs whose `ProcessAsync` threw. */
  function FailedMessages(attempts: seq<Attempt>): seq<string> {
    if |attempts| == 0 then []
    else Logged(attempts[0].report) + FailedMessages(attempts[1..])
  }

  /** The errors logged are those of the runs whose processing failed, in
      order. */
  lemma {:induction false} LoopLogsFailures(interval: int, next: int, free: int, attempts: seq<Attempt>, stopAt: int)
    requires interval > 0
    ensures Loop(interval, next, free, attempts, stopAt).errors ==
            FailedMessages(attempts[..|Loop(interval, next, free, attempts, stopAt).starts|])
    decreases |attempts|
  {
    var t := Loop(interval, next, free, attempts, stopAt);
    var s := if next <= free then free else next;
    if stopAt <= s || |attempts| == 0 {
      assert attempts[..0] == [];
    } else if attempts[0].report.SetupFailed? {
      assert attempts[..1] == [attempts[0]];
      assert FailedMessages(attempts[..1]) == [] + FailedMessages(attempts[1..][..0]);
    } else {
      var rest := attempts[1..];
      var r := Loop(interval, NextTickAfter(next, s, interval), s + attempts[0].duration, rest, stopAt);
      LoopLogsFailures(interval, NextTickAfter(next, s, interval), s + attempts[0].duration, rest, stopAt);
      assert |t.starts| == 1 + |r.starts|;
      assert attempts[..|t.starts|][0] == attempts[0];
      assert attempts[..|t.starts|][1..] == rest[..|r.starts|];
    }
  }

  /** A run whose processing fails does not end the loop; only a failure to
      build the processor does, right after that run, and a loop that used up
      its runs made every one of them. */
  lemma {:induction false} LoopEnds(interval: int, next: int, free: int, attempts: seq<Attempt>, stopAt: int)
    requires interval > 0
    ensures var t := Loop(interval, next, free, attempts, stopAt);
      && (forall k :: 0 <= k < |t.starts| - 1 ==> !attempts[k].report.SetupFailed?)
      && (t.end.Faulted? <==> |t.starts| > 0 && attempts[|t.starts| - 1].report.SetupFailed?)
      && (t.end.Faulted? ==> attempts[|t.starts| - 1].report.message == t.end.message)
      && (t.end == StillRunning ==> |t.starts| == |attempts|)
    decreases |attempts|
  {
    var s := if next <= free then free else next;
    if !(stopAt <= s) && |attempts| > 0 && !attempts[0].report.SetupFailed? {
      var rest := attempts[1..];
      LoopEnds(interval, NextTickAfter(next, s, interval), s + attempts[0].duration, rest, stopAt);
      assert forall k :: 1 <= k < |attempts| ==> attempts[k] == rest[k - 1];
    }
  }

  /** The processing outcome of every run with failures read as successes. */
  function Tolerate(attempts: seq<Attempt>): (r: seq<Attempt>)
    ensures |r| == |attempts|
    ensures forall k :: 0 <= k < |r| ==> r[k].duration == attempts[k].duration
    ensures forall k :: 0 <= k < |r| ==> (r[k].report.SetupFailed? <==> attempts[k].report.SetupFailed?)
  {
    seq(|attempts|, k requires 0 <= k < |attempts| =>
      if attempts[k].report.ProcessFailed? then Attempt(attempts[k].duration, Completed) else attempts[k])
  }

  /** One run that started and built its processor: the loop goes on from
      the next tick, with the host free again once the run is over. */
  lemma LoopStep(interval: int, next: int, free: int, attempts: seq<Attempt>, stopAt: int, s: int)
    requires interval > 0
    requires s == (if next <= free then free else next)
    requires !(stopAt <= s) && |attempts| > 0 && !attempts[0].report.SetupFailed?
    ensures Loop(interval, next, free, attempts, stopAt).starts ==
            [s] + Loop(interval, NextTickAfter(next, s, interval), s + attempts[0].duration, attempts[1..], stopAt).starts
    ensures Loop(interval, next, free, attempts, stopAt).end ==
            Loop(interval, NextTickAfter(next, s, interval), s + attempts[0].duration, attempts[1..], stopAt).end
  {
  }

  /** The first run read as a success starts and builds its processor
      exactly when the original does, and leaves the same later runs. */
  lemma TolerateHead(attempts: seq<Attempt>)
    requires |attempts| > 0
    ensures Tolerate(attempts)[0].duration == attempts[0].duration
    ensures Tolerate(attempts)[0].report.SetupFailed? == attempts[0].report.SetupFailed?
    ensures Tolerate(attempts)[1..] == Tolerate(attempts[1..])
  {
  }

  /** A failing `ProcessAsync` does not shift the runs: they start at the
      same times as if it had succeeded. */
  lemma {:induction false} FailureKeepsStarts(interval: int, next: int, free: int, attempts: seq<Attempt>, stopAt: int)
    requires interval > 0
    ensures Loop(interval, next, free, attempts, stopAt).starts == Loop(interval, next, free, Tolerate(attempts), stopAt).starts
    decreases |attempts|
  {
    var s := if next <= free then free else next;
    if !(stopAt <= s) && |attempts| > 0 && !attempts[0].report.SetupFailed? {
      FailureKeepsStarts(interval, NextTickAfter(next, s, interval), s + attempts[0].duration, attempts[1..], stopAt);
      TolerateHead(attempts);
      LoopStep(interval, next, free, attempts, stopAt, s);
      LoopStep(interval, next, free, Tolerate(attempts), stopAt, s);
    }
  }

  /** A failing `ProcessAsync` does not stop the loop: it ends the same way as
      if the run had succeeded. */
  lemma {:induction false} FailureKeepsEnd(interval: int, next: int, free: int, attempts: seq<Attempt>, stopAt: int)
    requires interval > 0
    ensures Loop(interval, next, free, attempts, stopAt).end == Loop(interval, next, free, Tolerate(attempts), stopAt).end
    decreases |attempts|
  {
    var s := if next <= free then free else next;
    if !(stopAt <= s) && |attempts| > 0 && !attempts[0].report.SetupFailed? {
      FailureKeepsEnd(interval, NextTickAfter(next, s, interval), s + attempts[0].duration, attempts[1..], stopAt);
      TolerateHead(attempts);
      LoopStep(interval, next, free, attempts, stopAt, s);
      LoopStep(interval, next, free, Tolerate(attempts), stopAt, s);
    }
  }

  // ------------------------------------------------------------ service

  /** What `ExecuteAsync` did: the start of each first run, and each
      source's periodic loop (none when the staggered phase was cancelled,
      as the cancelled wait throws out of `ExecuteAsync`). */
  datatype ServiceRun = ServiceRun(firstRuns: seq<int>, periodic: seq<LoopTrace>)

  /** The periodic phase begins when the staggered loop has started its last
      source; it does not wait for those first runs to finish. */
  function PhaseStart(n: nat): nat {
    if n == 0 then 0 else StaggerOffset(n - 1)
  }

  /** `ExecuteAsync`, given the runs each source's loop will make and the
      time the token is cancelled. */
  function Execute(sources: seq<SourceConfig>, attempts: seq<seq<Attempt>>, stopAt: int): (r: ServiceRun)
    requires |attempts| == |sources|
    ensures |r.periodic| == 0 || |r.periodic| == |sources|
    ensures |r.periodic| == |sources| ==> |r.firstRuns| == |sources|
  {
    var n := |sources|;
    var started := StartedCount(0, n, stopAt);
    var first := seq(started, i requires 0 <= i < started => StaggerOffset(i));
    if started < n then ServiceRun(first, [])
    else
      ServiceRun(first, seq(n, i requires 0 <= i < n =>
        RunPeriodic(i, sources[i].fetchInterval, PhaseStart(n), attempts[i], stopAt)))
  }

  /** No configured section: nothing is started and no loop runs. */
  lemma NoSectionNoWork(stopAt: int)
    ensures Execute(Sources(None), [], stopAt) == ServiceRun([], [])
  {
  }

  /** First runs begin at the staggered offsets until the cancellation, and
      the periodic phase runs exactly when every first run has begun. */
  lemma ExecuteFirstRuns(sources: seq<SourceConfig>, attempts: seq<seq<Attempt>>, stopAt: int)
    requires |attempts| == |sources|
    ensures var r := Execute(sources, attempts, stopAt);
      && (forall i :: 0 <= i < |r.firstRuns| ==> r.firstRuns[i] == StaggerOffset(i) && (i == 0 || r.firstRuns[i] < stopAt))
      && (|r.firstRuns| < |sources| ==> stopAt <= StaggerOffset(|r.firstRuns|))
      && (|r.periodic| == |sources| <==> |r.firstRuns| == |sources|)
  {
  }

  /** Each run of a source's loop starts a full interval after the previous
      tick slot, counting from the end of its initial delay. */
  lemma RunPeriodicRate(i: nat, interval: int, phaseStart: int, attempts: seq<Attempt>, stopAt: int, k: nat)
    requires k < |RunPeriodic(i, interval, phaseStart, attempts, stopAt).starts|
    ensures TimerAccepts(interval)
    ensures RunPeriodic(i, interval, phaseStart, attempts, stopAt).starts[k] >= phaseStart + i * StaggerSeconds + (k + 1) * interval
  {
    var base := phaseStart + i * StaggerSeconds;
    LoopRate(interval, base + interval, base, attempts, stopAt, k);
    assert base + interval + k * interval == base + (k + 1) * interval;
  }

  /** The entries `Execute` records for the source at position `i`. */
  lemma ExecuteEntry(sources: seq<SourceConfig>, attempts: seq<seq<Attempt>>, stopAt: int, i: nat)
    requires |attempts| == |sources|
    requires i < |Execute(sources, attempts, stopAt).periodic|
    ensures var r := Execute(sources, attempts, stopAt);
      && r.periodic[i] == RunPeriodic(i, sources[i].fetchInterval, PhaseStart(|sources|), attempts[i], stopAt)
      && r.firstRuns[i] == StaggerOffset(i)
  {
  }

  /** Each source's periodic processing starts only after its own first run
      began, and a full interval after its initial delay. */
  lemma PeriodicAfterFirstRun(sources: seq<SourceConfig>, attempts: seq<seq<Attempt>>, stopAt: int, i: nat, k: nat)
    requires |attempts| == |sources|
    requires i < |Execute(sources, attempts, stopAt).periodic|
    requires k < |Execute(sources, attempts, stopAt).periodic[i].starts|
    ensures var r := Execute(sources, attempts, stopAt);
      && r.periodic[i].starts[k] >= PhaseStart(|sources|) + i * StaggerSeconds + (k + 1) * sources[i].fetchInterval
      && r.periodic[i].starts[k] > r.firstRuns[i]
  {
    var n := |sources|;
    ExecuteEntry(sources, attempts, stopAt, i);
    RunPeriodicRate(i, sources[i].fetchInterval, PhaseStart(n), attempts[i], stopAt, k);
    MulAtLeast(k + 1, sources[i].fetchInterval);
    TriMonotone(i, n - 1);
  }
}
