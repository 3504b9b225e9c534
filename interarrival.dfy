/**
 * Inter-arrival extraction (inter_arrival-miner/interarrival.py): the
 * first `start` timestamp of every trace, sorted, and the gaps in seconds
 * between consecutive ones.
 */
module InterArrival {
  import opened Wrappers
  import opened Time
  import opened EventLog
  import DistributionFit

  predicate IsStart(e: Event)
  {
    e.lifecycle == "start"
  }

  /** Index of the first `start` event of a trace, or None when it has none. */
  function FirstStartIndex(trace: Trace): (r: Option<nat>)
    ensures r.Some? ==> r.value < |trace| && IsStart(trace[r.value])
    ensures r.Some? ==> forall j :: 0 <= j < r.value ==> !IsStart(trace[j])
    ensures r.None? ==> forall j :: 0 <= j < |trace| ==> !IsStart(trace[j])
  {
    if trace == [] then None
    else if IsStart(trace[0]) then Some(0)
    else
      match FirstStartIndex(trace[1..])
      case None => None
      case Some(k) => Some(k + 1)
  }

  /** What one trace contributes: the timestamp of its first `start` event, if any. */
  function Contribution(trace: Trace): seq<Instant>
  {
    match FirstStartIndex(trace)
    case None => []
    case Some(k) => [trace[k].time]
  }

  /** The collected start times, in trace order. */
  function StartTimes(log: Log): seq<Instant>
  {
    if log == [] then [] else StartTimes(log[..|log| - 1]) + Contribution(log[|log| - 1])
  }

  /** Consecutive differences, in seconds, of a sequence of timestamps. */
  function Gaps(s: seq<Instant>): (g: seq<int>)
  {
    seq(if |s| < 2 then 0 else |s| - 1, i requires 0 <= i < |s| - 1 => Seconds(s[i + 1]) - Seconds(s[i]))
  }

  /** The inter-arrival times of a log. */
  function InterArrivalTimes(log: Log): seq<int>
  {
    Gaps(Sort(StartTimes(log)))
  }

  lemma StartTimesStep(log: Log, i: nat)
    requires i < |log|
    ensures StartTimes(log[..i + 1]) == StartTimes(log[..i]) + Contribution(log[i])
  {
    assert log[..i + 1][..i] == log[..i];
  }

  lemma GapsStep(s: seq<Instant>, i: nat)
    requires 1 <= i < |s|
    ensures Gaps(s[..i + 1]) == Gaps(s[..i]) + [Seconds(s[i]) - Seconds(s[i - 1])]
  {
  }

  /**
   * compute_inter_arrival_times: collects the first start of every trace,
   * sorts them and fills the list of consecutive gaps.
   */
  method ComputeInterArrivalTimes(log: Log) returns (interArrivalTimes: seq<int>)
    ensures interArrivalTimes == InterArrivalTimes(log)
  {
    var startTimes: seq<Instant> := [];
    for i := 0 to |log|
      invariant startTimes == StartTimes(log[..i])
    {
      var trace := log[i];
      for j := 0 to |trace|
        invariant startTimes == StartTimes(log[..i])
        invariant forall k :: 0 <= k < j ==> !IsStart(trace[k])
      {
        if IsStart(trace[j]) {
          assert FirstStartIndex(trace) == Some(j);
          startTimes := startTimes + [trace[j].time];
          break;
        }
      }
      StartTimesStep(log, i);
    }
    assert log[..|log|] == log;

    startTimes := Sort(startTimes);

    interArrivalTimes := [];
    var i := 1;
    while i < |startTimes|
      invariant 1 <= i && (i <= |startTimes| || |startTimes| == 0)
      invariant i <= |startTimes| ==> interArrivalTimes == Gaps(startTimes[..i])
      invariant |startTimes| == 0 ==> interArrivalTimes == []
    {
      GapsStep(startTimes, i);
      interArrivalTimes := interArrivalTimes + [Seconds(startTimes[i]) - Seconds(startTimes[i - 1])];
      i := i + 1;
    }
    assert |startTimes| > 0 ==> startTimes[..i] == startTimes;
  }

  function Sum(s: seq<int>): int
  {
    if s == [] then 0 else Sum(s[..|s| - 1]) + s[|s| - 1]
  }

  /** Each trace contributes at most one start time. */
  lemma {:induction false} AtMostOneStartPerTrace(log: Log)
    ensures |StartTimes(log)| <= |log|
  {
    if log != [] {
      AtMostOneStartPerTrace(log[..|log| - 1]);
    }
  }

  /** Start times of a concatenated log are the concatenated start times. */
  lemma {:induction false} StartTimesConcat(a: Log, b: Log)
    ensures StartTimes(a + b) == StartTimes(a) + StartTimes(b)
  {
    if b == [] {
      assert a + b == a;
    } else {
      var b' := b[..|b| - 1];
      assert (a + b)[..|a + b| - 1] == a + b';
      assert (a + b)[|a + b| - 1] == b[|b| - 1];
      StartTimesConcat(a, b');
    }
  }

  /** Taking one trace out of a log takes out exactly its contribution. */
  lemma StartTimesRemove(x: Log, t: Trace, y: Log)
    ensures multiset(StartTimes(x + [t] + y)) == multiset(StartTimes(x + y)) + multiset(Contribution(t))
  {
    StartTimesConcat(x + [t], y);
    StartTimesConcat(x, [t]);
    StartTimesConcat(x, y);
    assert [t][..0] == [];
  }

  /** The collected start times depend only on which traces the log holds, not on their order. */
  lemma {:induction false} StartTimesIgnoreTraceOrder(log1: Log, log2: Log)
    requires multiset(log1) == multiset(log2)
    ensures multiset(StartTimes(log1)) == multiset(StartTimes(log2))
  {
    if log1 == [] {
      assert |log2| == |multiset(log2)| == 0;
    } else {
      var n := |log1|;
      var t := log1[n - 1];
      var rest1 := log1[..n - 1];
      assert log1 == rest1 + [t];
      assert t in multiset(log2);
      var j :| 0 <= j < |log2| && log2[j] == t;
      var rest2 := log2[..j] + log2[j + 1..];
      assert log2 == log2[..j] + [t] + log2[j + 1..];
      assert multiset(rest2) == multiset(log2) - multiset{t};
      assert multiset(rest1) == multiset(log1) - multiset{t};
      StartTimesIgnoreTraceOrder(rest1, rest2);
      StartTimesRemove(log2[..j], t, log2[j + 1..]);
      StartTimesRemove(rest1, t, []);
      assert rest1 + [t] + [] == log1 && rest1 + [] == rest1;
    }
  }

  /** With k collected start times there are k - 1 gaps, none when k < 2. */
  lemma GapCount(log: Log)
    ensures var k := |StartTimes(log)|;
      |InterArrivalTimes(log)| == if k < 2 then 0 else k - 1
  {
    SortSameElements(StartTimes(log));
  }

  /** Every gap is non-negative, because the start times are sorted first. */
  lemma GapsNonNegative(log: Log)
    ensures forall i :: 0 <= i < |InterArrivalTimes(log)| ==> InterArrivalTimes(log)[i] >= 0
  {
    var s := Sort(StartTimes(log));
    forall i | 0 <= i < |s| - 1
      ensures Seconds(s[i + 1]) - Seconds(s[i]) >= 0
    {
      BeforeIsSecondsOrder(s[i], s[i + 1]);
    }
  }

  /** The gaps of a sequence sum to its last element minus its first. */
  lemma {:induction false} GapsTelescope(s: seq<Instant>)
    requires |s| > 0
    ensures Sum(Gaps(s)) == Seconds(s[|s| - 1]) - Seconds(s[0])
  {
    if |s| >= 2 {
      var n := |s|;
      GapsStep(s, n - 1);
      assert s[..n] == s;
      assert Gaps(s)[..n - 2] == Gaps(s[..n - 1]);
      GapsTelescope(s[..n - 1]);
    }
  }

  /** The first and last sorted start times are the earliest and the latest. */
  lemma SortedEnds(s: seq<Instant>)
    requires |s| > 0
    ensures |Sort(s)| == |s|
    ensures Sort(s)[0] == Earliest(s) && Sort(s)[|s| - 1] == Latest(s)
  {
    var r := Sort(s);
    SortSameElements(s);
    assert forall x :: x in s ==> Before(r[0], x);
    EarliestUnique(s, r[0]);
    assert forall x :: x in s ==> Before(x, r[|r| - 1]);
    LatestUnique(s, r[|r| - 1]);
  }

  /** The gaps sum to the latest collected start time minus the earliest. */
  lemma GapsSumToSpan(log: Log)
    ensures var st := StartTimes(log);
      Sum(InterArrivalTimes(log)) == if st == [] then 0 else Seconds(Latest(st)) - Seconds(Earliest(st))
  {
    var st := StartTimes(log);
    if st != [] {
      SortedEnds(st);
      GapsTelescope(Sort(st));
    }
  }

  /** Reordering the traces of a log does not change its inter-arrival times. */
  lemma TraceOrderIrrelevant(log1: Log, log2: Log)
    requires multiset(log1) == multiset(log2)
    ensures InterArrivalTimes(log1) == InterArrivalTimes(log2)
  {
    StartTimesIgnoreTraceOrder(log1, log2);
    SortedUnique(Sort(StartTimes(log1)), Sort(StartTimes(log2)));
  }

  /** The gaps as the real-valued observations handed to the fitter. */
  function AsReals(s: seq<int>): (r: seq<real>)
    ensures |r| == |s| && forall i :: 0 <= i < |s| ==> r[i] == s[i] as real
  {
    seq(|s|, i requires 0 <= i < |s| => s[i] as real)
  }

  /**
   * find_inter_arrival_distribution: fits the inter-arrival times of the
   * log, with no outlier trimming and the default sample count. It fails
   * exactly when fewer than two traces have a start event.
   */
  method FindInterArrivalDistribution(lib: DistributionFit.Library, log: Log)
    returns (r: Option<DistributionFit.Report>)
    ensures DistributionFit.IsBestFit(lib, AsReals(InterArrivalTimes(log)), None, r)
    ensures r.None? <==> |StartTimes(log)| < 2
  {
    var interArrivalTimes := ComputeInterArrivalTimes(log);
    r := DistributionFit.FindBestFitDistribution(lib, AsReals(interArrivalTimes), None, false);
    GapCount(log);
  }
}
