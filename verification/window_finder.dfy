/**
 * The optimal charging window: among all runs of `2 * hours` consecutive
 * samples in the fetched horizon, the first one with the highest average
 * clean-energy share.
 */
module WindowFinder {
  import opened Generation
  import opened EnergySource
  import opened DataSource

  /** `clean` holds each clean pair of `ms` as often as `ms` does, and nothing else. */
  ghost predicate KeepsCleanCounts(clean: seq<FuelMix>, ms: seq<FuelMix>)
  {
    forall m {:trigger multiset(clean)[m]} :: multiset(clean)[m] == if m.fuel in CleanFuels then multiset(ms)[m] else 0
  }

  /** The pairs of a generation mix whose fuel is clean, in order. */
  function CleanMixes(ms: seq<FuelMix>): (clean: seq<FuelMix>)
    ensures forall m :: m in clean <==> m in ms && m.fuel in CleanFuels
    ensures KeepsCleanCounts(clean, ms)
    ensures IsSubsequence(clean, ms)
    decreases |ms|
  {
    if ms == [] then []
    else
      var rest := CleanMixes(ms[1..]);
      CleanFuelsMatchEnum(ms[0].fuel);
      assert ms == [ms[0]] + ms[1..];
      if IsClean(ms[0].fuel) then [ms[0]] + rest else rest
  }

  /** `cleanEnergyStream`: the clean pairs of one sample's mix. */
  function CleanEnergyStream(entry: GenerationEntry): (clean: seq<FuelMix>)
    ensures forall m :: m in clean <==> m in entry.generationmix && m.fuel in CleanFuels
    ensures KeepsCleanCounts(clean, entry.generationmix)
    ensures IsSubsequence(clean, entry.generationmix)
  {
    CleanMixes(entry.generationmix)
  }

  /** The sum of the percentages of a list of pairs. */
  function SumPerc(ms: seq<FuelMix>): real
    decreases |ms|
  {
    if ms == [] then 0.0 else ms[0].perc + SumPerc(ms[1..])
  }

  /** One sample's clean share: the direct sum of its clean percentages. */
  function CleanShare(entry: GenerationEntry): real
  {
    SumPerc(CleanEnergyStream(entry))
  }

  /** The sum of the clean shares of a run of samples. */
  function CleanTotal(window: seq<GenerationEntry>): real
    decreases |window|
  {
    if window == [] then 0.0 else CleanShare(window[0]) + CleanTotal(window[1..])
  }

  /** `average().orElse(0.0)` over the clean shares of a run of samples. */
  function AverageClean(window: seq<GenerationEntry>): real
  {
    if |window| == 0 then 0.0 else CleanTotal(window) / |window| as real
  }

  /** The score of the window of `w` samples starting at index `i`. */
  function WindowScore(entries: seq<GenerationEntry>, i: nat, w: nat): real
    requires i + w <= |entries|
  {
    AverageClean(entries[i..i + w])
  }

  /** The scores of the first `n` windows of `w` samples, by start index. */
  function ScoresUpTo(entries: seq<GenerationEntry>, w: nat, n: nat): (scores: seq<real>)
    requires n == 0 || n - 1 + w <= |entries|
    ensures |scores| == n
  {
    if n == 0 then [] else ScoresUpTo(entries, w, n - 1) + [WindowScore(entries, n - 1, w)]
  }

  /** The scores of all windows of `w` samples, by start index. */
  function Scores(entries: seq<GenerationEntry>, w: nat): (scores: seq<real>)
    requires w <= |entries|
    ensures |scores| == |entries| - w + 1
  {
    ScoresUpTo(entries, w, |entries| - w + 1)
  }

  lemma {:induction false} ScoresUpToAt(entries: seq<GenerationEntry>, w: nat, n: nat, j: nat)
    requires n == 0 || n - 1 + w <= |entries|
    requires j < n
    ensures ScoresUpTo(entries, w, n)[j] == WindowScore(entries, j, w)
  {
    if j < n - 1 {
      ScoresUpToAt(entries, w, n - 1, j);
    }
  }

  /** Index `j` of the scores is the score of the window starting at `j`. */
  lemma ScoreAt(entries: seq<GenerationEntry>, w: nat, j: nat)
    requires j + w <= |entries|
    ensures Scores(entries, w)[j] == WindowScore(entries, j, w)
  {
    ScoresUpToAt(entries, w, |entries| - w + 1, j);
  }

  /** The initial `maxAverage`, which a window must beat to be chosen at all. */
  const Sentinel: real := -1.0

  /** `b` has a maximal score, and no earlier index reaches it. */
  ghost predicate IsEarliestBest(scores: seq<real>, b: nat)
  {
    && b < |scores|
    && (forall j :: 0 <= j < |scores| ==> scores[j] <= scores[b])
    && (forall j :: 0 <= j < b ==> scores[j] < scores[b])
  }

  /** Some score is above the sentinel. */
  ghost predicate BeatsSentinel(scores: seq<real>)
  {
    exists j :: 0 <= j < |scores| && scores[j] > Sentinel
  }

  /**
   * What the scan computes: the earliest best index and its score, unless
   * no score beats the sentinel, in which case index 0 and the sentinel.
   */
  ghost predicate IsScanResult(scores: seq<real>, b: nat, avg: real)
  {
    && b < |scores|
    && (BeatsSentinel(scores) ==> IsEarliestBest(scores, b) && avg == scores[b])
    && (!BeatsSentinel(scores) ==> b == 0 && avg == Sentinel)
  }

  /** The response spans the `w` samples from index `b` and carries `avg`. */
  predicate IsWindowAt(entries: seq<GenerationEntry>, w: nat, b: nat, avg: real, window: OptimalChargingWindowResponse)
  {
    && 0 < w && b + w <= |entries|
    && window == OptimalChargingWindowResponse(entries[b].from, entries[b + w - 1].to, avg)
  }

  /** The response reports the scan result over `entries` with windows of `w`. */
  ghost predicate ReportsWindow(entries: seq<GenerationEntry>, w: nat, window: OptimalChargingWindowResponse)
  {
    exists b: nat :: IsWindowAt(entries, w, b, window.averageCleanEnergyPercentage, window)
      && IsScanResult(Scores(entries, w), b, window.averageCleanEnergyPercentage)
  }

  /**
   * `findOptimalChargingWindow`: reject a length outside 1..6 hours before any
   * fetch, fetch from tomorrow for two days, reject fewer samples than the
   * window needs, and report the scan result.
   */
  method FindOptimalChargingWindow(hours: int, bounds: DayBounds, reply: ProviderReply)
    returns (r: Result<OptimalChargingWindowResponse>)
    ensures hours < 1 || hours > 6 ==> r == Failure(IllegalArgument(InvalidWindowMessage))
    ensures 1 <= hours <= 6 && FetchGenerationData(bounds, 1, 2, reply).Failure? ==>
              r == Failure(FetchGenerationData(bounds, 1, 2, reply).error)
    ensures 1 <= hours <= 6 && FetchGenerationData(bounds, 1, 2, reply).Success? ==>
              var entries := FetchGenerationData(bounds, 1, 2, reply).value;
              && (|entries| < hours * 2 ==> r == Failure(NoGenerationFound(NotEnoughDataMessage)))
              && (|entries| >= hours * 2 ==> r.Success? && ReportsWindow(entries, hours * 2, r.value))
  {
    if hours < 1 || hours > 6 {
      return Failure(IllegalArgument(InvalidWindowMessage));
    }
    var response := FetchGenerationData(bounds, 1, 2, reply);
    if response.Failure? {
      return Failure(response.error);
    }
    var entries := response.value;

    var windowSize := hours * 2;
    if |entries| < windowSize {
      return Failure(NoGenerationFound(NotEnoughDataMessage));
    }

    var maxAverage, bestStartIndex := ScanWindows(entries, windowSize);
    var window := OptimalChargingWindowResponse(
      entries[bestStartIndex].from,
      entries[bestStartIndex + windowSize - 1].to,
      maxAverage);
    assert IsWindowAt(entries, windowSize, bestStartIndex, maxAverage, window);
    r := Success(window);
  }

  /**
   * The sliding-window loop of `findOptimalChargingWindow`: every start index
   * in turn, replacing the best only on a strictly higher average.
   */
  method ScanWindows(entries: seq<GenerationEntry>, windowSize: nat) returns (maxAverage: real, bestStartIndex: nat)
    requires 0 < windowSize <= |entries|
    ensures IsScanResult(Scores(entries, windowSize), bestStartIndex, maxAverage)
  {
    ghost var scores := Scores(entries, windowSize);
    maxAverage := Sentinel;
    bestStartIndex := 0;
    var i := 0;
    while i <= |entries| - windowSize
      invariant 0 <= i <= |scores|
      invariant (maxAverage == Sentinel && bestStartIndex == 0)
             || (bestStartIndex < i && maxAverage == scores[bestStartIndex] && maxAverage > Sentinel)
      invariant forall j :: 0 <= j < i ==> scores[j] <= maxAverage
      invariant forall j :: 0 <= j < bestStartIndex ==> scores[j] < maxAverage
    {
      var avgClean := AverageClean(entries[i..i + windowSize]);
      ScoreAt(entries, windowSize, i);
      if avgClean > maxAverage {
        maxAverage := avgClean;
        bestStartIndex := i;
      }
      i := i + 1;
    }
    ScanConclusion(scores, bestStartIndex, maxAverage);
  }

  /** The loop's invariants, once every index is scanned, give the scan result. */
  lemma ScanConclusion(scores: seq<real>, best: nat, maxAverage: real)
    requires (maxAverage == Sentinel && best == 0 && scores != [])
          || (best < |scores| && maxAverage == scores[best] && maxAverage > Sentinel)
    requires forall j :: 0 <= j < |scores| ==> scores[j] <= maxAverage
    requires forall j :: 0 <= j < best ==> scores[j] < maxAverage
    ensures IsScanResult(scores, best, maxAverage)
  {
    if BeatsSentinel(scores) {
      var j :| 0 <= j < |scores| && scores[j] > Sentinel;
      assert maxAverage > Sentinel;
    }
  }

  // ---------------------------------------------------------------------------
  // The scan result against a brute-force maximum
  // ---------------------------------------------------------------------------

  /** The highest of the scores at indices 0..k. */
  function MaxScore(scores: seq<real>, k: nat): real
    requires k < |scores|
  {
    if k == 0 then scores[0]
    else
      var m := MaxScore(scores, k - 1);
      if scores[k] > m then scores[k] else m
  }

  lemma {:induction false} MaxScoreIsMax(scores: seq<real>, k: nat)
    requires k < |scores|
    ensures forall j :: 0 <= j <= k ==> scores[j] <= MaxScore(scores, k)
    ensures exists j :: 0 <= j <= k && scores[j] == MaxScore(scores, k)
  {
    if k == 0 {
      assert scores[0] == MaxScore(scores, 0);
    } else {
      MaxScoreIsMax(scores, k - 1);
      var m := MaxScore(scores, k - 1);
      var j :| 0 <= j <= k - 1 && scores[j] == m;
      var best := if scores[k] > m then k else j;
      assert scores[best] == MaxScore(scores, k);
    }
  }

  /**
   * When some window beats the sentinel, the reported average is the maximum
   * over all windows.
   */
  lemma ScanFindsMaximum(scores: seq<real>, b: nat, avg: real)
    requires IsScanResult(scores, b, avg)
    requires BeatsSentinel(scores)
    ensures avg == MaxScore(scores, |scores| - 1)
  {
    MaxScoreIsMax(scores, |scores| - 1);
    var j :| 0 <= j < |scores| && scores[j] == MaxScore(scores, |scores| - 1);
    assert scores[j] <= avg;
  }

  /** The scan result is unique: the same scores always give the same window. */
  lemma ScanResultUnique(scores: seq<real>, b1: nat, a1: real, b2: nat, a2: real)
    requires IsScanResult(scores, b1, a1) && IsScanResult(scores, b2, a2)
    ensures b1 == b2 && a1 == a2
  {
    if BeatsSentinel(scores) {
      assert scores[b1] <= scores[b2] && scores[b2] <= scores[b1];
      assert !(b1 < b2) && !(b2 < b1);
    }
  }

  /**
   * The same samples always yield the same response: repeated calls with an
   * unchanged clock and provider data agree.
   */
  lemma ReportsWindowUnique(entries: seq<GenerationEntry>, w: nat,
                            r1: OptimalChargingWindowResponse, r2: OptimalChargingWindowResponse)
    requires ReportsWindow(entries, w, r1) && ReportsWindow(entries, w, r2)
    ensures r1 == r2
  {
    var a1, a2 := r1.averageCleanEnergyPercentage, r2.averageCleanEnergyPercentage;
    var b1: nat :| IsWindowAt(entries, w, b1, a1, r1) && IsScanResult(Scores(entries, w), b1, a1);
    var b2: nat :| IsWindowAt(entries, w, b2, a2, r2) && IsScanResult(Scores(entries, w), b2, a2);
    ScanResultUnique(Scores(entries, w), b1, a1, b2, a2);
  }

  // ---------------------------------------------------------------------------
  // Non-negative percentages
  // ---------------------------------------------------------------------------

  predicate NonNegative(entries: seq<GenerationEntry>)
  {
    forall k, m :: 0 <= k < |entries| && m in entries[k].generationmix ==> m.perc >= 0.0
  }

  lemma {:induction false} SumPercNonNegative(ms: seq<FuelMix>)
    requires forall m :: m in ms ==> m.perc >= 0.0
    ensures SumPerc(ms) >= 0.0
    decreases |ms|
  {
    if ms != [] {
      assert forall m :: m in ms[1..] ==> m in ms;
      SumPercNonNegative(ms[1..]);
    }
  }

  lemma {:induction false} CleanTotalNonNegative(window: seq<GenerationEntry>)
    requires NonNegative(window)
    ensures CleanTotal(window) >= 0.0
    decreases |window|
  {
    if window != [] {
      SumPercNonNegative(CleanEnergyStream(window[0]));
      assert NonNegative(window[1..]) by {
        forall k, m | 0 <= k < |window[1..]| && m in window[1..][k].generationmix
          ensures m.perc >= 0.0
        {
          assert window[1..][k] == window[k + 1];
        }
      }
      CleanTotalNonNegative(window[1..]);
    }
  }

  /**
   * With non-negative percentages every window scores at least 0, so the
   * sentinel never survives: the scan reports the true maximum and the first
   * window that reaches it.
   */
  lemma NonNegativeScanIsMaximum(entries: seq<GenerationEntry>, w: nat, b: nat, avg: real)
    requires NonNegative(entries)
    requires 0 < w <= |entries|
    requires IsScanResult(Scores(entries, w), b, avg)
    ensures IsEarliestBest(Scores(entries, w), b)
    ensures avg == Scores(entries, w)[b] == MaxScore(Scores(entries, w), |entries| - w)
    ensures avg >= 0.0
  {
    FirstWindowNonNegative(entries, w);
    ScanOfNonNegativeScores(Scores(entries, w), b, avg);
  }

  /** A first score of at least 0 beats the sentinel, so the scan finds the maximum. */
  lemma ScanOfNonNegativeScores(scores: seq<real>, b: nat, avg: real)
    requires scores != [] && scores[0] >= 0.0
    requires IsScanResult(scores, b, avg)
    ensures IsEarliestBest(scores, b)
    ensures avg == scores[b] == MaxScore(scores, |scores| - 1)
    ensures avg >= 0.0
  {
    assert BeatsSentinel(scores);
    ScanFindsMaximum(scores, b, avg);
  }

  lemma FirstWindowNonNegative(entries: seq<GenerationEntry>, w: nat)
    requires NonNegative(entries)
    requires 0 < w <= |entries|
    ensures Scores(entries, w)[0] >= 0.0
  {
    assert NonNegative(entries[0..w]) by {
      forall k, m | 0 <= k < w && m in entries[0..w][k].generationmix
        ensures m.perc >= 0.0
      {
        assert entries[0..w][k] == entries[k];
      }
    }
    CleanTotalNonNegative(entries[0..w]);
    ScoreAt(entries, w, 0);
  }
}
