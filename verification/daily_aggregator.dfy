/**
 * The three-day averages: samples are grouped by the UTC day of their start,
 * each day's fuels are averaged over the samples that report them, the
 * averages of the clean fuels are summed, and the days are sorted.
 */
module DailyAggregator {
  import opened Generation
  import opened EnergySource
  import opened DataSource

  // ---------------------------------------------------------------------------
  // Grouping by day
  // ---------------------------------------------------------------------------

  /** One entry of the map `groupEntriesByDate` builds: a day and its samples. */
  datatype DayGroup = DayGroup(day: Day, entries: seq<GenerationEntry>)

  /** The samples starting on day `d`, in their original order. */
  function OnDay(entries: seq<GenerationEntry>, d: Day): seq<GenerationEntry>
    decreases |entries|
  {
    if entries == [] then []
    else
      var n := |entries| - 1;
      OnDay(entries[..n], d) + (if DayOf(entries[n].from) == d then [entries[n]] else [])
  }

  /** `OnDay` keeps exactly the samples of day `d`. */
  lemma {:induction false} OnDayMembers(entries: seq<GenerationEntry>, d: Day)
    ensures forall e :: e in OnDay(entries, d) <==> e in entries && DayOf(e.from) == d
    decreases |entries|
  {
    if entries != [] {
      var n := |entries| - 1;
      assert entries == entries[..n] + [entries[n]];
      OnDayMembers(entries[..n], d);
    }
  }

  lemma {:induction false} OnDayEmpty(entries: seq<GenerationEntry>, d: Day)
    requires forall i :: 0 <= i < |entries| ==> DayOf(entries[i].from) != d
    ensures OnDay(entries, d) == []
    decreases |entries|
  {
    if entries != [] {
      OnDayEmpty(entries[..|entries| - 1], d);
    }
  }

  /** The days of the groups, in group order. */
  function Days(g: seq<DayGroup>): (days: seq<Day>)
    ensures |days| == |g| && forall i :: 0 <= i < |g| ==> days[i] == g[i].day
  {
    seq(|g|, i requires 0 <= i < |g| => g[i].day)
  }

  /** No two groups share a day: the groups are the entries of a map. */
  predicate DistinctDays(g: seq<DayGroup>)
  {
    forall i, j :: 0 <= i < j < |g| ==> g[i].day != g[j].day
  }

  /** `groupingBy` adding one sample: appended to its day's list, or a new list. */
  function AddToGroup(g: seq<DayGroup>, e: GenerationEntry): (r: seq<DayGroup>)
    requires DistinctDays(g)
    ensures DayOf(e.from) in Days(g) ==> |r| == |g|
    ensures DayOf(e.from) !in Days(g) ==> r == g + [DayGroup(DayOf(e.from), [e])]
    ensures forall i :: 0 <= i < |g| ==>
              r[i] == if g[i].day == DayOf(e.from) then DayGroup(g[i].day, g[i].entries + [e]) else g[i]
  {
    var d := DayOf(e.from);
    if d in Days(g) then
      seq(|g|, i requires 0 <= i < |g| => if g[i].day == d then DayGroup(d, g[i].entries + [e]) else g[i])
    else
      g + [DayGroup(d, [e])]
  }

  /** Adding a sample keeps one group per day. */
  lemma AddToGroupDistinct(g: seq<DayGroup>, e: GenerationEntry)
    requires DistinctDays(g)
    ensures DistinctDays(AddToGroup(g, e))
  {
    var r := AddToGroup(g, e);
    forall i, j | 0 <= i < j < |r|
      ensures r[i].day != r[j].day
    {
      if j < |g| {
        assert r[i].day == g[i].day && r[j].day == g[j].day;
      } else {
        assert Days(g)[i] == g[i].day;
      }
    }
  }

  /** What `groupEntriesByDate` promises of the groups it builds from `entries`. */
  predicate GroupsOf(entries: seq<GenerationEntry>, g: seq<DayGroup>)
  {
    DistinctDays(g) && HoldsOwnDays(entries, g) && CoversDays(entries, g)
  }

  /** Every group holds exactly its day's samples, and at least one. */
  predicate HoldsOwnDays(entries: seq<GenerationEntry>, g: seq<DayGroup>)
  {
    forall i :: 0 <= i < |g| ==> g[i].entries == OnDay(entries, g[i].day) && g[i].entries != []
  }

  /** Every sample's day has a group. */
  predicate CoversDays(entries: seq<GenerationEntry>, g: seq<DayGroup>)
  {
    forall k :: 0 <= k < |entries| ==> DayOf(entries[k].from) in Days(g)
  }

  /**
   * `groupEntriesByDate`: one group per distinct day, holding exactly that
   * day's samples in their original order.
   */
  function GroupEntriesByDate(entries: seq<GenerationEntry>): (g: seq<DayGroup>)
    ensures GroupsOf(entries, g)
    decreases |entries|
  {
    if entries == [] then []
    else
      var g0 := GroupEntriesByDate(entries[..|entries| - 1]);
      GroupStep(entries, g0);
      AddToGroup(g0, entries[|entries| - 1])
  }

  lemma GroupStep(entries: seq<GenerationEntry>, g0: seq<DayGroup>)
    requires entries != []
    requires GroupsOf(entries[..|entries| - 1], g0)
    ensures GroupsOf(entries, AddToGroup(g0, entries[|entries| - 1]))
  {
    AddToGroupDistinct(g0, entries[|entries| - 1]);
    GroupStepHolds(entries, g0);
    GroupStepCovers(entries, g0);
  }

  lemma GroupStepHolds(entries: seq<GenerationEntry>, g0: seq<DayGroup>)
    requires entries != []
    requires GroupsOf(entries[..|entries| - 1], g0)
    ensures HoldsOwnDays(entries, AddToGroup(g0, entries[|entries| - 1]))
  {
    var g := AddToGroup(g0, entries[|entries| - 1]);
    forall i | 0 <= i < |g|
      ensures g[i].entries == OnDay(entries, g[i].day) && g[i].entries != []
    {
      GroupStepAt(entries, g0, i);
    }
  }

  lemma GroupStepCovers(entries: seq<GenerationEntry>, g0: seq<DayGroup>)
    requires entries != []
    requires DistinctDays(g0) && CoversDays(entries[..|entries| - 1], g0)
    ensures CoversDays(entries, AddToGroup(g0, entries[|entries| - 1]))
  {
    var n := |entries| - 1;
    forall k | 0 <= k < |entries|
      ensures DayOf(entries[k].from) in Days(AddToGroup(g0, entries[n]))
    {
      if k < n {
        assert entries[k] == entries[..n][k];
        assert DayOf(entries[k].from) in Days(g0);
      }
      AddToGroupKeepsDays(g0, entries[n], DayOf(entries[k].from));
    }
  }

  /** The group at index `i` holds its day's samples after adding the last one. */
  lemma GroupStepAt(entries: seq<GenerationEntry>, g0: seq<DayGroup>, i: nat)
    requires entries != []
    requires GroupsOf(entries[..|entries| - 1], g0)
    requires i < |AddToGroup(g0, entries[|entries| - 1])|
    ensures var g := AddToGroup(g0, entries[|entries| - 1]);
      g[i].entries == OnDay(entries, g[i].day) && g[i].entries != []
  {
    var n := |entries| - 1;
    var prefix, e := entries[..n], entries[n];
    var d := DayOf(e.from);
    if i == |g0| {
      forall k | 0 <= k < |prefix|
        ensures DayOf(prefix[k].from) != d
      {
        assert DayOf(prefix[k].from) in Days(g0);
      }
      OnDayEmpty(prefix, d);
    }
  }

  /** Adding a sample keeps every day that had a group and gives its own day one. */
  lemma AddToGroupKeepsDays(g0: seq<DayGroup>, e: GenerationEntry, d: Day)
    requires DistinctDays(g0)
    ensures d in Days(g0) ==> d in Days(AddToGroup(g0, e))
    ensures DayOf(e.from) in Days(AddToGroup(g0, e))
  {
    var g := AddToGroup(g0, e);
    if d in Days(g0) {
      var j :| 0 <= j < |g0| && Days(g0)[j] == d;
      assert Days(g)[j] == g[j].day == g0[j].day;
    }
    if DayOf(e.from) in Days(g0) {
      var j :| 0 <= j < |g0| && Days(g0)[j] == DayOf(e.from);
      assert Days(g)[j] == g[j].day == g0[j].day;
    } else {
      assert Days(g)[|g0|] == DayOf(e.from);
    }
  }

  /** The number of samples held by all groups together. */
  function GroupedCount(g: seq<DayGroup>): nat
  {
    if g == [] then 0 else |g[0].entries| + GroupedCount(g[1..])
  }

  lemma AddToGroupCount(g: seq<DayGroup>, e: GenerationEntry)
    requires DistinctDays(g)
    ensures GroupedCount(AddToGroup(g, e)) == GroupedCount(g) + 1
  {
    var d := DayOf(e.from);
    if d in Days(g) {
      var j :| 0 <= j < |g| && Days(g)[j] == d;
      GroupedCountUpdate(g, AddToGroup(g, e), j);
    } else {
      GroupedCountAppend(g, DayGroup(d, [e]));
    }
  }

  lemma {:induction false} GroupedCountAppend(g: seq<DayGroup>, x: DayGroup)
    ensures GroupedCount(g + [x]) == GroupedCount(g) + |x.entries|
    decreases |g|
  {
    if g != [] {
      assert (g + [x])[1..] == g[1..] + [x];
      GroupedCountAppend(g[1..], x);
    }
  }

  /** Growing one group by one sample grows the count by one. */
  lemma {:induction false} GroupedCountUpdate(g: seq<DayGroup>, r: seq<DayGroup>, j: nat)
    requires |r| == |g| && j < |g|
    requires forall i :: 0 <= i < |g| && i != j ==> r[i] == g[i]
    requires |r[j].entries| == |g[j].entries| + 1
    ensures GroupedCount(r) == GroupedCount(g) + 1
    decreases |g|
  {
    if j > 0 {
      GroupedCountUpdate(g[1..], r[1..], j - 1);
    } else {
      GroupedCountSame(g[1..], r[1..]);
    }
  }

  lemma {:induction false} GroupedCountSame(g: seq<DayGroup>, r: seq<DayGroup>)
    requires |r| == |g|
    requires forall i :: 0 <= i < |g| ==> |r[i].entries| == |g[i].entries|
    ensures GroupedCount(r) == GroupedCount(g)
    decreases |g|
  {
    if g != [] {
      GroupedCountSame(g[1..], r[1..]);
    }
  }

  /**
   * Grouping is a partition: each sample lands in the group of its own day and
   * in no other, and the groups hold as many samples as the input.
   */
  lemma {:induction false} GroupingIsPartition(entries: seq<GenerationEntry>)
    ensures var g := GroupEntriesByDate(entries);
      && GroupedCount(g) == |entries|
      && forall e, i :: e in entries && 0 <= i < |g| ==> (e in g[i].entries <==> g[i].day == DayOf(e.from))
    decreases |entries|
  {
    var g := GroupEntriesByDate(entries);
    if entries != [] {
      var n := |entries| - 1;
      GroupingIsPartition(entries[..n]);
      AddToGroupCount(GroupEntriesByDate(entries[..n]), entries[n]);
    }
    forall e, i | e in entries && 0 <= i < |g|
      ensures e in g[i].entries <==> g[i].day == DayOf(e.from)
    {
      OnDayMembers(entries, g[i].day);
    }
  }

  // ---------------------------------------------------------------------------
  // Averaging the fuels of one day
  // ---------------------------------------------------------------------------

  /** The `flatMap` of the samples' generation mixes. */
  function Mixes(entries: seq<GenerationEntry>): (ms: seq<FuelMix>)
    decreases |entries|
  {
    if entries == [] then []
    else Mixes(entries[..|entries| - 1]) + entries[|entries| - 1].generationmix
  }

  /** The sum of the percentages reported for `fuel`. */
  function FuelTotal(ms: seq<FuelMix>, fuel: string): real
    decreases |ms|
  {
    if ms == [] then 0.0
    else FuelTotal(ms[..|ms| - 1], fuel) + (if ms[|ms| - 1].fuel == fuel then ms[|ms| - 1].perc else 0.0)
  }

  /** The number of pairs that name `fuel`. */
  function FuelCount(ms: seq<FuelMix>, fuel: string): nat
    decreases |ms|
  {
    if ms == [] then 0
    else FuelCount(ms[..|ms| - 1], fuel) + (if ms[|ms| - 1].fuel == fuel then 1 else 0)
  }

  /** A fuel is counted exactly when some pair names it. */
  lemma {:induction false} FuelCountPositive(ms: seq<FuelMix>, fuel: string)
    ensures FuelCount(ms, fuel) > 0 <==> exists m :: m in ms && m.fuel == fuel
    decreases |ms|
  {
    if ms != [] {
      var k := |ms| - 1;
      assert ms == ms[..k] + [ms[k]];
      FuelCountPositive(ms[..k], fuel);
      if FuelCount(ms[..k], fuel) > 0 {
        var m :| m in ms[..k] && m.fuel == fuel;
        assert m in ms;
      }
    }
  }

  /** The running sum and count `averagingDouble` keeps per key. */
  datatype Tally = Tally(sum: real, count: nat)

  /** The accumulation of `groupingBy(fuel, averagingDouble(perc))`, pair by pair. */
  function Accumulate(ms: seq<FuelMix>): (acc: map<string, Tally>)
    ensures forall f :: f in acc <==> FuelCount(ms, f) > 0
    ensures forall f :: f in acc ==> acc[f] == Tally(FuelTotal(ms, f), FuelCount(ms, f))
    decreases |ms|
  {
    if ms == [] then map[]
    else
      var acc := Accumulate(ms[..|ms| - 1]);
      AccumulateStep(ms, acc);
      Add(acc, ms[|ms| - 1])
  }

  /** Adding one pair to the running tallies. */
  function Add(acc: map<string, Tally>, m: FuelMix): map<string, Tally>
  {
    var t := if m.fuel in acc then acc[m.fuel] else Tally(0.0, 0);
    acc[m.fuel := Tally(t.sum + m.perc, t.count + 1)]
  }

  lemma AccumulateStep(ms: seq<FuelMix>, acc: map<string, Tally>)
    requires ms != []
    requires forall f :: f in acc <==> FuelCount(ms[..|ms| - 1], f) > 0
    requires forall f :: f in acc ==> acc[f] == Tally(FuelTotal(ms[..|ms| - 1], f), FuelCount(ms[..|ms| - 1], f))
    ensures var acc' := Add(acc, ms[|ms| - 1]);
      && (forall f :: f in acc' <==> FuelCount(ms, f) > 0)
      && (forall f :: f in acc' ==> acc'[f] == Tally(FuelTotal(ms, f), FuelCount(ms, f)))
  {
    var prefix, m := ms[..|ms| - 1], ms[|ms| - 1];
    var acc' := Add(acc, m);
    forall f
      ensures (f in acc' <==> FuelCount(ms, f) > 0)
      ensures f in acc' ==> acc'[f] == Tally(FuelTotal(ms, f), FuelCount(ms, f))
    {
      assert FuelCount(ms, f) == FuelCount(prefix, f) + (if m.fuel == f then 1 else 0);
      assert FuelTotal(ms, f) == FuelTotal(prefix, f) + (if m.fuel == f then m.perc else 0.0);
      if f == m.fuel && f !in acc {
        assert FuelCount(prefix, f) == 0;
        assert FuelTotal(prefix, f) == 0.0 by { FuelTotalUncounted(prefix, f); }
      }
    }
  }

  /** A fuel no pair names has total 0. */
  lemma {:induction false} FuelTotalUncounted(ms: seq<FuelMix>, fuel: string)
    requires FuelCount(ms, fuel) == 0
    ensures FuelTotal(ms, fuel) == 0.0
    decreases |ms|
  {
    if ms != [] {
      FuelTotalUncounted(ms[..|ms| - 1], fuel);
    }
  }

  /**
   * `calculateAverageMix`: for each fuel some sample of the day names, the sum
   * of its percentages over the number of pairs naming it.
   */
  function CalculateAverageMix(entries: seq<GenerationEntry>): (avg: map<string, real>)
    ensures forall f :: f in avg <==> exists m :: m in Mixes(entries) && m.fuel == f
    ensures forall f :: f in avg ==>
              FuelCount(Mixes(entries), f) > 0 &&
              avg[f] == FuelTotal(Mixes(entries), f) / FuelCount(Mixes(entries), f) as real
  {
    var acc := Accumulate(Mixes(entries));
    assert forall f :: FuelCount(Mixes(entries), f) > 0 <==> exists m :: m in Mixes(entries) && m.fuel == f by {
      forall f { FuelCountPositive(Mixes(entries), f); }
    }
    map f | f in acc :: acc[f].sum / acc[f].count as real
  }

  /** `x` counted once for every pair that names `fuel`. */
  function FuelBound(ms: seq<FuelMix>, fuel: string, x: real): real
    decreases |ms|
  {
    if ms == [] then 0.0
    else FuelBound(ms[..|ms| - 1], fuel, x) + (if ms[|ms| - 1].fuel == fuel then x else 0.0)
  }

  lemma {:induction false} FuelBoundIsProduct(ms: seq<FuelMix>, fuel: string, x: real)
    ensures FuelBound(ms, fuel, x) == x * FuelCount(ms, fuel) as real
    decreases |ms|
  {
    if ms != [] {
      var k := |ms| - 1;
      FuelBoundIsProduct(ms[..k], fuel, x);
      var c := FuelCount(ms[..k], fuel) as real;
      assert x * (c + 1.0) == x * c + x;
    }
  }

  lemma {:induction false} FuelTotalAtLeast(ms: seq<FuelMix>, fuel: string, lo: real)
    requires forall i :: 0 <= i < |ms| && ms[i].fuel == fuel ==> lo <= ms[i].perc
    ensures FuelBound(ms, fuel, lo) <= FuelTotal(ms, fuel)
    decreases |ms|
  {
    if ms != [] {
      var prefix := ms[..|ms| - 1];
      assert forall i :: 0 <= i < |prefix| ==> prefix[i] == ms[i];
      FuelTotalAtLeast(prefix, fuel, lo);
    }
  }

  lemma {:induction false} FuelTotalAtMost(ms: seq<FuelMix>, fuel: string, hi: real)
    requires forall i :: 0 <= i < |ms| && ms[i].fuel == fuel ==> ms[i].perc <= hi
    ensures FuelTotal(ms, fuel) <= FuelBound(ms, fuel, hi)
    decreases |ms|
  {
    if ms != [] {
      var prefix := ms[..|ms| - 1];
      assert forall i :: 0 <= i < |prefix| ==> prefix[i] == ms[i];
      FuelTotalAtMost(prefix, fuel, hi);
    }
  }

  /** Dividing by a positive count keeps the order of two totals. */
  lemma DivideMonotone(a: real, b: real, c: real)
    requires a <= b && c > 0.0
    ensures a / c <= b / c
  {
  }

  /** `x` counted once per pair, over the number of pairs, is `x`. */
  lemma FuelBoundMean(ms: seq<FuelMix>, fuel: string, x: real)
    requires FuelCount(ms, fuel) > 0
    ensures FuelBound(ms, fuel, x) / FuelCount(ms, fuel) as real == x
  {
    FuelBoundIsProduct(ms, fuel, x);
  }

  lemma MeanBounds(ms: seq<FuelMix>, fuel: string, lo: real, hi: real)
    requires FuelCount(ms, fuel) > 0
    requires forall m :: m in ms && m.fuel == fuel ==> lo <= m.perc <= hi
    ensures lo <= FuelTotal(ms, fuel) / FuelCount(ms, fuel) as real <= hi
  {
    var c := FuelCount(ms, fuel) as real;
    PercBoundsAtIndices(ms, fuel, lo, hi);
    FuelTotalAtLeast(ms, fuel, lo);
    FuelTotalAtMost(ms, fuel, hi);
    DivideMonotone(FuelBound(ms, fuel, lo), FuelTotal(ms, fuel), c);
    DivideMonotone(FuelTotal(ms, fuel), FuelBound(ms, fuel, hi), c);
    FuelBoundMean(ms, fuel, lo);
    FuelBoundMean(ms, fuel, hi);
  }

  lemma PercBoundsAtIndices(ms: seq<FuelMix>, fuel: string, lo: real, hi: real)
    requires forall m :: m in ms && m.fuel == fuel ==> lo <= m.perc <= hi
    ensures forall i :: 0 <= i < |ms| && ms[i].fuel == fuel ==> lo <= ms[i].perc <= hi
  {
    forall i | 0 <= i < |ms| && ms[i].fuel == fuel
      ensures lo <= ms[i].perc <= hi
    {
      assert ms[i] in ms;
    }
  }

  /** An average lies between the smallest and largest percentage it averages. */
  lemma AverageWithinBounds(entries: seq<GenerationEntry>, fuel: string, lo: real, hi: real)
    requires fuel in CalculateAverageMix(entries)
    requires forall m :: m in Mixes(entries) && m.fuel == fuel ==> lo <= m.perc <= hi
    ensures lo <= CalculateAverageMix(entries)[fuel] <= hi
  {
    MeanBounds(Mixes(entries), fuel, lo, hi);
  }

  // ---------------------------------------------------------------------------
  // Clean energy
  // ---------------------------------------------------------------------------

  /** The sum of the values of the listed fuels that the map holds. */
  function SumPresent(avgMix: map<string, real>, fuels: seq<string>): real
    decreases |fuels|
  {
    if fuels == [] then 0.0
    else (if fuels[0] in avgMix then avgMix[fuels[0]] else 0.0) + SumPresent(avgMix, fuels[1..])
  }

  /**
   * `calculateCleanEnergy`: the sum of the averages of the clean fuels present
   * in the mix; 0 when none is present, never below any one clean average when
   * all are non-negative.
   */
  function CalculateCleanEnergy(avgMix: map<string, real>): (r: real)
    ensures (forall f :: f in CleanFuels ==> f !in avgMix) ==> r == 0.0
    ensures (forall f :: f in avgMix ==> avgMix[f] >= 0.0) ==>
              r >= 0.0 && forall f :: f in CleanFuels && f in avgMix ==> r >= avgMix[f]
  {
    SumPresentNone(avgMix, CleanFuelOrder);
    SumPresentBounds(avgMix, CleanFuelOrder);
    SumPresent(avgMix, CleanFuelOrder)
  }

  lemma {:induction false} SumPresentNone(avgMix: map<string, real>, fuels: seq<string>)
    ensures (forall f :: f in fuels ==> f !in avgMix) ==> SumPresent(avgMix, fuels) == 0.0
    decreases |fuels|
  {
    if fuels != [] {
      SumPresentNone(avgMix, fuels[1..]);
    }
  }

  lemma {:induction false} SumPresentBounds(avgMix: map<string, real>, fuels: seq<string>)
    ensures (forall f :: f in avgMix ==> avgMix[f] >= 0.0) ==>
              SumPresent(avgMix, fuels) >= 0.0 &&
              forall f :: f in fuels && f in avgMix ==> SumPresent(avgMix, fuels) >= avgMix[f]
    decreases |fuels|
  {
    if fuels != [] {
      SumPresentBounds(avgMix, fuels[1..]);
    }
  }

  lemma {:induction false} SumPresentAgree(m1: map<string, real>, m2: map<string, real>, fuels: seq<string>)
    requires forall f :: f in fuels ==> (f in m1 <==> f in m2) && (f in m1 ==> m1[f] == m2[f])
    ensures SumPresent(m1, fuels) == SumPresent(m2, fuels)
    decreases |fuels|
  {
    if fuels != [] {
      SumPresentAgree(m1, m2, fuels[1..]);
    }
  }

  lemma {:induction false} SumPresentAdd(m: map<string, real>, fuels: seq<string>, f: string, v: real)
    requires f !in m
    requires forall i, j :: 0 <= i < j < |fuels| ==> fuels[i] != fuels[j]
    ensures SumPresent(m[f := v], fuels) == SumPresent(m, fuels) + (if f in fuels then v else 0.0)
    decreases |fuels|
  {
    if fuels != [] {
      SumPresentAdd(m, fuels[1..], f, v);
      assert fuels[0] == f ==> f !in fuels[1..];
      assert f in fuels <==> f == fuels[0] || f in fuels[1..];
    }
  }

  /** Fuels outside the clean set do not affect the clean-energy share. */
  lemma CleanEnergyIgnoresOtherFuels(m1: map<string, real>, m2: map<string, real>)
    requires forall f :: f in CleanFuels ==> (f in m1 <==> f in m2) && (f in m1 ==> m1[f] == m2[f])
    ensures CalculateCleanEnergy(m1) == CalculateCleanEnergy(m2)
  {
    SumPresentAgree(m1, m2, CleanFuelOrder);
  }

  /** Adding a fuel's average adds it to the share exactly when the fuel is clean. */
  lemma CleanEnergyAddFuel(m: map<string, real>, f: string, v: real)
    requires f !in m
    ensures CalculateCleanEnergy(m[f := v]) == CalculateCleanEnergy(m) + (if f in CleanFuels then v else 0.0)
  {
    CleanFuelOrderDistinct();
    SumPresentAdd(m, CleanFuelOrder, f, v);
    CleanFuelsMatchEnum(f);
    assert f in CleanFuelOrder <==> IsClean(f);
  }

  // ---------------------------------------------------------------------------
  // One summary per day, sorted by day
  // ---------------------------------------------------------------------------

  /** The summary of one day's group. */
  function Summarize(group: DayGroup): (s: DailyGenerationResponse)
  {
    var avgMix := CalculateAverageMix(group.entries);
    DailyGenerationResponse(group.day, avgMix, CalculateCleanEnergy(avgMix))
  }

  function SummarizeAll(g: seq<DayGroup>): (s: seq<DailyGenerationResponse>)
    ensures |s| == |g| && forall i :: 0 <= i < |g| ==> s[i] == Summarize(g[i])
  {
    if g == [] then [] else [Summarize(g[0])] + SummarizeAll(g[1..])
  }

  predicate StrictlySortedByDate(s: seq<DailyGenerationResponse>)
  {
    forall i, j :: 0 <= i < j < |s| ==> s[i].date < s[j].date
  }

  /** One step of sorting by date: `x` placed before the first later day. */
  function InsertByDate(x: DailyGenerationResponse, s: seq<DailyGenerationResponse>): (r: seq<DailyGenerationResponse>)
    requires StrictlySortedByDate(s)
    requires forall y :: y in s ==> y.date != x.date
    ensures StrictlySortedByDate(r)
    ensures |r| == |s| + 1
    ensures forall y :: y in r <==> y == x || y in s
    decreases |s|
  {
    if s == [] || x.date < s[0].date then [x] + s
    else
      var rest := InsertByDate(x, s[1..]);
      assert forall y :: y in s[1..] ==> s[0].date < y.date;
      assert forall k :: 0 <= k < |rest| ==> s[0].date < rest[k].date;
      [s[0]] + rest
  }

  /** `sorted(Comparator.comparing(date))` over summaries of distinct days. */
  function SortByDate(s: seq<DailyGenerationResponse>): (r: seq<DailyGenerationResponse>)
    requires forall i, j :: 0 <= i < j < |s| ==> s[i].date != s[j].date
    ensures StrictlySortedByDate(r)
    ensures |r| == |s|
    ensures forall y :: y in r <==> y in s
    decreases |s|
  {
    if s == [] then []
    else InsertByDate(s[0], SortByDate(s[1..]))
  }

  /**
   * `calculateDailyAverages`: one summary per group, in ascending day order,
   * each holding its group's average mix and clean-energy share.
   */
  function CalculateDailyAverages(grouped: seq<DayGroup>): (r: seq<DailyGenerationResponse>)
    requires DistinctDays(grouped)
    ensures |r| == |grouped|
    ensures StrictlySortedByDate(r)
    ensures forall y :: y in r <==> y in SummarizeAll(grouped)
  {
    var summaries := SummarizeAll(grouped);
    assert forall i, j :: 0 <= i < j < |summaries| ==> summaries[i].date != summaries[j].date by {
      forall i, j | 0 <= i < j < |summaries|
        ensures summaries[i].date != summaries[j].date
      {
        assert summaries[i].date == grouped[i].day && summaries[j].date == grouped[j].day;
      }
    }
    SortByDate(summaries)
  }

  /** Sequences with the same members: one is empty exactly when the other is. */
  lemma SameMembersEmpty<T>(a: seq<T>, b: seq<T>)
    requires forall y :: y in a <==> y in b
    ensures a == [] <==> b == []
  {
    if a != [] {
      assert a[0] in b;
    }
    if b != [] {
      assert b[0] in a;
    }
  }

  /** Two date-sorted lists of the same summaries are the same list. */
  lemma {:induction false} SortedByDateUnique(a: seq<DailyGenerationResponse>, b: seq<DailyGenerationResponse>)
    requires StrictlySortedByDate(a) && StrictlySortedByDate(b)
    requires forall y :: y in a <==> y in b
    ensures a == b
    decreases |a|
  {
    SameMembersEmpty(a, b);
    if a != [] {
      SortedSameHead(a, b);
      forall y
        ensures y in a[1..] <==> y in b[1..]
      {
        if y in a[1..] {
          SortedSameTail(a, b, y);
        }
        if y in b[1..] {
          SortedSameTail(b, a, y);
        }
      }
      SortedByDateUnique(a[1..], b[1..]);
      assert a == [a[0]] + a[1..] && b == [b[0]] + b[1..];
    }
  }

  /** Date-sorted lists of the same summaries start with the same summary. */
  lemma SortedSameHead(a: seq<DailyGenerationResponse>, b: seq<DailyGenerationResponse>)
    requires StrictlySortedByDate(a) && StrictlySortedByDate(b)
    requires forall y :: y in a <==> y in b
    requires a != [] && b != []
    ensures a[0] == b[0]
  {
    assert b[0] in a && a[0] in b;
    var i :| 0 <= i < |a| && a[i] == b[0];
    var j :| 0 <= j < |b| && b[j] == a[0];
    assert a[0].date <= a[i].date;
    assert b[0].date <= b[j].date;
    assert i == 0;
  }

  /** Past their common head, the lists still share their members. */
  lemma SortedSameTail(a: seq<DailyGenerationResponse>, b: seq<DailyGenerationResponse>, y: DailyGenerationResponse)
    requires StrictlySortedByDate(a)
    requires forall y :: y in a <==> y in b
    requires a != [] && b != [] && a[0] == b[0]
    requires y in a[1..]
    ensures y in b[1..]
  {
    var k :| 0 <= k < |a[1..]| && a[1..][k] == y;
    assert a[0].date < a[k + 1].date;
    assert y in b;
    var m :| 0 <= m < |b| && b[m] == y;
    assert m != 0;
    assert b[1..][m - 1] == y;
  }

  /** Images of two lists with the same members have the same members. */
  lemma ImagesSameMembers<A, B>(f: A -> B, a1: seq<A>, a2: seq<A>, b1: seq<B>, b2: seq<B>)
    requires forall x :: x in a1 <==> x in a2
    requires |b1| == |a1| && forall i :: 0 <= i < |a1| ==> b1[i] == f(a1[i])
    requires |b2| == |a2| && forall i :: 0 <= i < |a2| ==> b2[i] == f(a2[i])
    ensures forall y :: y in b1 ==> y in b2
  {
    forall y | y in b1
      ensures y in b2
    {
      var j :| 0 <= j < |b1| && b1[j] == y;
      assert a1[j] in a2;
      var k :| 0 <= k < |a2| && a2[k] == a1[j];
      assert b2[k] == y;
    }
  }

  lemma SummarizeAllSameMembers(g1: seq<DayGroup>, g2: seq<DayGroup>)
    requires forall x :: x in g1 <==> x in g2
    ensures forall y :: y in SummarizeAll(g1) <==> y in SummarizeAll(g2)
  {
    ImagesSameMembers(Summarize, g1, g2, SummarizeAll(g1), SummarizeAll(g2));
    ImagesSameMembers(Summarize, g2, g1, SummarizeAll(g2), SummarizeAll(g1));
  }

  /**
   * The order in which the map hands out its groups does not matter: any
   * reordering of the groups yields the same sorted summaries.
   */
  lemma DailyAveragesIgnoreGroupOrder(g1: seq<DayGroup>, g2: seq<DayGroup>)
    requires DistinctDays(g1) && DistinctDays(g2)
    requires forall x :: x in g1 <==> x in g2
    ensures CalculateDailyAverages(g1) == CalculateDailyAverages(g2)
  {
    SummarizeAllSameMembers(g1, g2);
    SortedByDateUnique(CalculateDailyAverages(g1), CalculateDailyAverages(g2));
  }

  /** The dates of the summaries, in list order. */
  function Dates(r: seq<DailyGenerationResponse>): (dates: seq<Day>)
    ensures |dates| == |r| && forall i :: 0 <= i < |r| ==> dates[i] == r[i].date
  {
    seq(|r|, i requires 0 <= i < |r| => r[i].date)
  }

  /**
   * What the three-day averages promise about `samples`: one summary per day
   * some sample starts on, in ascending day order, each holding the average
   * mix of exactly that day's samples and its clean-energy share.
   */
  predicate ReportsDays(samples: seq<GenerationEntry>, r: seq<DailyGenerationResponse>)
  {
    && StrictlySortedByDate(r)
    && (forall k :: 0 <= k < |samples| ==> DayOf(samples[k].from) in Dates(r))
    && (forall i :: 0 <= i < |r| ==>
          && OnDay(samples, r[i].date) != []
          && r[i].energyMix == CalculateAverageMix(OnDay(samples, r[i].date))
          && r[i].cleanEnergyPerc == CalculateCleanEnergy(r[i].energyMix))
  }

  lemma DailyAveragesReportDays(samples: seq<GenerationEntry>)
    ensures ReportsDays(samples, CalculateDailyAverages(GroupEntriesByDate(samples)))
  {
    var g := GroupEntriesByDate(samples);
    var r := CalculateDailyAverages(g);
    forall i | 0 <= i < |r|
      ensures OnDay(samples, r[i].date) != []
      ensures r[i].energyMix == CalculateAverageMix(OnDay(samples, r[i].date))
      ensures r[i].cleanEnergyPerc == CalculateCleanEnergy(r[i].energyMix)
    {
      SummaryOfGroup(samples, g, r, i);
    }
    forall k | 0 <= k < |samples|
      ensures DayOf(samples[k].from) in Dates(r)
    {
      SampleDayReported(samples, g, r, k);
    }
  }

  /** A summary of some group summarises its day's samples. */
  lemma SummaryOfGroup(samples: seq<GenerationEntry>, g: seq<DayGroup>, r: seq<DailyGenerationResponse>, i: nat)
    requires HoldsOwnDays(samples, g)
    requires forall y :: y in r <==> y in SummarizeAll(g)
    requires i < |r|
    ensures OnDay(samples, r[i].date) != []
    ensures r[i].energyMix == CalculateAverageMix(OnDay(samples, r[i].date))
    ensures r[i].cleanEnergyPerc == CalculateCleanEnergy(r[i].energyMix)
  {
    var summaries := SummarizeAll(g);
    assert r[i] in summaries;
    var j :| 0 <= j < |summaries| && summaries[j] == r[i];
    assert r[i] == Summarize(g[j]);
    assert g[j].entries == OnDay(samples, g[j].day);
  }

  /** The day of every sample has a summary. */
  lemma SampleDayReported(samples: seq<GenerationEntry>, g: seq<DayGroup>, r: seq<DailyGenerationResponse>, k: nat)
    requires CoversDays(samples, g)
    requires forall y :: y in r <==> y in SummarizeAll(g)
    requires k < |samples|
    ensures DayOf(samples[k].from) in Dates(r)
  {
    var summaries := SummarizeAll(g);
    assert DayOf(samples[k].from) in Days(g);
    var j :| 0 <= j < |g| && Days(g)[j] == DayOf(samples[k].from);
    assert summaries[j] in r;
    var i :| 0 <= i < |r| && r[i] == summaries[j];
    assert Dates(r)[i] == DayOf(samples[k].from);
  }

  /** The three-day averages are fully determined by the samples. */
  lemma {:induction false} ReportsDaysUnique(samples: seq<GenerationEntry>, r1: seq<DailyGenerationResponse>, r2: seq<DailyGenerationResponse>)
    requires ReportsDays(samples, r1) && ReportsDays(samples, r2)
    ensures r1 == r2
  {
    forall y | y in r1
      ensures y in r2
    {
      ReportedIn(samples, r1, r2, y);
    }
    forall y | y in r2
      ensures y in r1
    {
      ReportedIn(samples, r2, r1, y);
    }
    SortedByDateUnique(r1, r2);
  }

  lemma ReportedIn(samples: seq<GenerationEntry>, r1: seq<DailyGenerationResponse>, r2: seq<DailyGenerationResponse>, y: DailyGenerationResponse)
    requires ReportsDays(samples, r1) && ReportsDays(samples, r2)
    requires y in r1
    ensures y in r2
  {
    var i :| 0 <= i < |r1| && r1[i] == y;
    var day := OnDay(samples, y.date);
    OnDayMembers(samples, y.date);
    assert day[0] in day;
    var k :| 0 <= k < |samples| && samples[k] == day[0];
    assert DayOf(samples[k].from) == y.date;
    var j :| 0 <= j < |r2| && Dates(r2)[j] == y.date;
    assert r2[j] == y;
  }

  /**
   * `getThreeDaysAverage`: fetch from today for three days, group by day and
   * summarise; fetch errors propagate unchanged.
   */
  function GetThreeDaysAverage(bounds: DayBounds, reply: ProviderReply): (r: Result<seq<DailyGenerationResponse>>)
    ensures FetchGenerationData(bounds, 0, 3, reply).Failure? ==>
              r == Failure(FetchGenerationData(bounds, 0, 3, reply).error)
    ensures FetchGenerationData(bounds, 0, 3, reply).Success? ==>
              r.Success? && ReportsDays(FetchGenerationData(bounds, 0, 3, reply).value, r.value)
  {
    match FetchGenerationData(bounds, 0, 3, reply)
    case Failure(err) => Failure(err)
    case Success(samples) =>
      DailyAveragesReportDays(samples);
      Success(CalculateDailyAverages(GroupEntriesByDate(samples)))
  }
}
