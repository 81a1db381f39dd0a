# Generation service: a verified model

This project models the core of a small Spring service built on the Carbon
Intensity forecast of the British electricity mix. The provider reports
half-hour samples. Each sample has a `from` and `to` instant and a generation
mix, a list of `(fuel, perc)` pairs. From these samples the service computes
two things:

- **Three-day averages** (`getThreeDaysAverage`). It fetches today and the
  next days, groups the samples by the UTC day of their `from`, and averages
  each fuel over the pairs that name it. It adds the averages of the clean
  fuels (biomass, nuclear, hydro, wind, solar) into a clean-energy share, and
  lists the days in ascending order.
- **The optimal charging window** (`findOptimalChargingWindow`). It checks
  that the requested length lies between 1 and 6 hours, then fetches from
  tomorrow on. It slides a window of `2 * hours` consecutive samples over the
  result and reports the first window whose average per-sample clean share is
  highest.

Both operations go through `fetchGenerationData`. It derives the requested
range from the clock's day bounds and calls the provider. It turns a
transport failure or a missing payload into the service's errors, and keeps
only the samples that lie inside the range.

Modules:

- `Generation` (`generation.dfy`): the data model. It holds instants as
  minutes, the UTC day of an instant, `plusDays`, the response records, the
  three errors with their messages, and `Result`.
- `EnergySource` (`energy_source.dfy`): the enum of clean fuels, and the
  `anyMatch` test against it.
- `DataSource` (`data_source.dfy`): the fetch range, the provider reply, the
  range filter, and `fetchGenerationData`.
- `DailyAggregator` (`daily_aggregator.dfy`): grouping by day, per-fuel
  averaging, the clean-energy sum, sorting by day, and `getThreeDaysAverage`.
- `WindowFinder` (`window_finder.dfy`): `cleanEnergyStream`, window scores,
  and the scan loop as a method with loop invariants. Around it are the
  brute-force maximum it is checked against, and `findOptimalChargingWindow`.

The clock and the provider are inputs. The clock's start and end of the
current day are a `DayBounds` value. The provider's answer is a
`ProviderReply`: either a transport failure or a payload that may be absent.

## Model

| member | source | states |
|---|---|---|
| Generation.DayOf | src/main/java/org/codibly/service/GenerationService.java:93 | the day key of an instant is the whole number of days since the epoch that contains it |
| Generation.PlusDays | src/main/java/org/codibly/service/GenerationService.java:62-63 | `plusDays(n)` moves the day by exactly `n` and keeps the time of day |
| EnergySource.CleanFuelsMatchEnum | src/main/java/org/codibly/model/EnergySource.java:4-18 | a fuel name matches some enum constant (`anyMatch` over `values()`) exactly when it is in the clean set {biomass, nuclear, hydro, wind, solar} |
| DataSource.FetchRange | src/main/java/org/codibly/service/GenerationService.java:62-63 | the range starts `startDayOffset` days after the start of today and ends `startDayOffset + numberOfDays` days after the end of today, each at the same time of day |
| DataSource.FilterInRange | src/main/java/org/codibly/service/GenerationService.java:73-76 | the kept samples are an order-preserving subsequence of the payload; a sample is kept (with its multiplicity) exactly when it starts no earlier than the range start and ends no later than the range end |
| DataSource.FetchGenerationData | src/main/java/org/codibly/service/GenerationService.java:61-83 | a transport failure gives the connection error, an absent payload the no-data error, each with its message; success exactly when a payload arrived, and then the result is an order-preserving subsequence of the payload holding every in-range sample as many times as the payload does and no other sample |
| DailyAggregator.OnDayMembers | src/main/java/org/codibly/service/GenerationService.java:91-94 | a day's sample list holds exactly the samples whose `from` falls on that day |
| DailyAggregator.AddToGroup | src/main/java/org/codibly/service/GenerationService.java:92-93 | one `groupingBy` step: the sample is appended to its day's list if the day has one; otherwise a new one-sample group is added at the end; other groups are unchanged |
| DailyAggregator.AddToGroupDistinct | src/main/java/org/codibly/service/GenerationService.java:92-93 | after a step there is still at most one group per day |
| DailyAggregator.GroupEntriesByDate | src/main/java/org/codibly/service/GenerationService.java:91-94 | one group per distinct day; each group holds exactly that day's samples in input order and is non-empty; every sample's day has a group |
| DailyAggregator.AddToGroupCount | src/main/java/org/codibly/service/GenerationService.java:92-93 | each step adds exactly one sample to the groups |
| DailyAggregator.GroupingIsPartition | src/main/java/org/codibly/service/GenerationService.java:91-94 | the groups hold as many samples as the input, and a sample lies in a group exactly when the group's day is the sample's day, so it lies in exactly one |
| DailyAggregator.FuelCountPositive | src/main/java/org/codibly/service/GenerationService.java:125-130 | a fuel has a non-zero number of pairs exactly when some pair of the day names it |
| DailyAggregator.Accumulate | src/main/java/org/codibly/service/GenerationService.java:127-130 | the running tallies of `averagingDouble` have one key per fuel named in the pairs, holding that fuel's total percentage and its number of pairs |
| DailyAggregator.CalculateAverageMix | src/main/java/org/codibly/service/GenerationService.java:124-131 | the average mix has a key exactly for each fuel some pair names; its value is the fuel's total percentage over the number of pairs naming it, not over the number of samples |
| DailyAggregator.MeanBounds | src/main/java/org/codibly/service/GenerationService.java:129 | the mean of a fuel's percentages lies between any lower and upper bound of those percentages |
| DailyAggregator.AverageWithinBounds | src/main/java/org/codibly/service/GenerationService.java:124-131 | every per-fuel average lies between the smallest and the largest percentage reported for that fuel on that day |
| DailyAggregator.CalculateCleanEnergy | src/main/java/org/codibly/service/GenerationService.java:140-146 | the clean share is 0 when no clean fuel is in the mix; with non-negative averages it is non-negative and at least every clean fuel's average |
| DailyAggregator.CleanEnergyIgnoresOtherFuels | src/main/java/org/codibly/service/GenerationService.java:140-146 | only the entries of clean fuels affect the clean share; mixes that agree on the clean fuels have the same share |
| DailyAggregator.CleanEnergyAddFuel | src/main/java/org/codibly/service/GenerationService.java:140-146 | adding a fuel's average to the mix adds it to the clean share exactly when the fuel is clean; with the empty mix giving 0, this determines the share of every mix |
| DailyAggregator.SummarizeAll | src/main/java/org/codibly/service/GenerationService.java:107-113 | each group maps to its day, its average mix and that mix's clean share, in group order |
| DailyAggregator.InsertByDate | src/main/java/org/codibly/service/GenerationService.java:114 | inserting a summary of a new day into a date-sorted list keeps it strictly sorted and adds exactly that summary |
| DailyAggregator.SortByDate | src/main/java/org/codibly/service/GenerationService.java:114 | the result is strictly sorted by day and has exactly the members and length of the input |
| DailyAggregator.CalculateDailyAverages | src/main/java/org/codibly/service/GenerationService.java:106-116 | one summary per group, strictly ascending by day, and the summaries are exactly those of the groups |
| DailyAggregator.SortedByDateUnique | src/main/java/org/codibly/service/GenerationService.java:114 | two date-sorted lists with the same summaries are equal |
| DailyAggregator.DailyAveragesIgnoreGroupOrder | src/main/java/org/codibly/service/GenerationService.java:106-116 | the result does not depend on the order in which the map hands out its groups |
| DailyAggregator.DailyAveragesReportDays | src/main/java/org/codibly/service/GenerationService.java:46-51 | the averages of grouped samples list days in strictly ascending order; every sample's day appears; each listed day has samples and carries the average mix of exactly those samples and its clean share |
| DailyAggregator.ReportsDaysUnique | src/main/java/org/codibly/service/GenerationService.java:46-51 | the three-day report is determined by the samples alone: two reports of the same samples are equal |
| DailyAggregator.GetThreeDaysAverage | src/main/java/org/codibly/service/GenerationService.java:46-51 | fetches today plus three days; a fetch error propagates unchanged, otherwise the result reports the fetched samples day by day as above |
| WindowFinder.CleanMixes | src/main/java/org/codibly/service/GenerationService.java:206-208 | the kept pairs are an order-preserving subsequence holding every pair whose fuel is clean, with its multiplicity, and no other |
| WindowFinder.CleanEnergyStream | src/main/java/org/codibly/service/GenerationService.java:205-209 | a sample's clean pairs are its pairs with a clean fuel, each with its multiplicity, in mix order, and no other |
| WindowFinder.ScoreAt | src/main/java/org/codibly/service/GenerationService.java:173-180 | index `j` of the score list is the average clean share of the `w` samples starting at `j` |
| WindowFinder.FindOptimalChargingWindow | src/main/java/org/codibly/service/GenerationService.java:157-196 | a length outside 1..6 hours fails with the invalid-argument error whatever the provider does; a fetch error propagates; fewer samples than `2 * hours` fail with the not-enough-data error; otherwise the response spans `2 * hours` in-bounds samples from the scan's index, with `from` of the first and `to` of the last, and carries the scan's average |
| WindowFinder.ScanWindows | src/main/java/org/codibly/service/GenerationService.java:170-186 | the loop returns the earliest start index with the highest score and that score; if no window scores above the initial -1, it returns index 0 and -1 |
| WindowFinder.ScanConclusion | src/main/java/org/codibly/service/GenerationService.java:173-186 | the loop invariants at exit give the scan result |
| WindowFinder.MaxScoreIsMax | src/main/java/org/codibly/service/GenerationService.java:173-186 | the brute-force maximum is at least every score and is reached by some score |
| WindowFinder.ScanFindsMaximum | src/main/java/org/codibly/service/GenerationService.java:170-186 | when some window beats -1, the reported average equals the brute-force maximum over all windows |
| WindowFinder.ScanResultUnique | src/main/java/org/codibly/service/GenerationService.java:182-185 | the strict `>` makes the scan result unique: one start index and one average |
| WindowFinder.ReportsWindowUnique | src/main/java/org/codibly/service/GenerationService.java:157-196 | the same samples always yield the same window response |
| WindowFinder.CleanTotalNonNegative | src/main/java/org/codibly/service/GenerationService.java:175-178 | with non-negative percentages the total clean share of a run of samples is non-negative |
| WindowFinder.NonNegativeScanIsMaximum | src/main/java/org/codibly/service/GenerationService.java:170-186 | with non-negative percentages the -1 start value never survives: the reported index is the earliest with the highest score, and the average is that score, equals the brute-force maximum and is at least 0 |

## Left out

- The HTTP layer (`GenerationController`, `GenerationProviderExceptionHandler`, `ErrorResponse`): routing and status codes, not computation.
- The Feign client and its configuration (`CarbonIntensityClient`, `FeignConfig`): the provider's reply is an input (`ProviderReply`); the request strings formatted with `API_FORMATTER` are not modelled.
- `Main`: application bootstrap.
- `TimeProvider` and `SystemTimeProvider`: the clock is the `DayBounds` input. `SystemTimeProvider` defines only `get()` and not the `getStartOfDay`/`getEndOfDay` the service calls, so the model assumes a provider that supplies both.
- Instants are whole minutes since the epoch in UTC. Sub-minute precision, such as an end of day at 23:59:59.999, is not represented.
- The `yyyy-MM-dd` day string is the day number. Both sort the same way, so `Comparator.comparing(date)` is modelled by comparing day numbers.
- Percentages and averages are exact `real` numbers. IEEE double rounding is not modelled, and neither is the order in which the Java streams add values.
- `Collectors.groupingBy` returns a `HashMap`. Its groups are modelled in the order of each day's first sample. `DailyAggregator.DailyAveragesIgnoreGroupOrder` shows that this order does not affect the result.
- A payload whose sample list is itself null, and samples with null fields, are not modelled: the payload is either absent or a list of samples.
- The connection error does not carry the `RestClientException` it wraps as its cause; the cause only serves diagnostics, so `ProviderConnection` holds the message alone.
- Only `RestClientException` is modelled as a transport failure. Other runtime exceptions from the client are not modelled.
- The Java window scan starts `maxAverage` at -1. The model keeps this as written: if every window scored at most -1, the response would be window 0 with average -1. Clean shares are non-negative in practice. `WindowFinder.NonNegativeScanIsMaximum` shows that the -1 then never survives.
