/**
 * The data model of the generation service: time-sliced generation-mix
 * samples as the Carbon Intensity provider reports them, the per-day and
 * charging-window results the service computes from them, and the service's
 * error taxonomy.
 *
 * Instants are whole minutes since the Unix epoch in UTC; a calendar day is
 * the number of whole days since the epoch (the `yyyy-MM-dd` key the service
 * formats, which sorts the same way).
 */
module Generation {

  type Instant = int
  type Day = int

  const MinutesPerDay: int := 1440

  /** The UTC calendar day an instant falls on (floor division). */
  function DayOf(t: Instant): (d: Day)
    ensures d * MinutesPerDay <= t < (d + 1) * MinutesPerDay
  {
    t / MinutesPerDay
  }

  /** A `ZonedDateTime.plusDays` in UTC: whole days of minutes added. */
  function PlusDays(t: Instant, days: int): (r: Instant)
    ensures DayOf(r) == DayOf(t) + days
    ensures r - DayOf(r) * MinutesPerDay == t - DayOf(t) * MinutesPerDay
  {
    t + days * MinutesPerDay
  }

  /** One `(fuel, perc)` pair of a sample's generation mix. */
  datatype FuelMix = FuelMix(fuel: string, perc: real)

  /** One sample: the interval [from, to) and its generation mix. */
  datatype GenerationEntry = GenerationEntry(from: Instant, to: Instant, generationmix: seq<FuelMix>)

  /** One day's averaged mix and its clean-energy share. */
  datatype DailyGenerationResponse = DailyGenerationResponse(date: Day, energyMix: map<string, real>, cleanEnergyPerc: real)

  /** The best charging window: `from` of its first sample, `to` of its last. */
  datatype OptimalChargingWindowResponse = OptimalChargingWindowResponse(start: Instant, end: Instant, averageCleanEnergyPercentage: real)

  /** The start and end of the current UTC day, as the clock reports them. */
  datatype DayBounds = DayBounds(startOfDay: Instant, endOfDay: Instant)

  datatype Option<T> = None | Some(value: T)

  /** The three exceptions the service raises, with their messages. */
  datatype Error =
    | IllegalArgument(message: string)
    | NoGenerationFound(message: string)
    | ProviderConnection(message: string)

  datatype Result<T> = Success(value: T) | Failure(error: Error)

  const InvalidWindowMessage: string := "Charging window length must be between 1 and 6 hours"
  const NoDataMessage: string := "No generation data found for the requested period."
  const NotEnoughDataMessage: string := "Not enough data to calculate the optimal window"
  const ConnectionMessage: string := "Failed to fetch data from CarbonIntensity API"
}
