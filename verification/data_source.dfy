/**
 * Fetching generation data: the requested range is computed from the clock's
 * day bounds, the provider's reply is translated into the service's errors,
 * and the samples are filtered to those lying inside the range.
 *
 * The provider itself (an HTTP client) is not modelled: its reply is an input,
 * either a transport failure or a payload that may be absent.
 */
module DataSource {
  import opened Generation

  /** What the provider client does when asked for a range. */
  datatype ProviderReply =
    | TransportFailure                                 // it throws a RestClientException
    | Payload(body: Option<seq<GenerationEntry>>)      // it returns, possibly null

  /** The closed range of instants requested from the provider. */
  datatype Range = Range(start: Instant, end: Instant)

  /**
   * The requested range: the start of today moved `startDayOffset` days,
   * the end of today moved `startDayOffset + numberOfDays` days.
   */
  function FetchRange(bounds: DayBounds, startDayOffset: int, numberOfDays: int): (r: Range)
    ensures DayOf(r.start) == DayOf(bounds.startOfDay) + startDayOffset
    ensures DayOf(r.end) == DayOf(bounds.endOfDay) + startDayOffset + numberOfDays
    ensures r.start - DayOf(r.start) * MinutesPerDay == bounds.startOfDay - DayOf(bounds.startOfDay) * MinutesPerDay
    ensures r.end - DayOf(r.end) * MinutesPerDay == bounds.endOfDay - DayOf(bounds.endOfDay) * MinutesPerDay
  {
    Range(PlusDays(bounds.startOfDay, startDayOffset), PlusDays(bounds.endOfDay, startDayOffset + numberOfDays))
  }

  /** A sample is kept when it neither starts before the range nor ends after it. */
  predicate InRange(e: GenerationEntry, r: Range)
  {
    !(e.from < r.start) && !(e.to > r.end)
  }

  /** `a` is `b` with some elements removed, the rest in their original order. */
  ghost predicate IsSubsequence<T>(a: seq<T>, b: seq<T>)
    decreases |b|
  {
    if a == [] then true
    else if b == [] then false
    else (a[0] == b[0] && IsSubsequence(a[1..], b[1..])) || IsSubsequence(a, b[1..])
  }

  /** The two stream filters of the fetch, applied in provider order. */
  function FilterInRange(data: seq<GenerationEntry>, r: Range): (kept: seq<GenerationEntry>)
    ensures IsSubsequence(kept, data)
    ensures forall e :: multiset(kept)[e] == if InRange(e, r) then multiset(data)[e] else 0
    ensures forall e :: e in kept <==> e in data && InRange(e, r)
    decreases |data|
  {
    if data == [] then []
    else
      var rest := FilterInRange(data[1..], r);
      assert data == [data[0]] + data[1..];
      if InRange(data[0], r) then [data[0]] + rest else rest
  }

  /**
   * `fetchGenerationData`: a transport failure becomes a connection error, an
   * absent payload the no-data error, and a payload its in-range samples.
   */
  function FetchGenerationData(bounds: DayBounds, startDayOffset: int, numberOfDays: int, reply: ProviderReply)
    : (r: Result<seq<GenerationEntry>>)
    ensures r.Success? <==> reply.Payload? && reply.body.Some?
    ensures reply.TransportFailure? ==> r == Failure(ProviderConnection(ConnectionMessage))
    ensures reply == Payload(None) ==> r == Failure(NoGenerationFound(NoDataMessage))
    ensures r.Success? ==> IsSubsequence(r.value, reply.body.value)
    ensures r.Success? ==> forall e ::
              multiset(r.value)[e] ==
              if InRange(e, FetchRange(bounds, startDayOffset, numberOfDays)) then multiset(reply.body.value)[e] else 0
    ensures r.Success? ==> forall e :: e in r.value <==>
              e in reply.body.value && InRange(e, FetchRange(bounds, startDayOffset, numberOfDays))
  {
    match reply
    case TransportFailure => Failure(ProviderConnection(ConnectionMessage))
    case Payload(None) => Failure(NoGenerationFound(NoDataMessage))
    case Payload(Some(data)) => Success(FilterInRange(data, FetchRange(bounds, startDayOffset, numberOfDays)))
  }
}
