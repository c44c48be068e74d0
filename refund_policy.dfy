/** The cancellation refund tiers of POST /api/bookings/:id/cancel: nothing
    under two hours before departure, half the fare less a fee under a day,
    the whole fare less the fee otherwise. */
module RefundPolicy {

  const CancellationFee: real := 50.0
  const MsPerHour: int := 3600000

  const NonRefundableReason: string := "Non-refundable (less than 2 hours before departure)"
  const PartialRefundReason: string := "Partial refund (less than 24 hours before departure)"
  const FullRefundReason: string := "Full refund (more than 24 hours before departure)"

  datatype Tier = NonRefundable | Partial | Full

  datatype RefundQuote = RefundQuote(amount: real, reason: string)

  /** `(departureTime - now) / (1000 * 60 * 60)` on millisecond timestamps. */
  function HoursUntilDeparture(departure: int, now: int): real {
    (departure - now) as real / MsPerHour as real
  }

  function TierOf(hours: real): Tier {
    if hours < 2.0 then NonRefundable else if hours < 24.0 then Partial else Full
  }

  function Max0(x: real): (r: real)
    ensures r >= 0.0 && r >= x && (r == 0.0 || r == x)
  {
    if x > 0.0 then x else 0.0
  }

  /** The refund and its reason for a booking of `total` cancelled `hours`
      before departure. */
  function Quote(total: real, hours: real): (q: RefundQuote)
    ensures q.amount >= 0.0
    ensures total >= 0.0 ==> q.amount <= total
    ensures q.amount <= Max0(total - CancellationFee)
    ensures q.reason == ReasonOf(TierOf(hours))
  {
    match TierOf(hours)
    case NonRefundable => RefundQuote(0.0, NonRefundableReason)
    case Partial => RefundQuote(Max0(total * 0.5 - CancellationFee), PartialRefundReason)
    case Full => RefundQuote(Max0(total - CancellationFee), FullRefundReason)
  }

  function ReasonOf(t: Tier): string {
    match t
    case NonRefundable => NonRefundableReason
    case Partial => PartialRefundReason
    case Full => FullRefundReason
  }

  /** The three tiers, stated on the hours before departure. */
  lemma QuoteTiers(total: real, hours: real)
    ensures hours < 2.0 ==> Quote(total, hours).amount == 0.0
    ensures 2.0 <= hours < 24.0 ==>
              Quote(total, hours).amount == (if total * 0.5 > CancellationFee then total * 0.5 - CancellationFee else 0.0)
    ensures 24.0 <= hours ==>
              Quote(total, hours).amount == (if total > CancellationFee then total - CancellationFee else 0.0)
  {
  }

  /** Exactly two hours and exactly one day fall in the more generous tier. */
  lemma QuoteBoundaries(total: real)
    ensures Quote(total, 2.0).reason == PartialRefundReason
    ensures Quote(total, 24.0).reason == FullRefundReason
  {
  }

  /** A 1000 fare: one hour out refunds 0, ten hours 450, two days 950. */
  lemma QuoteExamples()
    ensures Quote(1000.0, 1.0).amount == 0.0
    ensures Quote(1000.0, 10.0).amount == 450.0
    ensures Quote(1000.0, 48.0).amount == 950.0
  {
  }

  /** Cancelling earlier never refunds less. */
  lemma QuoteMonotone(total: real, h1: real, h2: real)
    requires total >= 0.0 && h1 <= h2
    ensures Quote(total, h1).amount <= Quote(total, h2).amount
  {
  }

  /** On millisecond timestamps the tier thresholds are whole numbers of
      milliseconds: under 2 h means fewer than 7200000 ms to go. */
  lemma TierOnMilliseconds(departure: int, now: int)
    ensures TierOf(HoursUntilDeparture(departure, now)) ==
            if departure - now < 2 * MsPerHour then NonRefundable
            else if departure - now < 24 * MsPerHour then Partial
            else Full
  {
    var d := departure - now;
    var h := HoursUntilDeparture(departure, now);
    assert h * MsPerHour as real == d as real;
  }
}
