/** The refund preview of the trip-details page
    (client/src/pages/trip-details.tsx): the client computes, before asking
    the server to cancel, what the server would refund. It is its own copy of
    the tiers, so it is written out here on its own and then shown to agree
    with the server's. */
module TripDetails {
  import opened Common
  import opened RefundPolicy

  /** What the page knows when the cancel button is pressed: the booking's
      total and the show's departure, either possibly not loaded yet. */
  datatype PageData = PageData(bookingTotal: Option<real>, departure: Option<int>)

  /** `handleCancelClick`: nothing while the booking or the show is missing;
      otherwise the tier ladder with a fee of 50. */
  function RefundPreview(page: PageData, now: int): (r: Option<RefundQuote>)
    ensures r.None? <==> page.bookingTotal.None? || page.departure.None?
  {
    if page.bookingTotal.None? || page.departure.None? then None
    else
      var hours := (page.departure.value - now) as real / (1000 * 60 * 60) as real;
      var total := page.bookingTotal.value;
      var fee := 50.0;
      if hours < 2.0 then Some(RefundQuote(0.0, "Non-refundable (less than 2 hours before departure)"))
      else if hours < 24.0 then
        Some(RefundQuote(if total * 0.5 - fee > 0.0 then total * 0.5 - fee else 0.0,
                         "Partial refund (less than 24 hours before departure)"))
      else
        Some(RefundQuote(if total - fee > 0.0 then total - fee else 0.0,
                         "Full refund (more than 24 hours before departure)"))
  }

  /** The preview is what the cancel endpoint refunds for the same total at
      the same moment: same fee, same thresholds, same reasons. */
  lemma PreviewMatchesServer(total: real, departure: int, now: int)
    ensures RefundPreview(PageData(Some(total), Some(departure)), now)
            == Some(Quote(total, HoursUntilDeparture(departure, now)))
  {
  }

  /** For a non-negative total the previewed amount lies between 0 and the
      total, and pressing cancel later never previews more. */
  lemma PreviewBounds(total: real, departure: int, now: int, later: int)
    requires total >= 0.0 && now <= later
    ensures var q := RefundPreview(PageData(Some(total), Some(departure)), now).value;
            0.0 <= q.amount <= total
    ensures RefundPreview(PageData(Some(total), Some(departure)), later).value.amount
            <= RefundPreview(PageData(Some(total), Some(departure)), now).value.amount
  {
    PreviewMatchesServer(total, departure, now);
    PreviewMatchesServer(total, departure, later);
    var h1 := HoursUntilDeparture(departure, later);
    var h2 := HoursUntilDeparture(departure, now);
    assert h1 <= h2 by {
      assert (departure - later) as real <= (departure - now) as real;
    }
    QuoteMonotone(total, h1, h2);
  }
}
