/** The fare breakdown of the booking page
    (client/src/components/FareBreakdownModal.tsx), in whole rupees: the seat
    fares, a flat platform fee, and 18% GST rounded to the nearest rupee. */
module FareBreakdown {

  const PlatformFee: int := 40

  datatype Breakdown = Breakdown(seatsCount: nat, baseFareTotal: int, platformFee: int,
                                 subtotal: int, gstAmount: int, grandTotal: int)

  /** `seatPrices.reduce((sum, price) => sum + price, 0)` */
  function Sum(prices: seq<int>): int {
    if prices == [] then 0 else Sum(prices[..|prices| - 1]) + prices[|prices| - 1]
  }

  /** `Math.round(x * 0.18)` on whole rupees: halves round up. */
  function Gst(subtotal: int): (g: int)
    ensures 100 * g - 50 <= 18 * subtotal < 100 * g + 50
  {
    (18 * subtotal + 50) / 100
  }

  /** `calculateFareBreakdown` */
  function Calculate(prices: seq<int>): (b: Breakdown)
    ensures b.seatsCount == |prices| && b.baseFareTotal == Sum(prices)
    ensures b.platformFee == PlatformFee && b.subtotal == b.baseFareTotal + PlatformFee
    ensures 100 * b.gstAmount - 50 <= 18 * b.subtotal < 100 * b.gstAmount + 50
    ensures b.grandTotal == b.subtotal + b.gstAmount
  {
    var base := Sum(prices);
    var subtotal := base + PlatformFee;
    var gst := Gst(subtotal);
    Breakdown(|prices|, base, PlatformFee, subtotal, gst, subtotal + gst)
  }

  /** `calculateFareFromBasePrice(p, n)`: n seats at the same fare. */
  function FromBasePrice(basePrice: int, seatsCount: nat): Breakdown {
    Calculate(seq(seatsCount, _ => basePrice))
  }

  lemma {:induction false} SumNonNegative(prices: seq<int>)
    requires forall i :: 0 <= i < |prices| ==> prices[i] >= 0
    ensures Sum(prices) >= 0
  {
    if prices != [] {
      SumNonNegative(prices[..|prices| - 1]);
    }
  }

  /** With fares that are not negative the GST is not negative, so the
      total is at least the subtotal, which is at least the fares. */
  lemma TotalsOrdered(prices: seq<int>)
    requires forall i :: 0 <= i < |prices| ==> prices[i] >= 0
    ensures var b := Calculate(prices);
            0 <= b.baseFareTotal <= b.subtotal <= b.grandTotal
  {
    SumNonNegative(prices);
  }

  /** No seats still cost the platform fee and its tax: 0, 40, 7, 47. */
  lemma EmptySelection()
    ensures Calculate([]) == Breakdown(0, 0, 40, 40, 7, 47)
  {
  }

  /** A single 500-rupee seat: 540 before tax, 97 tax (97.2 rounded down),
      637 in all. */
  lemma OneStandardSeat()
    ensures Calculate([500]) == Breakdown(1, 500, 40, 540, 97, 637)
  {
    assert [500][..0] == [];
  }

  /** n seats at the same fare cost n times that fare before fee and tax. */
  lemma {:induction false} FromBasePriceTotal(basePrice: int, seatsCount: nat)
    ensures FromBasePrice(basePrice, seatsCount).baseFareTotal == seatsCount * basePrice
    ensures FromBasePrice(basePrice, seatsCount).seatsCount == seatsCount
  {
    if seatsCount > 0 {
      FromBasePriceTotal(basePrice, seatsCount - 1);
      var s := seq(seatsCount, _ => basePrice);
      assert s[..seatsCount - 1] == seq(seatsCount - 1, _ => basePrice);
    }
  }
}
