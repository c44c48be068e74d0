/** The seat plan every new show is created with (POST /api/admin/shows in
    server/routes.ts): a lower deck of ten rows of three seats, taken from
    columns A, B and D of a four-wide row with the two front rows reserved for
    ladies, and an upper deck of ten rows of three sleepers. */
module SeatLayout {
  import opened Text
  import opened Decimal
  import opened Tables

  const Rows: nat := 10
  const PlanSize: nat := 60

  /** A seat row before the store gives it an id and a show. */
  datatype SeatSpec = SeatSpec(seatNumber: string, deck: string, row: int, col: int,
                               kind: string, price: real, features: seq<string>)

  /** `String.fromCharCode(64 + c)`: column 1 is 'A'. */
  function ColumnLetter(c: nat): (ch: char)
    requires 1 <= c <= 26
    ensures 'A' <= ch <= 'Z' && ch as int == 64 + c
  {
    (64 + c) as char
  }

  /** `${deck}${r}${letter}`, such as "L10D" or "U3A". */
  function Label(deck: char, r: nat, c: nat): string
    requires 1 <= c <= 26
  {
    [deck] + NatToString(r) + [ColumnLetter(c)]
  }

  function LowerSeat(r: nat, c: nat): SeatSpec
    requires 1 <= c <= 4
  {
    var ladies := r < 3;
    SeatSpec(Label('L', r, c), "lower", r, if c > 2 then c - 1 else c,
             if ladies then "ladies" else "standard", if ladies then 550.0 else 500.0,
             if ladies then ["Ladies Only"] else [])
  }

  function UpperSeat(r: nat, c: nat): SeatSpec
    requires 1 <= c <= 3
  {
    SeatSpec(Label('U', r, c), "upper", r, c, "sleeper", 800.0, ["Power Outlet", "Reading Light"])
  }

  /** The lower deck's k-th seat of a row sits in column 1, 2 or 4. */
  function LowerColumn(k: nat): (c: nat)
    requires k < 3
    ensures 1 <= c <= 4 && c != 3
  {
    if k < 2 then k + 1 else 4
  }

  /** The i-th seat of the plan in closed form: the lower deck row by row, then
      the upper deck row by row. */
  function PlanSeat(i: nat): SeatSpec
    requires i < PlanSize
  {
    if i < 30 then LowerSeat(i / 3 + 1, LowerColumn(i % 3)) else UpperSeat((i - 30) / 3 + 1, (i - 30) % 3 + 1)
  }

  lemma Position(q: nat, k: nat)
    requires k < 3
    ensures (3 * q + k) / 3 == q && (3 * q + k) % 3 == k
  {
  }

  /** `plan` is the first |plan| seats of the closed-form plan. */
  predicate PlanPrefix(plan: seq<SeatSpec>) {
    |plan| <= PlanSize && forall i :: 0 <= i < |plan| ==> plan[i] == PlanSeat(i)
  }

  lemma PlanPrefixSnoc(plan: seq<SeatSpec>, x: SeatSpec)
    requires PlanPrefix(plan) && |plan| < PlanSize && x == PlanSeat(|plan|)
    ensures PlanPrefix(plan + [x])
  {
  }

  /** The nested loops of the handler build exactly the closed-form plan. */
  method BuildPlan() returns (plan: seq<SeatSpec>)
    ensures |plan| == PlanSize
    ensures forall i :: 0 <= i < PlanSize ==> plan[i] == PlanSeat(i)
  {
    plan := BuildLowerDeck();
    plan := AddUpperDeck(plan);
  }

  /** The first pair of loops: ten rows of columns 1, 2 and 4. */
  method BuildLowerDeck() returns (plan: seq<SeatSpec>)
    ensures |plan| == 30 && PlanPrefix(plan)
  {
    plan := [];
    var r := 1;
    while r <= Rows
      invariant 1 <= r <= Rows + 1
      invariant |plan| == 3 * (r - 1) && PlanPrefix(plan)
    {
      var c := 1;
      while c <= 4
        invariant 1 <= c <= 5
        invariant |plan| == 3 * (r - 1) + (if c <= 3 then c - 1 else c - 2) && PlanPrefix(plan)
      {
        if c == 3 {
          c := c + 1;
          continue;
        }
        var k := if c < 3 then c - 1 else 2;
        Position(r - 1, k);
        PlanPrefixSnoc(plan, LowerSeat(r, c));
        plan := plan + [LowerSeat(r, c)];
        c := c + 1;
      }
      r := r + 1;
    }
  }

  /** The second pair of loops: ten rows of three sleepers. */
  method AddUpperDeck(lower: seq<SeatSpec>) returns (plan: seq<SeatSpec>)
    requires |lower| == 30 && PlanPrefix(lower)
    ensures |plan| == PlanSize && PlanPrefix(plan)
  {
    plan := lower;
    var r := 1;
    while r <= Rows
      invariant 1 <= r <= Rows + 1
      invariant |plan| == 30 + 3 * (r - 1) && PlanPrefix(plan)
    {
      var c := 1;
      while c <= 3
        invariant 1 <= c <= 4
        invariant |plan| == 30 + 3 * (r - 1) + (c - 1) && PlanPrefix(plan)
      {
        Position(r - 1, c - 1);
        PlanPrefixSnoc(plan, UpperSeat(r, c));
        plan := plan + [UpperSeat(r, c)];
        c := c + 1;
      }
      r := r + 1;
    }
  }

  /** A label determines its deck letter, row and column. */
  lemma LabelInjective(d1: char, r1: nat, c1: nat, d2: char, r2: nat, c2: nat)
    requires 1 <= c1 <= 26 && 1 <= c2 <= 26
    requires Label(d1, r1, c1) == Label(d2, r2, c2)
    ensures d1 == d2 && r1 == r2 && c1 == c2
  {
    var s := Label(d1, r1, c1);
    var a := NatToString(r1);
    var b := NatToString(r2);
    assert s[0] == d1 && Label(d2, r2, c2)[0] == d2;
    assert |a| == |b|;
    assert s[1..|s| - 1] == a;
    assert Label(d2, r2, c2)[1..|s| - 1] == b;
    NatToStringInjective(r1, r2);
    assert s[|s| - 1] == ColumnLetter(c1) && Label(d2, r2, c2)[|s| - 1] == ColumnLetter(c2);
  }

  /** Every seat of the plan has its own cell: deck, row and column. */
  lemma PlanCellsDistinct(i: nat, j: nat)
    requires i < PlanSize && j < PlanSize && i != j
    ensures PlanSeat(i).deck != PlanSeat(j).deck || PlanSeat(i).row != PlanSeat(j).row
            || PlanSeat(i).col != PlanSeat(j).col
  {
  }

  /** No two seats of a show share a label, so the label the subscriptions
      are keyed by names one seat. */
  lemma PlanLabelsDistinct(i: nat, j: nat)
    requires i < PlanSize && j < PlanSize && i != j
    ensures PlanSeat(i).seatNumber != PlanSeat(j).seatNumber
  {
    if PlanSeat(i).seatNumber == PlanSeat(j).seatNumber {
      var di := if i < 30 then 'L' else 'U';
      var dj := if j < 30 then 'L' else 'U';
      var ri := if i < 30 then i / 3 + 1 else (i - 30) / 3 + 1;
      var rj := if j < 30 then j / 3 + 1 else (j - 30) / 3 + 1;
      var ci := if i < 30 then LowerColumn(i % 3) else (i - 30) % 3 + 1;
      var cj := if j < 30 then LowerColumn(j % 3) else (j - 30) % 3 + 1;
      assert PlanSeat(i).seatNumber == Label(di, ri, ci);
      assert PlanSeat(j).seatNumber == Label(dj, rj, cj);
      LabelInjective(di, ri, ci, dj, rj, cj);
      assert false;
    }
  }

  /** The ladies-only seats are the six seats of the first two lower rows;
      the lower deck sells at 550 or 500, the upper at 800. */
  lemma PlanPricing(i: nat)
    requires i < PlanSize
    ensures PlanSeat(i).kind == "ladies" <==> i < 6
    ensures PlanSeat(i).price == (if i < 6 then 550.0 else if i < 30 then 500.0 else 800.0)
    ensures PlanSeat(i).deck == (if i < 30 then "lower" else "upper")
    ensures 1 <= PlanSeat(i).row <= Rows && 1 <= PlanSeat(i).col <= 3
  {
  }

  /** `createSeats`: the row the store inserts for a plan entry. */
  function SeatRow(id: int, showId: int, spec: SeatSpec): Seat {
    Seat(id, showId, spec.seatNumber, spec.deck, spec.row, spec.col, spec.kind, spec.price, spec.features)
  }

  /** The sixty rows a show is created with, their serial ids counting up
      from `firstId` in plan order. */
  function PlanSeats(firstId: int, showId: int): (r: seq<Seat>)
    ensures |r| == PlanSize
    ensures forall k :: 0 <= k < PlanSize ==> r[k] == SeatRow(firstId + k, showId, PlanSeat(k))
  {
    seq(PlanSize, k requires 0 <= k < PlanSize => SeatRow(firstId + k, showId, PlanSeat(k)))
  }

  /** Within a created show, seat ids and seat labels are both one per seat. */
  lemma PlanSeatsDistinct(firstId: int, showId: int, i: nat, j: nat)
    requires i < PlanSize && j < PlanSize && i != j
    ensures PlanSeats(firstId, showId)[i].id != PlanSeats(firstId, showId)[j].id
    ensures PlanSeats(firstId, showId)[i].seatNumber != PlanSeats(firstId, showId)[j].seatNumber
  {
    PlanLabelsDistinct(i, j);
  }
}
