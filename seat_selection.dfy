/** The client seat maps (client/src/components/modules/SeatMapConnected.tsx,
    the live map, and client/src/components/modules/SeatMap.tsx, the mock
    map): the capped selection toggle, the grouping of a deck's seats into
    rows, and the split of a row into its two sides of the aisle. The live
    map refuses only booked seats; the mock map refuses booked and locked
    ones. */
module SeatSelection {
  import opened Common

  /** A seat as a map shows it. The live map's ids are numbers, the mock
      map's strings. */
  datatype MapSeat<Id> = MapSeat(id: Id, row: nat, col: int, deck: string, status: string)

  /** Both maps default to six seats, the cap the booking endpoint applies. */
  const DefaultMaxSeats: nat := 6

  /** The live map blocks "booked"; the mock map also blocks "locked". */
  predicate Blocked<Id>(seat: MapSeat<Id>, blocksLocked: bool) {
    seat.status == "booked" || (blocksLocked && seat.status == "locked")
  }

  /** The selection after a toggle, or None when the toggle returns early and
      reports nothing. */
  function Toggled<Id>(selected: set<Id>, seat: MapSeat<Id>, maxSeats: nat, blocksLocked: bool): (r: Option<set<Id>>)
    ensures r.None? <==> Blocked(seat, blocksLocked) || (seat.id !in selected && |selected| >= maxSeats)
    ensures r.Some? && seat.id in selected ==> r.value == selected - {seat.id}
    ensures r.Some? && seat.id !in selected ==> r.value == selected + {seat.id}
  {
    if Blocked(seat, blocksLocked) then None
    else if seat.id in selected then Some(selected - {seat.id})
    else if |selected| >= maxSeats then None
    else Some(selected + {seat.id})
  }

  /** `seats.filter(s => newSelected.has(s.id))`: what is reported. */
  function Reported<Id>(seats: seq<MapSeat<Id>>, selected: set<Id>): seq<MapSeat<Id>> {
    Filter(seats, (s: MapSeat<Id>) => s.id in selected)
  }

  /** The cap holds after every toggle, and a blocked seat never joins the
      selection. */
  lemma ToggleKeepsCap<Id>(selected: set<Id>, seat: MapSeat<Id>, maxSeats: nat, blocksLocked: bool)
    requires |selected| <= maxSeats
    ensures var r := Toggled(selected, seat, maxSeats, blocksLocked);
            r.Some? ==> |r.value| <= maxSeats && (seat.id in r.value ==> !Blocked(seat, blocksLocked))
  {
  }

  /** Toggling a free seat on and then off again restores the selection. */
  lemma ToggleTwice<Id>(selected: set<Id>, seat: MapSeat<Id>, maxSeats: nat, blocksLocked: bool)
    requires !Blocked(seat, blocksLocked) && seat.id !in selected && |selected| < maxSeats
    ensures var once := Toggled(selected, seat, maxSeats, blocksLocked);
            once.Some? && Toggled(once.value, seat, maxSeats, blocksLocked) == Some(selected)
  {
    var once := selected + {seat.id};
    assert once - {seat.id} == selected;
  }

  /** The report is the map's seats whose id is selected, in map order. */
  lemma ReportedSeats<Id>(seats: seq<MapSeat<Id>>, selected: set<Id>, s: MapSeat<Id>)
    ensures s in Reported(seats, selected) <==> s in seats && s.id in selected
  {
    FilterMembership(seats, (x: MapSeat<Id>) => x.id in selected, s);
  }

  /** The selection state of one map. */
  class Selection<Id(==)> {
    var selected: set<Id>
    const maxSeats: nat
    const blocksLocked: bool

    ghost predicate Valid()
      reads this
    {
      |selected| <= maxSeats
    }

    constructor (maxSeats: nat, blocksLocked: bool)
      ensures Valid() && selected == {} && this.maxSeats == maxSeats && this.blocksLocked == blocksLocked
    {
      selected := {};
      this.maxSeats := maxSeats;
      this.blocksLocked := blocksLocked;
    }

    /** `toggleSeat`: the selection is copied, changed and stored, and the
        selected seats of the map are reported; an early return changes and
        reports nothing. */
    method Toggle(seat: MapSeat<Id>, seats: seq<MapSeat<Id>>) returns (report: Option<seq<MapSeat<Id>>>)
      requires Valid()
      modifies this
      ensures Valid()
      ensures var r := Toggled(old(selected), seat, maxSeats, blocksLocked);
              && (r.None? ==> selected == old(selected) && report.None?)
              && (r.Some? ==> selected == r.value && report == Some(Reported(seats, selected)))
    {
      if Blocked(seat, blocksLocked) {
        return None;
      }
      var next := selected;
      if seat.id in next {
        next := next - {seat.id};
      } else {
        if |next| >= maxSeats {
          return None;
        }
        next := next + {seat.id};
      }
      selected := next;
      report := Some(Reported(seats, next));
    }
  }

  // ----------------------------------------------------------------- rows

  function RowOf<Id>(s: MapSeat<Id>): nat {
    s.row
  }

  predicate HasRow<Id>(seats: seq<MapSeat<Id>>, r: nat) {
    exists k :: 0 <= k < |seats| && seats[k].row == r
  }

  function InRow<Id>(seats: seq<MapSeat<Id>>, r: nat): seq<MapSeat<Id>> {
    Filter(seats, (s: MapSeat<Id>) => s.row == r)
  }

  /** `Object.values(rows)` after grouping: one group per row number that
      occurs, in ascending row order (row numbers are array-index keys),
      each group in input order. `RowGroups(seats, n)` covers rows below n. */
  function RowGroups<Id>(seats: seq<MapSeat<Id>>, n: nat): seq<seq<MapSeat<Id>>> {
    if n == 0 then []
    else RowGroups(seats, n - 1) + (if HasRow(seats, n - 1) then [InRow(seats, n - 1)] else [])
  }

  /** One past the largest row number. */
  function RowBound<Id>(seats: seq<MapSeat<Id>>): (n: nat)
    ensures forall k :: 0 <= k < |seats| ==> seats[k].row < n
  {
    if seats == [] then 0
    else
      var m := RowBound(seats[..|seats| - 1]);
      assert forall k :: 0 <= k < |seats| - 1 ==> seats[..|seats| - 1][k] == seats[k];
      if seats[|seats| - 1].row + 1 > m then seats[|seats| - 1].row + 1 else m
  }

  /** The per-row lists of `seats`: one entry for each row that occurs,
      holding that row's seats in input order. */
  ghost predicate RowMap<Id>(rows: map<nat, seq<MapSeat<Id>>>, seats: seq<MapSeat<Id>>) {
    && (forall r :: r in rows <==> HasRow(seats, r))
    && (forall r :: r in rows ==> rows[r] == InRow(seats, r))
  }

  /** `if (!rows[seat.row]) rows[seat.row] = []; rows[seat.row].push(seat)` */
  function AddSeat<Id>(rows: map<nat, seq<MapSeat<Id>>>, s: MapSeat<Id>): map<nat, seq<MapSeat<Id>>> {
    var start := if s.row in rows then rows[s.row] else [];
    rows[s.row := start + [s]]
  }

  lemma RowMapSnoc<Id>(rows: map<nat, seq<MapSeat<Id>>>, seats: seq<MapSeat<Id>>, s: MapSeat<Id>)
    requires RowMap(rows, seats)
    ensures RowMap(AddSeat(rows, s), seats + [s])
  {
    var t := seats + [s];
    forall r ensures InRow(t, r) == InRow(seats, r) + (if s.row == r then [s] else []) {
      FilterSnoc(seats, s, (x: MapSeat<Id>) => x.row == r);
    }
    forall r ensures HasRow(t, r) <==> HasRow(seats, r) || s.row == r {
      if HasRow(seats, r) {
        var k :| 0 <= k < |seats| && seats[k].row == r;
        assert t[k] == seats[k];
      }
      if s.row == r {
        assert t[|seats|] == s;
      }
      if HasRow(t, r) && s.row != r {
        var k :| 0 <= k < |t| && t[k].row == r;
        assert k < |seats| && t[k] == seats[k];
      }
    }
    if s.row !in rows {
      FilterAllOrNone(seats, (x: MapSeat<Id>) => x.row == s.row);
    }
  }

  /** `groupRows`: seats are pushed into per-row lists, which are then read
      out by ascending row. */
  method GroupRows<Id>(seats: seq<MapSeat<Id>>) returns (groups: seq<seq<MapSeat<Id>>>)
    ensures groups == RowGroups(seats, RowBound(seats))
  {
    var rows := CollectRows(seats);
    groups := ReadRows(rows, seats, RowBound(seats));
  }

  /** The push loop of `groupRows`. */
  method CollectRows<Id>(seats: seq<MapSeat<Id>>) returns (rows: map<nat, seq<MapSeat<Id>>>)
    ensures RowMap(rows, seats)
  {
    rows := map[];
    var i := 0;
    while i < |seats|
      invariant 0 <= i <= |seats|
      invariant RowMap(rows, seats[..i])
    {
      var s := seats[i];
      ghost var before := rows;
      if s.row !in rows {
        rows := rows[s.row := []];
      }
      rows := rows[s.row := rows[s.row] + [s]];
      assert rows == AddSeat(before, s);
      RowMapSnoc(before, seats[..i], s);
      assert seats[..i + 1] == seats[..i] + [s];
      i := i + 1;
    }
    assert seats[..i] == seats;
  }

  /** The read-out of `groupRows`: the lists of the rows below `bound`, by
      ascending row. */
  method ReadRows<Id>(rows: map<nat, seq<MapSeat<Id>>>, seats: seq<MapSeat<Id>>, bound: nat)
    returns (groups: seq<seq<MapSeat<Id>>>)
    requires RowMap(rows, seats)
    ensures groups == RowGroups(seats, bound)
  {
    groups := [];
    var n := 0;
    while n < bound
      invariant 0 <= n <= bound
      invariant groups == RowGroups(seats, n)
    {
      if n in rows {
        groups := groups + [rows[n]];
      }
      n := n + 1;
    }
  }

  /** Every group is a non-empty row of the input, below the bound, in
      input order. */
  lemma {:induction false} GroupsAreRows<Id>(seats: seq<MapSeat<Id>>, n: nat)
    ensures forall g :: 0 <= g < |RowGroups(seats, n)| ==>
              var grp := RowGroups(seats, n)[g];
              grp != [] && grp[0].row < n && grp == InRow(seats, grp[0].row)
  {
    if n > 0 {
      GroupsAreRows(seats, n - 1);
      var prev := RowGroups(seats, n - 1);
      if HasRow(seats, n - 1) {
        var grp := InRow(seats, n - 1);
        NonEmptyRow(seats, n - 1);
        assert RowGroups(seats, n) == prev + [grp];
      }
    }
  }

  lemma NonEmptyRow<Id>(seats: seq<MapSeat<Id>>, r: nat)
    requires HasRow(seats, r)
    ensures InRow(seats, r) != [] && InRow(seats, r)[0].row == r
  {
    var k :| 0 <= k < |seats| && seats[k].row == r;
    FilterMembership(seats, (x: MapSeat<Id>) => x.row == r, seats[k]);
    var grp := InRow(seats, r);
    assert grp[0] in grp;
  }

  /** The groups come out by strictly ascending row. */
  lemma {:induction false} GroupsAscend<Id>(seats: seq<MapSeat<Id>>, n: nat)
    ensures forall g :: 0 <= g < |RowGroups(seats, n)| ==> RowGroups(seats, n)[g] != []
    ensures forall g, h :: 0 <= g < h < |RowGroups(seats, n)| ==>
              RowGroups(seats, n)[g][0].row < RowGroups(seats, n)[h][0].row
  {
    GroupsAreRows(seats, n);
    if n > 0 {
      GroupsAscend(seats, n - 1);
      GroupsAreRows(seats, n - 1);
      var prev := RowGroups(seats, n - 1);
      if HasRow(seats, n - 1) {
        NonEmptyRow(seats, n - 1);
        var all: seq<seq<MapSeat<Id>>> := prev + [InRow(seats, n - 1)];
        assert RowGroups(seats, n) == all;
        forall g: int, h: int | 0 <= g < h < |all| ensures all[g][0].row < all[h][0].row {
          assert all[g] == prev[g];
          if h < |prev| {
            assert all[h] == prev[h];
          }
        }
      }
    }
  }

  /** Every seat with a row below the bound lies in the group of its row. */
  lemma {:induction false} EverySeatGrouped<Id>(seats: seq<MapSeat<Id>>, n: nat, k: nat)
    requires k < |seats| && seats[k].row < n
    ensures InRow(seats, seats[k].row) in RowGroups(seats, n)
    ensures seats[k] in InRow(seats, seats[k].row)
  {
    FilterMembership(seats, (x: MapSeat<Id>) => x.row == seats[k].row, seats[k]);
    if seats[k].row < n - 1 {
      EverySeatGrouped(seats, n - 1, k);
    } else {
      assert HasRow(seats, n - 1);
    }
  }

  // ---------------------------------------------------------------- aisle

  /** The lower deck's sides: columns 1-2 and columns above 2. */
  function LowerSides<Id>(row: seq<MapSeat<Id>>): (seq<MapSeat<Id>>, seq<MapSeat<Id>>) {
    (Filter(row, (s: MapSeat<Id>) => s.col <= 2), Filter(row, (s: MapSeat<Id>) => s.col > 2))
  }

  /** The upper deck's sides: column 1 and columns above 1. */
  function UpperSides<Id>(row: seq<MapSeat<Id>>): (seq<MapSeat<Id>>, seq<MapSeat<Id>>) {
    (Filter(row, (s: MapSeat<Id>) => s.col == 1), Filter(row, (s: MapSeat<Id>) => s.col > 1))
  }

  lemma {:induction false} SidesCount<Id>(row: seq<MapSeat<Id>>, p: MapSeat<Id> -> bool, q: MapSeat<Id> -> bool)
    requires forall k :: 0 <= k < |row| ==> p(row[k]) != q(row[k])
    ensures multiset(Filter(row, p)) + multiset(Filter(row, q)) == multiset(row)
  {
    if row != [] {
      SidesCount(row[1..], p, q);
      assert row == [row[0]] + row[1..];
    }
  }

  /** The lower split puts every seat of a row on exactly one side. The upper
      split does so for rows whose columns start at 1, as every seat the
      server's plan creates does; a seat in a column below 1 is drawn on
      neither side. */
  lemma SidesPartition<Id>(row: seq<MapSeat<Id>>)
    ensures multiset(LowerSides(row).0) + multiset(LowerSides(row).1) == multiset(row)
    ensures (forall k :: 0 <= k < |row| ==> row[k].col >= 1) ==>
              multiset(UpperSides(row).0) + multiset(UpperSides(row).1) == multiset(row)
  {
    SidesCount(row, (s: MapSeat<Id>) => s.col <= 2, (s: MapSeat<Id>) => s.col > 2);
    if forall k :: 0 <= k < |row| ==> row[k].col >= 1 {
      SidesCount(row, (s: MapSeat<Id>) => s.col == 1, (s: MapSeat<Id>) => s.col > 1);
    }
  }
}
