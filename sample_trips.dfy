/** The offline trip search of the client (client/src/data/sampleTrips.ts):
    the trips between two places, ignoring letter case, optionally on one
    date, cheapest first. */
module SampleTrips {
  import opened Common
  import opened Text

  /** A catalog entry, restricted to the fields the search reads; the price
      is the number `parseFloat` reads from its text. */
  datatype Trip = Trip(id: int, source: string, destination: string, departureTime: string, price: real)

  /** The date part of an ISO timestamp: `departureTime.split("T")[0]`. */
  function DatePart(departureTime: string): string {
    Split(departureTime, 'T')[0]
  }

  /** The filter callback: places match ignoring case; a non-empty date is
      compared only against trips that carry a departure time. */
  predicate Matches(t: Trip, from: string, to: string, date: string) {
    && EqualsIgnoreCase(t.source, from)
    && EqualsIgnoreCase(t.destination, to)
    && (date != "" && t.departureTime != "" ==> DatePart(t.departureTime) == date)
  }

  predicate SortedByPrice(s: seq<Trip>) {
    forall i, j :: 0 <= i < j < |s| ==> s[i].price <= s[j].price
  }

  /** One step of a stable sort: `x` goes after every trip that is not
      dearer than it. */
  function Insert(s: seq<Trip>, x: Trip): (r: seq<Trip>)
    ensures |r| == |s| + 1
  {
    if s == [] then [x]
    else if x.price < s[0].price then [x] + s
    else [s[0]] + Insert(s[1..], x)
  }

  /** `sort((a, b) => a.price - b.price)`, which is stable. */
  function SortByPrice(s: seq<Trip>): (r: seq<Trip>)
    ensures |r| == |s|
  {
    if s == [] then [] else Insert(SortByPrice(s[..|s| - 1]), s[|s| - 1])
  }

  /** `filterTrips(trips, from, to, date)`; an absent date is the empty one. */
  function FilterTrips(trips: seq<Trip>, from: string, to: string, date: string): seq<Trip> {
    SortByPrice(Filter(trips, (t: Trip) => Matches(t, from, to, date)))
  }

  predicate SamePrice(t: Trip, p: real) {
    t.price == p
  }

  lemma {:induction false} InsertMultiset(s: seq<Trip>, x: Trip)
    ensures multiset(Insert(s, x)) == multiset(s) + multiset{x}
  {
    if s != [] && x.price >= s[0].price {
      InsertMultiset(s[1..], x);
      assert s == [s[0]] + s[1..];
    }
  }

  lemma {:induction false} InsertSorted(s: seq<Trip>, x: Trip)
    requires SortedByPrice(s)
    ensures SortedByPrice(Insert(s, x))
  {
    if s != [] && x.price >= s[0].price {
      var r := Insert(s[1..], x);
      InsertSorted(s[1..], x);
      InsertMultiset(s[1..], x);
      forall k | 0 <= k < |r| ensures s[0].price <= r[k].price {
        assert r[k] in multiset(r);
        if r[k] != x {
          assert r[k] in multiset(s[1..]);
          var j :| 0 <= j < |s[1..]| && s[1..][j] == r[k];
          assert s[j + 1] == r[k];
        }
      }
      assert Insert(s, x) == [s[0]] + r;
    }
  }

  /** Inserting keeps the trips of each price in their order and puts `x`
      last among those of its price. */
  lemma {:induction false} InsertStable(s: seq<Trip>, x: Trip, p: real)
    requires SortedByPrice(s)
    ensures Filter(Insert(s, x), (t: Trip) => SamePrice(t, p)) ==
            Filter(s, (t: Trip) => SamePrice(t, p)) + (if x.price == p then [x] else [])
  {
    var f := (t: Trip) => SamePrice(t, p);
    if s == [] {
      assert Filter([x], f) == (if f(x) then [x] else []) + Filter([], f);
    } else if x.price < s[0].price {
      assert Filter([x] + s, f) == (if f(x) then [x] else []) + Filter(s, f);
      if x.price == p {
        NoneOfPrice(s, p);
      }
    } else {
      InsertStable(s[1..], x, p);
      assert Filter([s[0]] + Insert(s[1..], x), f) == (if f(s[0]) then [s[0]] else []) + Filter(Insert(s[1..], x), f);
    }
  }

  /** A sorted sequence whose first price is above `p` holds no trip of
      price `p`. */
  lemma NoneOfPrice(s: seq<Trip>, p: real)
    requires SortedByPrice(s) && s != [] && p < s[0].price
    ensures Filter(s, (t: Trip) => SamePrice(t, p)) == []
  {
    FilterAllOrNone(s, (t: Trip) => SamePrice(t, p));
  }

  /** The sort yields the same trips, each as often, cheapest first, and
      trips of equal price in their original order. */
  lemma {:induction false} SortCorrect(s: seq<Trip>, p: real)
    ensures SortedByPrice(SortByPrice(s))
    ensures multiset(SortByPrice(s)) == multiset(s)
    ensures Filter(SortByPrice(s), (t: Trip) => SamePrice(t, p)) == Filter(s, (t: Trip) => SamePrice(t, p))
  {
    if s != [] {
      var init := s[..|s| - 1];
      var x := s[|s| - 1];
      SortCorrect(init, p);
      InsertSorted(SortByPrice(init), x);
      InsertMultiset(SortByPrice(init), x);
      InsertStable(SortByPrice(init), x, p);
      assert s == init + [x];
      FilterSnoc(init, x, (t: Trip) => SamePrice(t, p));
    }
  }

  /** The search returns every matching trip, as often as the catalog holds
      it, and nothing else, sorted by price with equal prices in catalog
      order. */
  lemma FilterTripsCorrect(trips: seq<Trip>, from: string, to: string, date: string, p: real)
    ensures var r := FilterTrips(trips, from, to, date);
            && SortedByPrice(r)
            && multiset(r) == multiset(Filter(trips, (t: Trip) => Matches(t, from, to, date)))
            && (forall t :: t in r <==> t in trips && Matches(t, from, to, date))
            && Filter(r, (t: Trip) => SamePrice(t, p))
               == Filter(Filter(trips, (t: Trip) => Matches(t, from, to, date)), (t: Trip) => SamePrice(t, p))
  {
    var m := Filter(trips, (t: Trip) => Matches(t, from, to, date));
    SortCorrect(m, p);
    var r := SortByPrice(m);
    forall t ensures t in r <==> t in trips && Matches(t, from, to, date) {
      assert t in r <==> t in multiset(r);
      assert t in m <==> t in multiset(m);
      FilterMembership(trips, (t: Trip) => Matches(t, from, to, date), t);
    }
  }

  /** With no date every trip between the two places qualifies; with a date
      a trip carrying another date does not. */
  lemma DateFilter(t: Trip, from: string, to: string, date: string)
    requires EqualsIgnoreCase(t.source, from) && EqualsIgnoreCase(t.destination, to)
    ensures Matches(t, from, to, "")
    ensures date != "" && t.departureTime != "" && DatePart(t.departureTime) != date ==> !Matches(t, from, to, date)
  {
  }
}
