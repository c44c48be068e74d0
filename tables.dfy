/** The rows of the reservation store's tables and what the store's queries
    and bulk updates compute on them, stated on values. The two invariants of
    the store live here: exclusivity of live bookings per show, and at most one
    active seat lock per (show, seat). */
module Tables {
  import opened Common
  import opened Text

  datatype Status = Pending | Confirmed | Expired | Cancelled

  /** The trip catalog entry the store reads (its departure time). */
  datatype Show = Show(id: int, source: string, destination: string, departureTime: int)

  datatype Seat = Seat(id: int, showId: int, seatNumber: string, deck: string,
                       row: int, col: int, kind: string, price: real, features: seq<string>)

  datatype Passenger = Passenger(gender: string, phone: string, idType: string, idNumber: string)

  datatype Booking = Booking(id: int, showId: int, userId: Option<string>, seatIds: seq<int>,
                             status: Status, totalAmount: real, idempotencyKey: string,
                             passenger: Option<Passenger>, gender: string,
                             expiresAt: Option<int>, confirmedAt: Option<int>, createdAt: int)

  datatype SeatLock = SeatLock(id: int, showId: int, seatId: int, userId: string, expiresAt: int)

  datatype Refund = Refund(id: int, bookingId: int, amount: real, status: string,
                           reason: string, processedAt: int)

  /** A seat-available subscription; `notified == false` is the pending state. */
  datatype SeatNotification = SeatNotification(id: int, showId: int, seatNumber: string,
                                               email: string, notified: bool)

  /** A user row, restricted to the columns the OTP handlers use. */
  datatype User = User(id: int, phoneNumber: Option<string>, email: string, otp: Option<string>,
                       otpExpiresAt: Option<int>, otpAttempts: int, lastOtpRequestAt: Option<int>)

  // ---------------------------------------------------------------- bookings

  predicate Live(b: Booking) {
    b.status == Pending || b.status == Confirmed
  }

  function LiveSeatIds(b: Booking, showId: int): seq<int> {
    if b.showId == showId && Live(b) then b.seatIds else []
  }

  /** The seat ids of the show's PENDING and CONFIRMED bookings, concatenated in
      table order. No expiry filter: a PENDING row past its hold still counts. */
  function BookedSeatIds(bs: seq<Booking>, showId: int): seq<int>
    decreases |bs|
  {
    if bs == [] then [] else BookedSeatIds(bs[..|bs| - 1], showId) + LiveSeatIds(bs[|bs| - 1], showId)
  }

  lemma BookedSeatIdsSnoc(bs: seq<Booking>, b: Booking, showId: int)
    ensures BookedSeatIds(bs + [b], showId) == BookedSeatIds(bs, showId) + LiveSeatIds(b, showId)
  {
    assert (bs + [b])[..|bs|] == bs;
  }

  /** A seat id is booked for a show exactly when some live booking of that
      show holds it. */
  lemma {:induction false} BookedSeatIdsMembership(bs: seq<Booking>, showId: int, x: int)
    ensures x in BookedSeatIds(bs, showId) <==>
            exists i :: 0 <= i < |bs| && bs[i].showId == showId && Live(bs[i]) && x in bs[i].seatIds
  {
    if bs != [] {
      var front := bs[..|bs| - 1];
      BookedSeatIdsMembership(front, showId, x);
      assert forall i :: 0 <= i < |front| ==> front[i] == bs[i];
      if x in BookedSeatIds(bs, showId) && x !in BookedSeatIds(front, showId) {
        assert bs[|bs| - 1].showId == showId && Live(bs[|bs| - 1]) && x in bs[|bs| - 1].seatIds;
      }
    }
  }

  /** Invariant 1: per show, the seat-id lists of live bookings are duplicate
      free and pairwise disjoint. */
  predicate Exclusive(bs: seq<Booking>) {
    && (forall i :: 0 <= i < |bs| && Live(bs[i]) ==> NoDup(bs[i].seatIds))
    && (forall i, j ::
          (0 <= i < |bs| && 0 <= j < |bs| && i != j && Live(bs[i]) && Live(bs[j]) && bs[i].showId == bs[j].showId)
          ==> Disjoint(bs[i].seatIds, bs[j].seatIds))
  }

  lemma ExclusiveFront(bs: seq<Booking>)
    requires bs != [] && Exclusive(bs)
    ensures Exclusive(bs[..|bs| - 1])
  {
    var front := bs[..|bs| - 1];
    assert forall i :: 0 <= i < |front| ==> front[i] == bs[i];
  }

  /** One more booking keeps every show's booked list distinct exactly when the
      lists so far, its own seats, and the overlap of the two are clean. */
  lemma BookedSnocDistinct(front: seq<Booking>, b: Booking, showId: int)
    ensures NoDup(BookedSeatIds(front + [b], showId)) <==>
            NoDup(BookedSeatIds(front, showId)) && NoDup(LiveSeatIds(b, showId))
            && Disjoint(BookedSeatIds(front, showId), LiveSeatIds(b, showId))
  {
    BookedSeatIdsSnoc(front, b, showId);
    NoDupAppend(BookedSeatIds(front, showId), LiveSeatIds(b, showId));
  }

  lemma {:induction false} ExclusiveBookedDistinct(bs: seq<Booking>, showId: int)
    requires Exclusive(bs)
    ensures NoDup(BookedSeatIds(bs, showId))
  {
    if bs != [] {
      var front, b := bs[..|bs| - 1], bs[|bs| - 1];
      assert bs == front + [b];
      ExclusiveFront(bs);
      ExclusiveBookedDistinct(front, showId);
      forall x | x in BookedSeatIds(front, showId) ensures x !in LiveSeatIds(b, showId) {
        BookedSeatIdsMembership(front, showId, x);
        var i :| 0 <= i < |front| && front[i].showId == showId && Live(front[i]) && x in front[i].seatIds;
        assert bs[i] == front[i];
        if b.showId == showId && Live(b) {
          assert Disjoint(bs[i].seatIds, bs[|bs| - 1].seatIds);
        }
      }
      assert NoDup(LiveSeatIds(b, showId)) by {
        if b.showId == showId && Live(b) { assert Live(bs[|bs| - 1]); }
      }
      BookedSnocDistinct(front, b, showId);
    }
  }

  lemma {:induction false} BookedDistinctExclusive(bs: seq<Booking>)
    requires forall showId :: NoDup(BookedSeatIds(bs, showId))
    ensures Exclusive(bs)
  {
    if bs != [] {
      var front, b := bs[..|bs| - 1], bs[|bs| - 1];
      assert bs == front + [b];
      forall showId ensures NoDup(BookedSeatIds(front, showId)) && NoDup(LiveSeatIds(b, showId))
                            && Disjoint(BookedSeatIds(front, showId), LiveSeatIds(b, showId))
      {
        BookedSnocDistinct(front, b, showId);
        assert NoDup(BookedSeatIds(bs, showId));
      }
      BookedDistinctExclusive(front);
      forall i | 0 <= i < |bs| && Live(bs[i]) ensures NoDup(bs[i].seatIds) {
        if i == |bs| - 1 {
          assert NoDup(LiveSeatIds(b, b.showId));
        } else {
          assert bs[i] == front[i];
        }
      }
      forall i, j | 0 <= i < |bs| && 0 <= j < |bs| && i != j && Live(bs[i]) && Live(bs[j])
          && bs[i].showId == bs[j].showId
        ensures Disjoint(bs[i].seatIds, bs[j].seatIds)
      {
        if i == |bs| - 1 || j == |bs| - 1 {
          var k := if i == |bs| - 1 then j else i;
          assert bs[k] == front[k];
          assert Disjoint(BookedSeatIds(front, b.showId), b.seatIds);
          forall x | x in bs[k].seatIds ensures x !in b.seatIds {
            BookedSeatIdsMembership(front, b.showId, x);
          }
        } else {
          assert bs[i] == front[i] && bs[j] == front[j];
        }
      }
    }
  }

  /** Invariant 1 is the statement that no seat id appears twice in any
      show's booked-seat list. */
  lemma ExclusiveIffBookedDistinct(bs: seq<Booking>)
    ensures Exclusive(bs) ==> forall showId :: NoDup(BookedSeatIds(bs, showId))
    ensures (forall showId :: NoDup(BookedSeatIds(bs, showId))) ==> Exclusive(bs)
  {
    if Exclusive(bs) {
      forall showId ensures NoDup(BookedSeatIds(bs, showId)) {
        ExclusiveBookedDistinct(bs, showId);
      }
    }
    if forall showId :: NoDup(BookedSeatIds(bs, showId)) {
      BookedDistinctExclusive(bs);
    }
  }

  /** Appending a booking whose seats are distinct and not yet booked for its
      show keeps invariant 1. */
  lemma InsertKeepsExclusive(bs: seq<Booking>, b: Booking)
    requires Exclusive(bs)
    requires NoDup(b.seatIds)
    requires Disjoint(b.seatIds, BookedSeatIds(bs, b.showId))
    ensures Exclusive(bs + [b])
  {
    var bs' := bs + [b];
    forall i, j | 0 <= i < |bs'| && 0 <= j < |bs'| && i != j && Live(bs'[i]) && Live(bs'[j])
        && bs'[i].showId == bs'[j].showId
      ensures Disjoint(bs'[i].seatIds, bs'[j].seatIds)
    {
      if i == |bs| || j == |bs| {
        var k := if i == |bs| then j else i;
        forall x | x in bs[k].seatIds ensures x !in b.seatIds {
          BookedSeatIdsMembership(bs, b.showId, x);
        }
      }
    }
  }

  /** `bs'` differs from `bs` only in statuses and timestamps, and no row became
      live that was not live before. */
  predicate OnlyDemoted(bs: seq<Booking>, bs': seq<Booking>) {
    |bs'| == |bs| &&
    forall i :: 0 <= i < |bs| ==>
      bs'[i].showId == bs[i].showId && bs'[i].seatIds == bs[i].seatIds && (Live(bs'[i]) ==> Live(bs[i]))
  }

  lemma DemotionKeepsExclusive(bs: seq<Booking>, bs': seq<Booking>)
    requires Exclusive(bs) && OnlyDemoted(bs, bs')
    ensures Exclusive(bs')
  {
  }

  /** `confirmBooking`: every row with the id becomes CONFIRMED at `now` with
      its hold cleared, whatever its status was. */
  function ConfirmRows(bs: seq<Booking>, id: int, now: int): (r: seq<Booking>)
    ensures |r| == |bs|
  {
    seq(|bs|, i requires 0 <= i < |bs| =>
      if bs[i].id == id then bs[i].(status := Confirmed, confirmedAt := Some(now), expiresAt := None) else bs[i])
  }

  /** Every row with the id is live (vacuously so for an unknown id). */
  predicate LiveWithId(bs: seq<Booking>, id: int) {
    forall i :: 0 <= i < |bs| && bs[i].id == id ==> Live(bs[i])
  }

  /** Confirming a live booking (or an unknown id) keeps invariant 1. */
  lemma ConfirmLiveKeepsExclusive(bs: seq<Booking>, id: int, now: int)
    requires Exclusive(bs)
    requires LiveWithId(bs, id)
    ensures Exclusive(ConfirmRows(bs, id, now))
  {
    DemotionKeepsExclusive(bs, ConfirmRows(bs, id, now));
  }

  /** Confirming an EXPIRED booking whose seat was booked again revives it and
      double-books the seat. */
  lemma ConfirmRevivalBreaksExclusive()
    ensures var bs := [Booking(1, 7, None, [5], Expired, 500.0, "k1", None, "unknown", Some(0), None, 0),
                       Booking(2, 7, None, [5], Pending, 500.0, "k2", None, "unknown", Some(90000), None, 30000)];
            Exclusive(bs) && !Exclusive(ConfirmRows(bs, 1, 40000))
  {
    var bs := [Booking(1, 7, None, [5], Expired, 500.0, "k1", None, "unknown", Some(0), None, 0),
               Booking(2, 7, None, [5], Pending, 500.0, "k2", None, "unknown", Some(90000), None, 30000)];
    var bs' := ConfirmRows(bs, 1, 40000);
    assert Live(bs'[0]) && Live(bs'[1]) && 5 in bs'[0].seatIds && 5 in bs'[1].seatIds;
    assert !Disjoint(bs'[0].seatIds, bs'[1].seatIds);
  }

  predicate Expirable(b: Booking, now: int) {
    b.status == Pending && b.expiresAt.Some? && b.expiresAt.value < now
  }

  /** `expireOldBookings`: PENDING rows whose hold ended strictly before `now`
      become EXPIRED; nothing else changes. */
  function ExpireRows(bs: seq<Booking>, now: int): (r: seq<Booking>)
    ensures |r| == |bs|
  {
    seq(|bs|, i requires 0 <= i < |bs| => if Expirable(bs[i], now) then bs[i].(status := Expired) else bs[i])
  }

  function CountExpirable(bs: seq<Booking>, now: int): nat {
    if bs == [] then 0 else CountExpirable(bs[..|bs| - 1], now) + (if Expirable(bs[|bs| - 1], now) then 1 else 0)
  }

  /** After a sweep at `now` nothing is left to expire at `now`. */
  lemma {:induction false} SweepLeavesNothing(bs: seq<Booking>, now: int)
    ensures CountExpirable(ExpireRows(bs, now), now) == 0
  {
    if bs != [] {
      var front := bs[..|bs| - 1];
      SweepLeavesNothing(front, now);
      assert ExpireRows(bs, now)[..|bs| - 1] == ExpireRows(front, now);
    }
  }

  lemma ExpireKeepsExclusive(bs: seq<Booking>, now: int)
    requires Exclusive(bs)
    ensures Exclusive(ExpireRows(bs, now))
  {
    DemotionKeepsExclusive(bs, ExpireRows(bs, now));
  }

  /** `cancelBooking`'s update: every row with the id becomes CANCELLED. */
  function CancelRows(bs: seq<Booking>, id: int): (r: seq<Booking>)
    ensures |r| == |bs|
  {
    seq(|bs|, i requires 0 <= i < |bs| => if bs[i].id == id then bs[i].(status := Cancelled) else bs[i])
  }

  lemma CancelKeepsExclusive(bs: seq<Booking>, id: int)
    requires Exclusive(bs)
    ensures Exclusive(CancelRows(bs, id))
  {
    DemotionKeepsExclusive(bs, CancelRows(bs, id));
  }

  // ------------------------------------------------------------------- seats

  /** `SELECT … WHERE id IN ids`: the seat rows whose id is requested, in table
      order, each row once however often its id is requested. */
  function SeatsByIds(seats: seq<Seat>, ids: seq<int>): seq<Seat> {
    Filter(seats, (s: Seat) => s.id in ids)
  }

  predicate SeatIdsUnique(seats: seq<Seat>) {
    forall i, j :: 0 <= i < j < |seats| ==> seats[i].id != seats[j].id
  }

  function SeatIdList(seats: seq<Seat>): (r: seq<int>)
    ensures |r| == |seats| && forall i :: 0 <= i < |seats| ==> r[i] == seats[i].id
  {
    seq(|seats|, i requires 0 <= i < |seats| => seats[i].id)
  }

  /** The row-count check: when the query returns as many rows as ids were
      requested, the requested ids are distinct and every one names a seat. */
  lemma CountCheckMeansDistinctAndPresent(seats: seq<Seat>, ids: seq<int>)
    requires SeatIdsUnique(seats)
    requires |SeatsByIds(seats, ids)| == |ids|
    ensures NoDup(ids)
    ensures forall x :: x in ids ==> exists k :: 0 <= k < |seats| && seats[k].id == x
  {
    var found := SeatsByIds(seats, ids);
    var foundIds := SeatIdList(found);
    var wanted := set x | x in ids;
    FilterNoDup(seats, (s: Seat) => s.id in ids) by {
      assert NoDup(seats) by {
        forall i, j | 0 <= i < j < |seats| ensures seats[i] != seats[j] { }
      }
    }
    assert NoDup(foundIds) by {
      forall i, j | 0 <= i < j < |found| ensures found[i].id != found[j].id {
        assert found[i] in seats && found[j] in seats;
        var a :| 0 <= a < |seats| && seats[a] == found[i];
        var b :| 0 <= b < |seats| && seats[b] == found[j];
        assert a != b;
      }
    }
    assert forall x :: x in foundIds ==> x in wanted by {
      forall x | x in foundIds ensures x in wanted {
        var k :| 0 <= k < |foundIds| && foundIds[k] == x;
        assert found[k] in found;
      }
    }
    NoDupLengthBound(foundIds, wanted);
    if !NoDup(ids) {
      DupSetSmaller(ids);
    }
    forall x | x in ids ensures exists k :: 0 <= k < |seats| && seats[k].id == x {
      if x !in foundIds {
        NoDupLengthBound(foundIds, wanted - {x});
        SetOfLength(ids);
      } else {
        var k :| 0 <= k < |foundIds| && foundIds[k] == x;
        assert found[k] in seats;
      }
    }
  }

  /** `reduce((sum, seat) => sum + parseFloat(seat.price), 0)` */
  function SumPrices(seats: seq<Seat>): real {
    if seats == [] then 0.0 else SumPrices(seats[..|seats| - 1]) + seats[|seats| - 1].price
  }

  // ------------------------------------------------------------------- locks

  predicate ActiveAt(l: SeatLock, now: int) {
    l.expiresAt > now
  }

  predicate ActiveOn(l: SeatLock, showId: int, seatId: int, now: int) {
    l.showId == showId && l.seatId == seatId && ActiveAt(l, now)
  }

  /** Invariant 2: at most one active lock per (show, seat). */
  predicate LockExclusive(locks: seq<SeatLock>, now: int) {
    forall i, j :: 0 <= i < j < |locks| && ActiveAt(locks[i], now) && ActiveAt(locks[j], now) ==>
      locks[i].showId != locks[j].showId || locks[i].seatId != locks[j].seatId
  }

  /** Locks only expire as time passes, so invariant 2 survives a clock that
      does not go backwards. */
  lemma LockExclusiveLater(locks: seq<SeatLock>, now: int, later: int)
    requires LockExclusive(locks, now) && now <= later
    ensures LockExclusive(locks, later)
  {
  }

  function FirstActive(locks: seq<SeatLock>, showId: int, seatId: int, now: int): Option<nat> {
    FirstIndex(locks, (l: SeatLock) => ActiveOn(l, showId, seatId, now))
  }

  /** `lockSeat`: the returned lock (None is the source's `null`) and the new
      lock table. */
  function LockSeatRows(locks: seq<SeatLock>, nextId: int, showId: int, seatId: int,
                        userId: string, expiresAt: int, now: int): (r: (Option<SeatLock>, seq<SeatLock>))
    ensures LockExclusive(locks, now) ==>
              (r.0.None? <==> exists k :: 0 <= k < |locks| && ActiveOn(locks[k], showId, seatId, now)
                                           && locks[k].userId != userId)
    ensures r.0.None? ==> r.1 == locks
    ensures r.0.Some? ==> r.0.value in r.1 && r.0.value.expiresAt == expiresAt
                          && r.0.value.userId == userId && r.0.value.showId == showId && r.0.value.seatId == seatId
  {
    match FirstActive(locks, showId, seatId, now)
    case Some(k) =>
      if locks[k].userId != userId then (None, locks)
      else
        var renewed := locks[k].(expiresAt := expiresAt);
        var ls := locks[k := renewed];
        assert ls[k] == renewed;
        (Some(renewed), ls)
    case None =>
      var created := SeatLock(nextId, showId, seatId, userId, expiresAt);
      (Some(created), locks + [created])
  }

  /** A same-user renewal changes one row's expiry in place; a grant on a free
      seat appends exactly one row; a refusal writes nothing. */
  lemma LockSeatRowCount(locks: seq<SeatLock>, nextId: int, showId: int, seatId: int,
                         userId: string, expiresAt: int, now: int)
    ensures var r := LockSeatRows(locks, nextId, showId, seatId, userId, expiresAt, now);
            |r.1| == |locks| + (if FirstActive(locks, showId, seatId, now).None? then 1 else 0)
  {
  }

  /** Invariant 2 is kept by `lockSeat`. */
  lemma LockSeatKeepsLockExclusive(locks: seq<SeatLock>, nextId: int, showId: int, seatId: int,
                                   userId: string, expiresAt: int, now: int)
    requires LockExclusive(locks, now)
    ensures LockExclusive(LockSeatRows(locks, nextId, showId, seatId, userId, expiresAt, now).1, now)
  {
    var r := LockSeatRows(locks, nextId, showId, seatId, userId, expiresAt, now);
    match FirstActive(locks, showId, seatId, now)
    case Some(k) =>
      if locks[k].userId == userId {
        var ls := r.1;
        forall i, j | 0 <= i < j < |ls| && ActiveAt(ls[i], now) && ActiveAt(ls[j], now)
          ensures ls[i].showId != ls[j].showId || ls[i].seatId != ls[j].seatId
        {
          if i != k && j != k {
            assert ls[i] == locks[i] && ls[j] == locks[j];
          } else if i == k {
            assert ls[j] == locks[j];
            assert ActiveAt(locks[k], now);
          } else {
            assert ls[i] == locks[i];
            assert ActiveAt(locks[k], now);
          }
        }
      }
    case None =>
  }

  /** `unlockSeat`'s delete: every row for (show, seat, user), active or not. */
  function UnlockRows(locks: seq<SeatLock>, showId: int, seatId: int, userId: string): (r: seq<SeatLock>)
    ensures |r| <= |locks|
  {
    Filter(locks, (l: SeatLock) => !(l.showId == showId && l.seatId == seatId && l.userId == userId))
  }

  /** Unlock removes exactly the caller's rows for the seat; other users' locks
      stay; the result is true iff something was removed. */
  lemma UnlockEffect(locks: seq<SeatLock>, showId: int, seatId: int, userId: string, l: SeatLock)
    ensures l in UnlockRows(locks, showId, seatId, userId) <==>
            l in locks && !(l.showId == showId && l.seatId == seatId && l.userId == userId)
    ensures |UnlockRows(locks, showId, seatId, userId)| < |locks| <==>
            exists k :: 0 <= k < |locks| && locks[k].showId == showId && locks[k].seatId == seatId
                        && locks[k].userId == userId
  {
    var p := (x: SeatLock) => !(x.showId == showId && x.seatId == seatId && x.userId == userId);
    FilterMembership(locks, p, l);
    FilterLengthStrict(locks, p);
  }

  lemma {:induction false} FilterLengthStrict<T>(s: seq<T>, p: T -> bool)
    ensures |Filter(s, p)| < |s| <==> exists k :: 0 <= k < |s| && !p(s[k])
  {
    if s != [] {
      FilterLengthStrict(s[1..], p);
      if exists k :: 0 <= k < |s[1..]| && !p(s[1..][k]) {
        var k :| 0 <= k < |s[1..]| && !p(s[1..][k]);
        assert !p(s[k + 1]);
      }
      if exists k :: 0 <= k < |s| && !p(s[k]) {
        var k :| 0 <= k < |s| && !p(s[k]);
        if k > 0 { assert !p(s[1..][k - 1]); }
      }
    }
  }

  /** `getLockedSeats`: the show's locks with expiry strictly after `now`. */
  function LockedSeats(locks: seq<SeatLock>, showId: int, now: int): seq<SeatLock> {
    Filter(locks, (l: SeatLock) => l.showId == showId && ActiveAt(l, now))
  }

  /** `cleanupExpiredLocks`'s delete: rows with expiry strictly before `now`. */
  function CleanupRows(locks: seq<SeatLock>, now: int): seq<SeatLock> {
    Filter(locks, (l: SeatLock) => !(l.expiresAt < now))
  }

  /** A lock expiring exactly at `now` is neither listed nor reaped; every
      listed lock survives the sweep. */
  lemma LockDeadlineBoundary(locks: seq<SeatLock>, showId: int, now: int, l: SeatLock)
    requires l in locks && l.showId == showId
    ensures l in LockedSeats(locks, showId, now) <==> l.expiresAt > now
    ensures l in CleanupRows(locks, now) <==> l.expiresAt >= now
    ensures l.expiresAt == now ==> l !in LockedSeats(locks, showId, now) && l in CleanupRows(locks, now)
  {
    FilterMembership(locks, (x: SeatLock) => x.showId == showId && ActiveAt(x, now), l);
    FilterMembership(locks, (x: SeatLock) => !(x.expiresAt < now), l);
  }

  /** The booking transaction's lock check: an active lock on a requested
      seat of the show held by anyone but the caller (any holder when there is
      no caller). */
  predicate IsForeign(l: SeatLock, showId: int, seatIds: seq<int>, caller: Option<string>, now: int) {
    l.showId == showId && l.seatId in seatIds && ActiveAt(l, now) && (caller.None? || l.userId != caller.value)
  }

  function ForeignLocks(locks: seq<SeatLock>, showId: int, seatIds: seq<int>,
                        caller: Option<string>, now: int): seq<SeatLock>
  {
    Filter(locks, (l: SeatLock) => IsForeign(l, showId, seatIds, caller, now))
  }

  lemma ForeignLocksMembership(locks: seq<SeatLock>, showId: int, seatIds: seq<int>,
                               caller: Option<string>, now: int, l: SeatLock)
    ensures l in ForeignLocks(locks, showId, seatIds, caller, now) <==>
            l in locks && IsForeign(l, showId, seatIds, caller, now)
  {
    FilterMembership(locks, (x: SeatLock) => IsForeign(x, showId, seatIds, caller, now), l);
  }

  /** The booking transaction's lock release: the caller's locks on the booked
      seats of the show, whatever their expiry. */
  function ReleaseCallerLocks(locks: seq<SeatLock>, showId: int, seatIds: seq<int>, caller: string): seq<SeatLock> {
    Filter(locks, (l: SeatLock) => !(l.showId == showId && l.seatId in seatIds && l.userId == caller))
  }

  /** The release touches only the caller's rows on the booked seats. */
  lemma ReleaseCallerLocksEffect(locks: seq<SeatLock>, showId: int, seatIds: seq<int>, caller: string, l: SeatLock)
    requires l in locks
    ensures l in ReleaseCallerLocks(locks, showId, seatIds, caller) <==>
            !(l.showId == showId && l.seatId in seatIds && l.userId == caller)
  {
    FilterMembership(locks, (x: SeatLock) => !(x.showId == showId && x.seatId in seatIds && x.userId == caller), l);
  }

  /** Deleting rows never creates a second active lock. */
  lemma FilterKeepsLockExclusive(locks: seq<SeatLock>, p: SeatLock -> bool, now: int)
    requires LockExclusive(locks, now)
    ensures LockExclusive(Filter(locks, p), now)
  {
    SubseqKeepsLockExclusive(locks, p, now);
  }

  lemma {:induction false} SubseqKeepsLockExclusive(locks: seq<SeatLock>, p: SeatLock -> bool, now: int)
    requires LockExclusive(locks, now)
    ensures LockExclusive(Filter(locks, p), now)
  {
    if locks != [] {
      var tail := locks[1..];
      assert LockExclusive(tail, now) by {
        forall i, j | 0 <= i < j < |tail| && ActiveAt(tail[i], now) && ActiveAt(tail[j], now)
          ensures tail[i].showId != tail[j].showId || tail[i].seatId != tail[j].seatId
        {
          assert tail[i] == locks[i + 1] && tail[j] == locks[j + 1];
        }
      }
      SubseqKeepsLockExclusive(tail, p, now);
      var rest := Filter(tail, p);
      if p(locks[0]) {
        var r := [locks[0]] + rest;
        forall i, j | 0 <= i < j < |r| && ActiveAt(r[i], now) && ActiveAt(r[j], now)
          ensures r[i].showId != r[j].showId || r[i].seatId != r[j].seatId
        {
          if i == 0 {
            assert r[j] == rest[j - 1] && rest[j - 1] in tail;
            var k :| 0 <= k < |tail| && tail[k] == rest[j - 1];
            assert locks[k + 1] == r[j];
          } else {
            assert r[i] == rest[i - 1] && r[j] == rest[j - 1];
          }
        }
      }
    }
  }

  // ----------------------------------------------------------- notifications

  predicate PendingFor(n: SeatNotification, showId: int, seatNumber: string) {
    n.showId == showId && n.seatNumber == seatNumber && !n.notified
  }

  /** `getPendingNotifications(showId, seatNumber)` */
  function PendingNotifications(ns: seq<SeatNotification>, showId: int, seatNumber: string): seq<SeatNotification> {
    Filter(ns, (n: SeatNotification) => PendingFor(n, showId, seatNumber))
  }

  /** `n.email.toLowerCase() === email.toLowerCase()` for some pending row. */
  predicate AlreadySubscribed(pending: seq<SeatNotification>, email: string) {
    exists k :: 0 <= k < |pending| && EqualsIgnoreCase(pending[k].email, email)
  }

  // ------------------------------------------------------- keys and lookups

  function ShowKey(s: Show): int { s.id }
  function SeatKey(s: Seat): int { s.id }
  function BookingId(b: Booking): int { b.id }
  function IdempotencyKey(b: Booking): string { b.idempotencyKey }
  function LockId(l: SeatLock): int { l.id }
  function RefundId(f: Refund): int { f.id }
  function UserId(u: User): int { u.id }
  function UserEmail(u: User): string { u.email }

  /** `getShow(id)` */
  function FindShow(shows: seq<Show>, id: int): Option<nat> {
    FirstIndex(shows, (s: Show) => s.id == id)
  }

  /** `getBookingById(id)` */
  function FindBooking(bs: seq<Booking>, id: int): Option<nat> {
    FirstIndex(bs, (b: Booking) => b.id == id)
  }

  /** `getBookingByIdempotencyKey(key)` */
  function FindByIdempotencyKey(bs: seq<Booking>, key: string): Option<nat> {
    FirstIndex(bs, (b: Booking) => b.idempotencyKey == key)
  }

  /** A unique column makes the lookup exact: the row found is the only row
      with that value. */
  lemma FindBookingUnique(bs: seq<Booking>, id: int, i: nat)
    requires KeysDistinct(bs, BookingId) && i < |bs| && bs[i].id == id
    ensures FindBooking(bs, id) == Some(i)
  {
    var k := FindBooking(bs, id);
    if k.Some? && k.value != i {
      assert false;
    }
  }

  /** The UPDATE of a lock's expiry `WHERE id = lockId`. */
  function SetLockExpiryById(locks: seq<SeatLock>, lockId: int, expiresAt: int): (r: seq<SeatLock>)
    ensures |r| == |locks|
  {
    seq(|locks|, i requires 0 <= i < |locks| => if locks[i].id == lockId then locks[i].(expiresAt := expiresAt) else locks[i])
  }

  /** With unique lock ids the update by id changes the one row it was
      aimed at. */
  lemma SetLockExpiryByIdAt(locks: seq<SeatLock>, k: nat, expiresAt: int)
    requires KeysDistinct(locks, LockId) && k < |locks|
    ensures SetLockExpiryById(locks, locks[k].id, expiresAt) == locks[k := locks[k].(expiresAt := expiresAt)]
  {
    forall i | 0 <= i < |locks| && i != k ensures locks[i].id != locks[k].id {
      assert LockId(locks[i]) != LockId(locks[k]);
    }
  }

  /** The lock a refused lock request reports: the first listed (active)
      lock of the show on that seat. */
  function ListedHolder(locks: seq<SeatLock>, showId: int, seatId: int, now: int): Option<SeatLock> {
    var listed := LockedSeats(locks, showId, now);
    match FirstIndex(listed, (l: SeatLock) => l.seatId == seatId)
    case None => None
    case Some(j) => Some(listed[j])
  }

  /** The holder the conflict response reports is the very lock `lockSeat`
      refused on: the first active lock on the seat. */
  lemma {:induction false} ListedHolderIsFirstActive(locks: seq<SeatLock>, showId: int, seatId: int, now: int)
    ensures FirstActive(locks, showId, seatId, now).None? ==> ListedHolder(locks, showId, seatId, now).None?
    ensures FirstActive(locks, showId, seatId, now).Some? ==>
              ListedHolder(locks, showId, seatId, now) == Some(locks[FirstActive(locks, showId, seatId, now).value])
  {
    if locks != [] {
      var tail := locks[1..];
      ListedHolderIsFirstActive(tail, showId, seatId, now);
      var p := (l: SeatLock) => l.showId == showId && ActiveAt(l, now);
      var q := (l: SeatLock) => l.seatId == seatId;
      var listed := LockedSeats(locks, showId, now);
      var rest := LockedSeats(tail, showId, now);
      if p(locks[0]) {
        assert listed == [locks[0]] + rest;
        if q(locks[0]) {
          assert FirstIndex(listed, q) == Some(0);
        } else {
          assert listed[1..] == rest;
          match FirstIndex(rest, q)
          case None =>
          case Some(j) => assert listed[j + 1] == rest[j];
        }
      } else {
        assert listed == rest;
      }
    }
  }

  lemma CleanupEffect(locks: seq<SeatLock>, now: int, l: SeatLock)
    ensures l in CleanupRows(locks, now) <==> l in locks && l.expiresAt >= now
  {
    FilterMembership(locks, (x: SeatLock) => !(x.expiresAt < now), l);
  }
}
