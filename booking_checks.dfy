/** The checks of the booking transaction of POST /api/shows/:id/book
    (server/routes.ts), stated on the tables as they stand when the
    transaction starts: the seat-row count, the lock check and the overlap
    check, in that order, and the HTTP status each failure is answered with. */
module BookingChecks {
  import opened Common
  import opened Tables

  datatype BookError =
    | InvalidRequest
    | InvalidPhone
    | SeatsNotFound
    | LockedByOther(lockedSeatIds: seq<int>)
    | AlreadyBooked(conflictingSeatIds: seq<int>)
    | UnknownShow

  /** Schema and phone failures are 400; the handler maps a thrown error to 409
      only when its message contains "already booked", so a lock conflict, a
      missing seat or the insert's failed show reference is a 500. */
  function ErrorStatus(e: BookError): (code: int)
    ensures code == 409 <==> e.AlreadyBooked?
    ensures code == 400 <==> e.InvalidRequest? || e.InvalidPhone?
    ensures code == 500 <==> e.SeatsNotFound? || e.LockedByOther? || e.UnknownShow?
  {
    match e
    case InvalidRequest => 400
    case InvalidPhone => 400
    case SeatsNotFound => 500
    case LockedByOther(_) => 500
    case AlreadyBooked(_) => 409
    case UnknownShow => 500
  }

  /** `userId ? String(userId) : null`: an absent or empty user id is no caller. */
  function Caller(userId: Option<string>): (r: Option<string>)
    ensures r.Some? <==> userId.Some? && userId.value != ""
    ensures r.Some? ==> r.value == userId.value
  {
    if userId.Some? && userId.value != "" then userId else None
  }

  function LockSeatIds(ls: seq<SeatLock>): (r: seq<int>)
    ensures |r| == |ls| && forall i :: 0 <= i < |ls| ==> r[i] == ls[i].seatId
  {
    seq(|ls|, i requires 0 <= i < |ls| => ls[i].seatId)
  }

  /** `seatIds.filter(id => allBookedIds.includes(id))` */
  function Conflicts(seatIds: seq<int>, booked: seq<int>): seq<int> {
    Filter(seatIds, (x: int) => x in booked)
  }

  /** The three checks in the order the transaction makes them; None when
      every one passes. */
  function TransactionCheck(seats: seq<Seat>, bookings: seq<Booking>, locks: seq<SeatLock>,
                            showId: int, seatIds: seq<int>, caller: Option<string>, now: int): Option<BookError>
  {
    if |SeatsByIds(seats, seatIds)| != |seatIds| then Some(SeatsNotFound)
    else
      var foreign := ForeignLocks(locks, showId, seatIds, caller, now);
      if foreign != [] then Some(LockedByOther(LockSeatIds(foreign)))
      else
        var conflicts := Conflicts(seatIds, BookedSeatIds(bookings, showId));
        if conflicts != [] then Some(AlreadyBooked(conflicts)) else None
  }

  /** A transaction that passes its checks books distinct, existing seats that
      nobody else holds an active lock on and that no live booking of the show
      holds. */
  lemma CheckPassMeans(seats: seq<Seat>, bookings: seq<Booking>, locks: seq<SeatLock>,
                       showId: int, seatIds: seq<int>, caller: Option<string>, now: int)
    requires SeatIdsUnique(seats)
    requires TransactionCheck(seats, bookings, locks, showId, seatIds, caller, now).None?
    ensures NoDup(seatIds)
    ensures forall x :: x in seatIds ==> exists k :: 0 <= k < |seats| && seats[k].id == x
    ensures forall l :: l in locks && ActiveOn(l, showId, l.seatId, now) && l.seatId in seatIds ==>
                          caller.Some? && l.userId == caller.value
    ensures Disjoint(seatIds, BookedSeatIds(bookings, showId))
  {
    CountCheckMeansDistinctAndPresent(seats, seatIds);
    forall l | l in locks && ActiveOn(l, showId, l.seatId, now) && l.seatId in seatIds
      ensures caller.Some? && l.userId == caller.value
    {
      ForeignLocksMembership(locks, showId, seatIds, caller, now, l);
    }
    forall x | x in seatIds ensures x !in BookedSeatIds(bookings, showId) {
      FilterMembership(seatIds, (y: int) => y in BookedSeatIds(bookings, showId), x);
    }
  }

  /** Invariant 1 survives a booking that passed the checks. */
  lemma CheckPassKeepsExclusive(seats: seq<Seat>, bookings: seq<Booking>, locks: seq<SeatLock>,
                                seatIds: seq<int>, caller: Option<string>, now: int, b: Booking)
    requires SeatIdsUnique(seats) && Exclusive(bookings)
    requires TransactionCheck(seats, bookings, locks, b.showId, seatIds, caller, now).None?
    requires b.seatIds == seatIds
    ensures Exclusive(bookings + [b])
  {
    CheckPassMeans(seats, bookings, locks, b.showId, seatIds, caller, now);
    InsertKeepsExclusive(bookings, b);
  }

  /** The row-count check comes first: a repeated id or an id naming no seat
      is "not found", whatever the locks and bookings say. */
  lemma BadIdsNotFound(seats: seq<Seat>, bookings: seq<Booking>, locks: seq<SeatLock>,
                       showId: int, seatIds: seq<int>, caller: Option<string>, now: int)
    requires SeatIdsUnique(seats)
    requires !NoDup(seatIds) || exists x :: x in seatIds && forall k :: 0 <= k < |seats| ==> seats[k].id != x
    ensures TransactionCheck(seats, bookings, locks, showId, seatIds, caller, now) == Some(SeatsNotFound)
  {
    if |SeatsByIds(seats, seatIds)| == |seatIds| {
      CountCheckMeansDistinctAndPresent(seats, seatIds);
      assert false;
    }
  }

  /** Without a caller every active lock on a requested seat of the show
      blocks the booking. */
  lemma NoCallerEveryLockBlocks(seats: seq<Seat>, bookings: seq<Booking>, locks: seq<SeatLock>,
                                showId: int, seatIds: seq<int>, now: int, l: SeatLock)
    requires |SeatsByIds(seats, seatIds)| == |seatIds|
    requires l in locks && ActiveOn(l, showId, l.seatId, now) && l.seatId in seatIds
    ensures TransactionCheck(seats, bookings, locks, showId, seatIds, None, now).Some?
    ensures TransactionCheck(seats, bookings, locks, showId, seatIds, None, now).value.LockedByOther?
  {
    ForeignLocksMembership(locks, showId, seatIds, None, now, l);
  }

  /** A PENDING booking whose hold has run out still blocks its seats: the
      overlap check looks at status only. */
  lemma StaleHoldStillBlocks(seats: seq<Seat>, bookings: seq<Booking>, showId: int, x: int, k: nat, now: int)
    requires |SeatsByIds(seats, [x])| == 1
    requires k < |bookings| && bookings[k].showId == showId && bookings[k].status == Pending
    requires bookings[k].expiresAt.Some? && bookings[k].expiresAt.value < now
    requires x in bookings[k].seatIds
    ensures TransactionCheck(seats, bookings, [], showId, [x], None, now) == Some(AlreadyBooked([x]))
  {
    BookedSeatIdsMembership(bookings, showId, x);
    assert ForeignLocks([], showId, [x], None, now) == [];
    var booked := BookedSeatIds(bookings, showId);
    assert Conflicts([x], booked) == [x] by {
      assert Filter([x], (y: int) => y in booked) == [x] + Filter([x][1..], (y: int) => y in booked);
    }
  }
}
