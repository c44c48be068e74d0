/** The reservation store: the in-memory image of the tables that
    server/storage.ts reads and writes, with the storage methods and the
    route handlers of server/routes.ts that drive them. Every request is one
    atomic step; the clock is the parameter `now` (milliseconds). */
module Store {
  import opened Common
  import opened Text
  import opened Decimal
  import opened Schema
  import opened Tables
  import opened RefundPolicy
  import opened RouteRules
  import opened BookingChecks
  import opened Notifications
  import opened Otp
  import opened SeatLayout

  /** Every key in the table is below the next value the id sequence hands
      out. */
  predicate IdsBelow<T>(s: seq<T>, key: T -> int, next: int) {
    forall i :: 0 <= i < |s| ==> key(s[i]) < next
  }

  /** A table with a serial primary key. */
  predicate TableValid<T>(s: seq<T>, key: T -> int, next: int) {
    KeysDistinct(s, key) && IdsBelow(s, key, next)
  }

  lemma TableAppend<T>(s: seq<T>, x: T, key: T -> int, next: int)
    requires TableValid(s, key, next) && key(x) == next
    ensures TableValid(s + [x], key, next + 1)
  {
    SnocKeysDistinct(s, x, key);
    var t := s + [x];
    forall i | 0 <= i < |t| ensures key(t[i]) < next + 1 {
      if i < |s| { assert t[i] == s[i]; }
    }
  }

  lemma TableFilter<T>(s: seq<T>, p: T -> bool, key: T -> int, next: int)
    requires TableValid(s, key, next)
    ensures TableValid(Filter(s, p), key, next)
  {
    FilterKeysDistinct(s, p, key);
    var r := Filter(s, p);
    forall i | 0 <= i < |r| ensures key(r[i]) < next {
      assert r[i] in s;
    }
  }

  lemma TableSameKeys<T>(s: seq<T>, r: seq<T>, key: T -> int, next: int)
    requires TableValid(s, key, next) && SameKeys(s, r, key)
    ensures TableValid(r, key, next)
  {
    SameKeysDistinct(s, r, key);
  }

  function SeatShow(s: Seat): int {
    s.showId
  }

  datatype BookOutcome =
    | Existing(stored: Booking)
    | Created(booking: Booking)
    | Rejected(error: BookError)

  datatype LockResponse =
    | LockMissingUser
    | LockGranted(lockExpiresAt: int)
    | LockConflict(lockedBy: Option<string>, heldUntil: Option<int>)

  datatype UnlockResponse = UnlockMissingUser | NotLockedByCaller | Unlocked

  datatype CancelOutcome =
    | CancelNotFound
    | NotConfirmed
    | CancelShowNotFound
    | Refunded(refundAmount: real, reason: string, refund: Refund)

  datatype OtpRequestOutcome =
    | OtpRequestInvalid
    | TooManyRequests
    | OtpUserRejected
    | OtpSent(code: string)

  datatype OtpVerifyOutcome =
    | OtpVerifyInvalid
    | OtpUserNotFound
    | OtpRefused(verdict: Verdict)
    | OtpVerified(userId: int)

  /** The passenger record as stored: the phone normalised, or the request is
      refused. */
  function StoredPassenger(passenger: Option<Passenger>): (r: Option<Option<Passenger>>)
    ensures r.None? <==> passenger.Some? && NormalizeBookingPhone(passenger.value.phone).None?
    ensures r.Some? ==> (r.value.Some? <==> passenger.Some?)
    ensures r.Some? && r.value.Some? ==>
              r.value.value == passenger.value.(phone := NormalizeBookingPhone(passenger.value.phone).value)
  {
    if passenger.None? then Some(None)
    else match NormalizeBookingPhone(passenger.value.phone)
      case None => None
      case Some(p) => Some(Some(passenger.value.(phone := p)))
  }

  function GenderOf(passenger: Option<Passenger>): Option<string> {
    if passenger.Some? then Some(passenger.value.gender) else None
  }

  /** The row the booking transaction inserts. */
  function PendingBooking(id: int, showId: int, req: BookSeatsRequest, passenger: Option<Passenger>,
                          total: real, now: int): Booking
  {
    Booking(id, showId, Caller(req.userId), req.seatIds, Pending, total, req.idempotencyKey,
            passenger, NormalizeGender(GenderOf(passenger)), Some(now + BookingHoldMs), None, now)
  }

  /** The lock table after a successful booking: with a caller, the caller's
      locks on the booked seats of the show are gone. */
  function LocksAfterBooking(locks: seq<SeatLock>, showId: int, seatIds: seq<int>, caller: Option<string>): seq<SeatLock> {
    if caller.Some? then ReleaseCallerLocks(locks, showId, seatIds, caller.value) else locks
  }

  /** One entry of GET /api/shows/:showId/locks. */
  datatype LockView = LockView(seatId: int, maskedUserId: string, expiresAt: int)

  /** The public lock list: the show's active locks, holder ids masked. */
  function LockList(locks: seq<SeatLock>, showId: int, now: int): (r: seq<LockView>)
    ensures |r| == |LockedSeats(locks, showId, now)|
    ensures forall i :: 0 <= i < |r| ==>
              r[i].expiresAt > now && 4 <= |r[i].maskedUserId| <= 8
              && r[i].maskedUserId[|r[i].maskedUserId| - 4..] == "****"
    ensures var listed := LockedSeats(locks, showId, now);
            forall i :: 0 <= i < |r| ==>
              && r[i].seatId == listed[i].seatId && r[i].expiresAt == listed[i].expiresAt
              && |r[i].maskedUserId| == (if |listed[i].userId| < 4 then |listed[i].userId| else 4) + 4
              && StartsWith(listed[i].userId, r[i].maskedUserId[..|r[i].maskedUserId| - 4])
  {
    var listed := LockedSeats(locks, showId, now);
    assert forall i :: 0 <= i < |listed| ==> listed[i] in listed;
    seq(|listed|, i requires 0 <= i < |listed| =>
      LockView(listed[i].seatId, MaskUserId(listed[i].userId), listed[i].expiresAt))
  }

  /** JavaScript's `!userId` on the request body: absent or empty. */
  predicate MissingUser(userId: Option<string>) {
    userId.None? || userId.value == ""
  }

  /** Appending a new show's plan keeps seat ids unique and below the
      sequence, keeps every seat on an existing show, and gives the new show
      exactly the plan's rows. */
  lemma AppendPlanKeepsSeats(seats: seq<Seat>, firstId: int, showId: int, nextShowId: int)
    requires SeatIdsUnique(seats) && IdsBelow(seats, SeatKey, firstId)
    requires IdsBelow(seats, SeatShow, showId) && showId < nextShowId
    ensures var t := seats + PlanSeats(firstId, showId);
            && SeatIdsUnique(t) && IdsBelow(t, SeatKey, firstId + PlanSize) && IdsBelow(t, SeatShow, nextShowId)
            && Filter(t, (s: Seat) => s.showId == showId) == PlanSeats(firstId, showId)
  {
    var plan := PlanSeats(firstId, showId);
    var t := seats + plan;
    forall i, j | 0 <= i < j < |t| ensures t[i].id != t[j].id {
      if j < |seats| {
        assert t[i] == seats[i] && t[j] == seats[j];
      } else if i < |seats| {
        assert t[i] == seats[i] && t[j] == plan[j - |seats|];
        assert SeatKey(seats[i]) < firstId;
      } else {
        assert t[i] == plan[i - |seats|] && t[j] == plan[j - |seats|];
      }
    }
    forall i | 0 <= i < |t| ensures SeatKey(t[i]) < firstId + PlanSize && SeatShow(t[i]) < nextShowId {
      if i < |seats| {
        assert t[i] == seats[i];
      } else {
        assert t[i] == plan[i - |seats|];
      }
    }
    var p := (s: Seat) => s.showId == showId;
    FilterAppend(seats, plan, p);
    FilterAllOrNone(seats, p);
    FilterAllOrNone(plan, p);
  }

  class ReservationStore {
    var shows: seq<Show>
    var seats: seq<Seat>
    var bookings: seq<Booking>
    var locks: seq<SeatLock>
    var refunds: seq<Refund>
    var notifications: seq<SeatNotification>
    var users: seq<User>
    var nextShowId: int
    var nextSeatId: int
    var nextBookingId: int
    var nextLockId: int
    var nextRefundId: int
    var nextNotificationId: int
    var nextUserId: int

    /** The unique columns of the schema (primary keys, the booking
        idempotency key, the user e-mail), every id below the next one its
        sequence hands out, and every seat belonging to a show already
        created. */
    ghost predicate Valid()
      reads this
    {
      && TableValid(shows, ShowKey, nextShowId)
      && SeatIdsUnique(seats) && IdsBelow(seats, SeatKey, nextSeatId) && IdsBelow(seats, SeatShow, nextShowId)
      && TableValid(bookings, BookingId, nextBookingId) && KeysDistinct(bookings, IdempotencyKey)
      && TableValid(locks, LockId, nextLockId)
      && TableValid(refunds, RefundId, nextRefundId)
      && TableValid(notifications, NotificationId, nextNotificationId)
      && TableValid(users, UserId, nextUserId) && KeysDistinct(users, UserEmail)
    }

    constructor ()
      ensures Valid()
      ensures shows == [] && seats == [] && bookings == [] && locks == []
      ensures refunds == [] && notifications == [] && users == []
    {
      shows, seats, bookings, locks := [], [], [], [];
      refunds, notifications, users := [], [], [];
      nextShowId, nextSeatId, nextBookingId, nextLockId := 1, 1, 1, 1;
      nextRefundId, nextNotificationId, nextUserId := 1, 1, 1;
    }

    // --------------------------------------------------------------- shows

    /** POST /api/admin/shows once the body has parsed: one show row, then the
        sixty seats of the plan under the next seat ids. The new show's seat
        view is exactly the plan. */
    method CreateShow(source: string, destination: string, departureTime: int) returns (show: Show)
      requires Valid()
      modifies this`shows, this`nextShowId, this`seats, this`nextSeatId
      ensures Valid()
      ensures show == Show(old(nextShowId), source, destination, departureTime)
      ensures shows == old(shows) + [show] && nextShowId == old(nextShowId) + 1
      ensures seats == old(seats) + PlanSeats(old(nextSeatId), show.id)
      ensures nextSeatId == old(nextSeatId) + PlanSize
      ensures Filter(seats, (s: Seat) => s.showId == show.id) == PlanSeats(old(nextSeatId), show.id)
    {
      show := Show(nextShowId, source, destination, departureTime);
      TableAppend(shows, show, ShowKey, nextShowId);
      shows := shows + [show];
      nextShowId := nextShowId + 1;
      var plan := BuildPlan();
      var first := nextSeatId;
      var rows := seq(PlanSize, k requires 0 <= k < PlanSize => SeatRow(first + k, show.id, plan[k]));
      assert rows == PlanSeats(first, show.id);
      AppendPlanKeepsSeats(seats, nextSeatId, show.id, nextShowId);
      seats := seats + rows;
      nextSeatId := nextSeatId + PlanSize;
    }

    // ------------------------------------------------------------ bookings

    /** `getBookedSeatIds(showId)`: the seat ids of the show's PENDING and
        CONFIRMED bookings, accumulated row by row. */
    method GetBookedSeatIds(showId: int) returns (ids: seq<int>)
      ensures ids == BookedSeatIds(bookings, showId)
    {
      ids := [];
      var i := 0;
      while i < |bookings|
        invariant 0 <= i <= |bookings|
        invariant ids == BookedSeatIds(bookings[..i], showId)
      {
        BookedSeatIdsSnoc(bookings[..i], bookings[i], showId);
        assert bookings[..i + 1] == bookings[..i] + [bookings[i]];
        if bookings[i].showId == showId && Live(bookings[i]) {
          ids := ids + bookings[i].seatIds;
        }
        i := i + 1;
      }
      assert bookings[..i] == bookings;
    }

    /** GET /api/shows/:id/seats: the show's seats, each flagged booked exactly
        when a live booking of the show holds it. */
    method SeatsWithStatus(showId: int) returns (view: seq<(Seat, bool)>)
      ensures |view| == |Filter(seats, (s: Seat) => s.showId == showId)|
      ensures forall i :: 0 <= i < |view| ==>
                view[i].0 == Filter(seats, (s: Seat) => s.showId == showId)[i]
                && (view[i].1 <==> exists k :: 0 <= k < |bookings| && bookings[k].showId == showId
                                              && Live(bookings[k]) && view[i].0.id in bookings[k].seatIds)
    {
      var all := Filter(seats, (s: Seat) => s.showId == showId);
      var booked := GetBookedSeatIds(showId);
      view := seq(|all|, i requires 0 <= i < |all| => (all[i], all[i].id in booked));
      forall i | 0 <= i < |view|
        ensures view[i].1 <==> exists k :: 0 <= k < |bookings| && bookings[k].showId == showId
                                          && Live(bookings[k]) && view[i].0.id in bookings[k].seatIds
      {
        BookedSeatIdsMembership(bookings, showId, view[i].0.id);
      }
    }

    /** The three checks of the booking transaction, in their order, run on
        the store's tables: the booked-seat check goes through
        `GetBookedSeatIds`, the loop that gathers the seats of the show's live
        bookings, and the outcome is the one `TransactionCheck` specifies. */
    method CheckTransaction(showId: int, seatIds: seq<int>, caller: Option<string>, now: int)
      returns (err: Option<BookError>)
      ensures err == TransactionCheck(seats, bookings, locks, showId, seatIds, caller, now)
    {
      if |SeatsByIds(seats, seatIds)| != |seatIds| {
        return Some(SeatsNotFound);
      }
      var foreign := ForeignLocks(locks, showId, seatIds, caller, now);
      if foreign != [] {
        return Some(LockedByOther(LockSeatIds(foreign)));
      }
      var booked := GetBookedSeatIds(showId);
      var conflicts := Conflicts(seatIds, booked);
      if conflicts != [] {
        return Some(AlreadyBooked(conflicts));
      }
      return None;
    }

    /** POST /api/shows/:id/book. The checks run in the handler's order and
        the first failure writes nothing (a show id naming no show fails the
        insert's foreign key); success appends one PENDING row
        held for 60 s and drops the caller's locks on the booked seats. */
    method Book(showId: int, req: BookSeatsRequest, passenger: Option<Passenger>, now: int) returns (r: BookOutcome)
      requires Valid()
      modifies this`bookings, this`nextBookingId, this`locks
      ensures Valid()
      ensures !ValidBookSeats(req) ==> r == Rejected(InvalidRequest)
      ensures ValidBookSeats(req) && StoredPassenger(passenger).None? ==> r == Rejected(InvalidPhone)
      ensures r.Existing? <==> ValidBookSeats(req) && StoredPassenger(passenger).Some?
                               && FindByIdempotencyKey(old(bookings), req.idempotencyKey).Some?
      ensures r.Existing? ==> r.stored == old(bookings)[FindByIdempotencyKey(old(bookings), req.idempotencyKey).value]
      ensures ValidBookSeats(req) && StoredPassenger(passenger).Some?
              && FindByIdempotencyKey(old(bookings), req.idempotencyKey).None? ==>
                var check := TransactionCheck(seats, old(bookings), old(locks), showId, req.seatIds,
                                              Caller(req.userId), now);
                if check.Some? then r == Rejected(check.value)
                else if FindShow(shows, showId).None? then r == Rejected(UnknownShow)
                else r.Created?
      ensures r.Created? ==>
                && r.booking == PendingBooking(old(nextBookingId), showId, req, StoredPassenger(passenger).value,
                                               SumPrices(SeatsByIds(seats, req.seatIds)), now)
                && bookings == old(bookings) + [r.booking]
                && nextBookingId == old(nextBookingId) + 1
                && locks == LocksAfterBooking(old(locks), showId, req.seatIds, Caller(req.userId))
      ensures !r.Created? ==> bookings == old(bookings) && locks == old(locks) && nextBookingId == old(nextBookingId)
      ensures Exclusive(old(bookings)) ==> Exclusive(bookings)
    {
      if !ValidBookSeats(req) {
        return Rejected(InvalidRequest);
      }
      var stored := StoredPassenger(passenger);
      if stored.None? {
        return Rejected(InvalidPhone);
      }
      var existing := FindByIdempotencyKey(bookings, req.idempotencyKey);
      if existing.Some? {
        return Existing(bookings[existing.value]);
      }
      r := Transact(showId, req, stored.value, now);
    }

    /** The booking transaction proper, once the request is well formed and
        its idempotency key is new: the checks, the insert and the release of
        the caller's locks. */
    method Transact(showId: int, req: BookSeatsRequest, passenger: Option<Passenger>, now: int) returns (r: BookOutcome)
      requires Valid()
      requires FindByIdempotencyKey(bookings, req.idempotencyKey).None?
      modifies this`bookings, this`nextBookingId, this`locks
      ensures Valid()
      ensures var check := TransactionCheck(seats, old(bookings), old(locks), showId, req.seatIds,
                                            Caller(req.userId), now);
              if check.Some? then r == Rejected(check.value)
              else if FindShow(shows, showId).None? then r == Rejected(UnknownShow)
              else r.Created?
      ensures r.Created? ==>
                && r.booking == PendingBooking(old(nextBookingId), showId, req, passenger,
                                               SumPrices(SeatsByIds(seats, req.seatIds)), now)
                && bookings == old(bookings) + [r.booking]
                && nextBookingId == old(nextBookingId) + 1
                && locks == LocksAfterBooking(old(locks), showId, req.seatIds, Caller(req.userId))
      ensures !r.Created? ==> bookings == old(bookings) && locks == old(locks) && nextBookingId == old(nextBookingId)
      ensures Exclusive(old(bookings)) ==> Exclusive(bookings)
    {
      var caller := Caller(req.userId);
      var err := CheckTransaction(showId, req.seatIds, caller, now);
      if err.Some? {
        return Rejected(err.value);
      }
      if FindShow(shows, showId).None? {
        // bookings.show_id references shows.id: the insert fails
        return Rejected(UnknownShow);
      }
      var b := PendingBooking(nextBookingId, showId, req, passenger, SumPrices(SeatsByIds(seats, req.seatIds)), now);
      if Exclusive(bookings) {
        CheckPassKeepsExclusive(seats, bookings, locks, req.seatIds, caller, now, b);
      }
      InsertBooking(b);
      if caller.Some? {
        ReleaseCallerLocksOf(showId, req.seatIds, caller.value);
      }
      r := Created(b);
    }

    /** `createBooking`: the insert of a row with a fresh id and an unused
        idempotency key. */
    method InsertBooking(b: Booking)
      requires Valid()
      requires b.id == nextBookingId
      requires forall i :: 0 <= i < |bookings| ==> bookings[i].idempotencyKey != b.idempotencyKey
      modifies this`bookings, this`nextBookingId
      ensures Valid()
      ensures bookings == old(bookings) + [b] && nextBookingId == old(nextBookingId) + 1
    {
      TableAppend(bookings, b, BookingId, nextBookingId);
      SnocKeysDistinct(bookings, b, IdempotencyKey);
      bookings := bookings + [b];
      nextBookingId := nextBookingId + 1;
    }

    /** The transaction's delete of the caller's locks on the booked seats. */
    method ReleaseCallerLocksOf(showId: int, seatIds: seq<int>, caller: string)
      requires Valid()
      modifies this`locks
      ensures Valid()
      ensures locks == ReleaseCallerLocks(old(locks), showId, seatIds, caller)
    {
      TableFilter(locks, (l: SeatLock) => !(l.showId == showId && l.seatId in seatIds && l.userId == caller),
                  LockId, nextLockId);
      locks := ReleaseCallerLocks(locks, showId, seatIds, caller);
    }

    /** `confirmBooking(id)` behind POST /api/bookings/:id/confirm: every row
        with the id becomes CONFIRMED at `now` with its hold cleared, whatever
        its status; an unknown id is None (the handler's 404). */
    method Confirm(id: int, now: int) returns (r: Option<Booking>)
      requires Valid()
      modifies this`bookings
      ensures Valid()
      ensures bookings == ConfirmRows(old(bookings), id, now)
      ensures r.None? <==> FindBooking(old(bookings), id).None?
      ensures r.Some? ==> r.value == bookings[FindBooking(old(bookings), id).value]
                          && r.value.id == id && r.value.status == Confirmed
                          && r.value.confirmedAt == Some(now) && r.value.expiresAt.None?
      ensures Exclusive(old(bookings)) && LiveWithId(old(bookings), id) ==> Exclusive(bookings)
    {
      var k := FindBooking(bookings, id);
      if Exclusive(bookings) && LiveWithId(bookings, id) {
        ConfirmLiveKeepsExclusive(bookings, id, now);
      }
      var updated := ConfirmRows(bookings, id, now);
      TableSameKeys(bookings, updated, BookingId, nextBookingId);
      SameKeysDistinct(bookings, updated, IdempotencyKey);
      bookings := updated;
      if k.None? {
        return None;
      }
      return Some(bookings[k.value]);
    }

    /** `expireOldBookings()`, one tick of the expiry worker: PENDING rows
        whose hold ended strictly before `now` become EXPIRED, and their number
        is returned. */
    method ExpireOldBookings(now: int) returns (count: nat)
      requires Valid()
      modifies this`bookings
      ensures Valid()
      ensures bookings == ExpireRows(old(bookings), now)
      ensures count == CountExpirable(old(bookings), now)
      ensures CountExpirable(bookings, now) == 0
      ensures Exclusive(old(bookings)) ==> Exclusive(bookings)
    {
      count := CountExpirable(bookings, now);
      if Exclusive(bookings) {
        ExpireKeepsExclusive(bookings, now);
      }
      var updated := ExpireRows(bookings, now);
      TableSameKeys(bookings, updated, BookingId, nextBookingId);
      SameKeysDistinct(bookings, updated, IdempotencyKey);
      SweepLeavesNothing(bookings, now);
      bookings := updated;
    }

    // --------------------------------------------------------------- locks

    /** `lockSeat`: refuse when the first active lock on the seat is someone
        else's, renew it in place when it is the caller's, insert otherwise. */
    method LockSeat(showId: int, seatId: int, userId: string, expiresAt: int, now: int) returns (lock: Option<SeatLock>)
      requires Valid()
      modifies this`locks, this`nextLockId
      ensures Valid()
      ensures (lock, locks) == LockSeatRows(old(locks), old(nextLockId), showId, seatId, userId, expiresAt, now)
      ensures nextLockId == old(nextLockId) + (if FirstActive(old(locks), showId, seatId, now).None? then 1 else 0)
      ensures LockExclusive(old(locks), now) ==> LockExclusive(locks, now)
    {
      if LockExclusive(locks, now) {
        LockSeatKeepsLockExclusive(locks, nextLockId, showId, seatId, userId, expiresAt, now);
      }
      var k := FirstActive(locks, showId, seatId, now);
      if k.Some? {
        if locks[k.value].userId != userId {
          return None;
        }
        var renewed := locks[k.value].(expiresAt := expiresAt);
        SetLockExpiryByIdAt(locks, k.value, expiresAt);
        var updated := SetLockExpiryById(locks, locks[k.value].id, expiresAt);
        TableSameKeys(locks, updated, LockId, nextLockId);
        locks := updated;
        return Some(renewed);
      }
      var created := SeatLock(nextLockId, showId, seatId, userId, expiresAt);
      TableAppend(locks, created, LockId, nextLockId);
      locks := locks + [created];
      nextLockId := nextLockId + 1;
      lock := Some(created);
    }

    /** POST /api/shows/:showId/seats/:seatId/lock: a user id is required; the
        lock lasts 120 s; a refusal reports the listed holder of the seat. */
    method LockRoute(showId: int, seatId: int, userId: Option<string>, now: int) returns (r: LockResponse)
      requires Valid()
      modifies this`locks, this`nextLockId
      ensures Valid()
      ensures r.LockMissingUser? <==> MissingUser(userId)
      ensures r.LockMissingUser? ==> locks == old(locks) && nextLockId == old(nextLockId)
      ensures !MissingUser(userId) ==>
                var res := LockSeatRows(old(locks), old(nextLockId), showId, seatId, userId.value,
                                        now + SeatLockTtlMs, now);
                locks == res.1 && (r.LockGranted? <==> res.0.Some?)
      ensures r.LockGranted? ==> r.lockExpiresAt == now + SeatLockTtlMs
      ensures r.LockConflict? ==> r.lockedBy.Some? && r.lockedBy.value != userId.value
                                  && r.heldUntil.Some? && r.heldUntil.value > now
      ensures r.LockConflict? ==>
                var h := ListedHolder(old(locks), showId, seatId, now);
                h.Some? && r.lockedBy == Some(h.value.userId) && r.heldUntil == Some(h.value.expiresAt)
      ensures LockExclusive(old(locks), now) ==> LockExclusive(locks, now)
    {
      if MissingUser(userId) {
        return LockMissingUser;
      }
      var lock := LockSeat(showId, seatId, userId.value, now + SeatLockTtlMs, now);
      if lock.Some? {
        return LockGranted(lock.value.expiresAt);
      }
      ListedHolderIsFirstActive(locks, showId, seatId, now);
      var holder := ListedHolder(locks, showId, seatId, now);
      if holder.None? {
        return LockConflict(None, None);
      }
      return LockConflict(Some(holder.value.userId), Some(holder.value.expiresAt));
    }

    /** `unlockSeat`: delete the caller's rows for the seat, active or not;
        true iff a row went. */
    method UnlockSeat(showId: int, seatId: int, userId: string) returns (removed: bool)
      requires Valid()
      modifies this`locks
      ensures Valid()
      ensures locks == UnlockRows(old(locks), showId, seatId, userId)
      ensures removed <==> exists k :: 0 <= k < |old(locks)| && old(locks)[k].showId == showId
                                       && old(locks)[k].seatId == seatId && old(locks)[k].userId == userId
      ensures forall l :: l in old(locks) && l.userId != userId ==> l in locks
    {
      var updated := UnlockRows(locks, showId, seatId, userId);
      forall l | l in locks && l.userId != userId ensures l in updated {
        UnlockEffect(locks, showId, seatId, userId, l);
      }
      UnlockEffect(locks, showId, seatId, userId, SeatLock(0, 0, 0, "", 0));
      TableFilter(locks, (l: SeatLock) => !(l.showId == showId && l.seatId == seatId && l.userId == userId),
                  LockId, nextLockId);
      removed := |updated| < |locks|;
      locks := updated;
    }
  
    /** POST /api/shows/:showId/seats/:seatId/unlock: a user id is required; a
        caller with no row for the seat gets 403. */
    method UnlockRoute(showId: int, seatId: int, userId: Option<string>) returns (r: UnlockResponse)
      requires Valid()
      modifies this`locks
      ensures Valid()
      ensures r.UnlockMissingUser? <==> MissingUser(userId)
      ensures r.UnlockMissingUser? ==> locks == old(locks)
      ensures !MissingUser(userId) ==>
                locks == UnlockRows(old(locks), showId, seatId, userId.value)
                && (r.Unlocked? <==> exists k :: 0 <= k < |old(locks)| && old(locks)[k].showId == showId
                                                 && old(locks)[k].seatId == seatId && old(locks)[k].userId == userId.value)
    {
      if MissingUser(userId) {
        return UnlockMissingUser;
      }
      var removed := UnlockSeat(showId, seatId, userId.value);
      r := if removed then Unlocked else NotLockedByCaller;
    }

    /** `cleanupExpiredLocks()`: delete the locks whose expiry is strictly
        before `now`; the count is the number deleted. */
    method CleanupExpiredLocks(now: int) returns (count: int)
      requires Valid()
      modifies this`locks
      ensures Valid()
      ensures locks == CleanupRows(old(locks), now)
      ensures forall l :: l in locks <==> l in old(locks) && l.expiresAt >= now
      ensures count == |old(locks)| - |locks| && count >= 0
      ensures LockExclusive(old(locks), now) ==> LockExclusive(locks, now)
    {
      var p := (l: SeatLock) => !(l.expiresAt < now);
      TableFilter(locks, p, LockId, nextLockId);
      if LockExclusive(locks, now) {
        FilterKeepsLockExclusive(locks, p, now);
      }
      var updated := CleanupRows(locks, now);
      forall l ensures l in updated <==> l in locks && l.expiresAt >= now {
        CleanupEffect(locks, now, l);
      }
      count := |locks| - |updated|;
      locks := updated;
    }

    // ------------------------------------------------------------ cancelling

    /** `cancelBooking`'s update of the booking row. */
    method MarkCancelled(id: int)
      requires Valid()
      modifies this`bookings
      ensures Valid()
      ensures bookings == CancelRows(old(bookings), id)
      ensures Exclusive(old(bookings)) ==> Exclusive(bookings)
    {
      if Exclusive(bookings) {
        CancelKeepsExclusive(bookings, id);
      }
      var updated := CancelRows(bookings, id);
      TableSameKeys(bookings, updated, BookingId, nextBookingId);
      SameKeysDistinct(bookings, updated, IdempotencyKey);
      bookings := updated;
    }

    /** `cancelBooking`'s insert of the refund row. */
    method InsertRefund(f: Refund)
      requires Valid() && f.id == nextRefundId
      modifies this`refunds, this`nextRefundId
      ensures Valid()
      ensures refunds == old(refunds) + [f] && nextRefundId == old(nextRefundId) + 1
    {
      TableAppend(refunds, f, RefundId, nextRefundId);
      refunds := refunds + [f];
      nextRefundId := nextRefundId + 1;
    }

    /** `cancelBooking(id, amount, reason)`: None for an unknown or already
        CANCELLED booking; otherwise the row becomes CANCELLED and one
        COMPLETED refund row is inserted. */
    method CancelBooking(id: int, amount: real, reason: string, now: int) returns (r: Option<(Booking, Refund)>)
      requires Valid()
      modifies this`bookings, this`refunds, this`nextRefundId
      ensures Valid()
      ensures r.None? <==> FindBooking(old(bookings), id).None?
                           || old(bookings)[FindBooking(old(bookings), id).value].status == Cancelled
      ensures r.None? ==> bookings == old(bookings) && refunds == old(refunds) && nextRefundId == old(nextRefundId)
      ensures r.Some? ==>
                && bookings == CancelRows(old(bookings), id)
                && r.value.0 == bookings[FindBooking(old(bookings), id).value]
                && r.value.0.id == id && r.value.0.status == Cancelled
                && r.value.1 == Refund(old(nextRefundId), id, amount, "COMPLETED", reason, now)
                && refunds == old(refunds) + [r.value.1]
                && nextRefundId == old(nextRefundId) + 1
      ensures Exclusive(old(bookings)) ==> Exclusive(bookings)
    {
      var k := FindBooking(bookings, id);
      if k.None? || bookings[k.value].status == Cancelled {
        return None;
      }
      MarkCancelled(id);
      var refund := Refund(nextRefundId, id, amount, "COMPLETED", reason, now);
      InsertRefund(refund);
      r := Some((bookings[k.value], refund));
    }

    /** The inner loop of the release: each subscription pending for the
        show and the label is e-mailed and then marked sent, unless its send
        fails (its id is in `failed`). */
    method NotifySeat(showId: int, seatLabel: string, failed: set<int>)
      modifies this`notifications
      ensures var pending := PendingNotifications(old(notifications), showId, seatLabel);
              notifications == MarkIds(old(notifications), SentSoFar(pending, |pending|, failed))
    {
      var pending := PendingNotifications(notifications, showId, seatLabel);
      ghost var cur := notifications;
      MarkNothing(cur);
      var j := 0;
      while j < |pending|
        invariant 0 <= j <= |pending|
        invariant notifications == MarkIds(cur, SentSoFar(pending, j, failed))
      {
        if pending[j].id !in failed {
          MarkSentAfterMarkIds(cur, SentSoFar(pending, j, failed), pending[j].id);
          notifications := MarkSent(notifications, pending[j].id);
          assert SentSoFar(pending, j + 1, failed) == SentSoFar(pending, j, failed) + {pending[j].id};
        } else {
          assert SentSoFar(pending, j + 1, failed) == SentSoFar(pending, j, failed);
        }
        j := j + 1;
      }
    }

    /** The release loop of the cancel handler over the released seats. */
    method NotifyReleased(showId: int, released: seq<Seat>, failed: set<int>)
      modifies this`notifications
      ensures notifications == ReleaseNotify(old(notifications), showId, Labels(released), failed)
    {
      ghost var n0 := notifications;
      ReleaseNothing(n0, showId, failed);
      assert Labels(released[..0]) == {};
      var i := 0;
      while i < |released|
        invariant 0 <= i <= |released|
        invariant notifications == ReleaseNotify(n0, showId, Labels(released[..i]), failed)
      {
        ghost var cur := notifications;
        NotifySeat(showId, SeatLabel(released[i].seatNumber), failed);
        ReleaseStep(n0, showId, released, i, failed, cur, notifications);
        i := i + 1;
      }
      assert released[..i] == released;
    }

    /** POST /api/bookings/:id/cancel: 404 for an unknown booking, 400 unless
        it is CONFIRMED, 404 for an unknown show; otherwise the refund is
        quoted from the hours left before departure, the booking is cancelled
        with that refund, and the subscriptions for its seats are released. */
    method CancelRoute(bookingId: int, now: int, failed: set<int>) returns (r: CancelOutcome)
      requires Valid()
      modifies this`bookings, this`refunds, this`nextRefundId, this`notifications
      ensures Valid()
      ensures r.CancelNotFound? <==> FindBooking(old(bookings), bookingId).None?
      ensures r.NotConfirmed? <==> FindBooking(old(bookings), bookingId).Some?
                                   && old(bookings)[FindBooking(old(bookings), bookingId).value].status != Confirmed
      ensures r.CancelShowNotFound? <==>
                FindBooking(old(bookings), bookingId).Some?
                && old(bookings)[FindBooking(old(bookings), bookingId).value].status == Confirmed
                && FindShow(shows, old(bookings)[FindBooking(old(bookings), bookingId).value].showId).None?
      ensures !r.Refunded? ==> bookings == old(bookings) && refunds == old(refunds)
                                && nextRefundId == old(nextRefundId) && notifications == old(notifications)
      ensures r.Refunded? ==>
                var b := old(bookings)[FindBooking(old(bookings), bookingId).value];
                var show := shows[FindShow(shows, b.showId).value];
                var q := Quote(b.totalAmount, HoursUntilDeparture(show.departureTime, now));
                && r.refundAmount == q.amount && r.reason == q.reason
                && r.refund == Refund(old(nextRefundId), bookingId, q.amount, "COMPLETED", q.reason, now)
                && bookings == CancelRows(old(bookings), bookingId)
                && refunds == old(refunds) + [r.refund]
                && notifications == ReleaseNotify(old(notifications), b.showId, Labels(SeatsByIds(seats, b.seatIds)), failed)
      ensures Exclusive(old(bookings)) ==> Exclusive(bookings)
    {
      var k := FindBooking(bookings, bookingId);
      if k.None? {
        return CancelNotFound;
      }
      var b := bookings[k.value];
      if b.status != Confirmed {
        return NotConfirmed;
      }
      var s := FindShow(shows, b.showId);
      if s.None? {
        return CancelShowNotFound;
      }
      var q := Quote(b.totalAmount, HoursUntilDeparture(shows[s.value].departureTime, now));
      var refund := RefundAndRelease(bookingId, q.amount, q.reason, now, failed);
      r := Refunded(q.amount, q.reason, refund);
    }

    /** The refund branch of the cancel handler: the booking is cancelled with
        its refund row, then the subscriptions for its seats are released. */
    method RefundAndRelease(bookingId: int, amount: real, reason: string, now: int, failed: set<int>)
      returns (refund: Refund)
      requires Valid()
      requires FindBooking(bookings, bookingId).Some?
      requires bookings[FindBooking(bookings, bookingId).value].status != Cancelled
      modifies this`bookings, this`refunds, this`nextRefundId, this`notifications
      ensures Valid()
      ensures var b := old(bookings)[FindBooking(old(bookings), bookingId).value];
              && refund == Refund(old(nextRefundId), bookingId, amount, "COMPLETED", reason, now)
              && bookings == CancelRows(old(bookings), bookingId)
              && refunds == old(refunds) + [refund]
              && notifications == ReleaseNotify(old(notifications), b.showId, Labels(SeatsByIds(seats, b.seatIds)), failed)
      ensures Exclusive(old(bookings)) ==> Exclusive(bookings)
    {
      var b := bookings[FindBooking(bookings, bookingId).value];
      var result := CancelBooking(bookingId, amount, reason, now);
      assert result.Some?;
      var released := SeatsByIds(seats, b.seatIds);
      ghost var n0 := notifications;
      NotifyReleased(b.showId, released, failed);
      TableSameKeys(n0, notifications, NotificationId, nextNotificationId);
      refund := result.value.1;
    }

    // -------------------------------------------------------- subscriptions

    /** POST /api/notify-seat: the label is trimmed and upper-cased; an address
        already pending for the show and label, in any letter case, is not
        stored again; otherwise one pending row with the lower-cased address
        is added. */
    method Subscribe(showId: int, seatNumber: string, email: string) returns (saved: bool)
      requires Valid()
      modifies this`notifications, this`nextNotificationId
      ensures Valid()
      ensures saved <==> !AlreadySubscribed(PendingNotifications(old(notifications), showId, SeatLabel(seatNumber)), email)
      ensures saved ==> notifications == old(notifications) + [NewSubscription(old(nextNotificationId), showId, seatNumber, email)]
                        && nextNotificationId == old(nextNotificationId) + 1
      ensures !saved ==> notifications == old(notifications) && nextNotificationId == old(nextNotificationId)
    {
      var seatLabel := SeatLabel(seatNumber);
      var pending := PendingNotifications(notifications, showId, seatLabel);
      if AlreadySubscribed(pending, email) {
        return false;
      }
      var row := NewSubscription(nextNotificationId, showId, seatNumber, email);
      InsertNotification(row);
      saved := true;
    }

    /** `createSeatNotification(row)`: the row is appended under the next id. */
    method InsertNotification(row: SeatNotification)
      requires Valid() && row.id == nextNotificationId
      modifies this`notifications, this`nextNotificationId
      ensures Valid()
      ensures notifications == old(notifications) + [row] && nextNotificationId == old(nextNotificationId) + 1
    {
      TableAppend(notifications, row, NotificationId, nextNotificationId);
      notifications := notifications + [row];
      nextNotificationId := nextNotificationId + 1;
    }

    // ------------------------------------------------------------------ OTP

    /** `resetOtpAttempts*`: the matching rows' counters go to 0. */
    method ResetUsers(key: UserKey)
      requires Valid()
      modifies this`users
      ensures Valid() && users == ResetAll(old(users), key)
    {
      var reset := ResetAll(users, key);
      TableSameKeys(users, reset, UserId, nextUserId);
      SameKeysDistinct(users, reset, UserEmail);
      users := reset;
    }

    /** `incrementOtpAttempts*`: the matching rows' counters go up by one. */
    method BumpUsers(key: UserKey)
      requires Valid()
      modifies this`users
      ensures Valid() && users == BumpAll(old(users), key)
    {
      var bumped := BumpAll(users, key);
      TableSameKeys(users, bumped, UserId, nextUserId);
      SameKeysDistinct(users, bumped, UserEmail);
      users := bumped;
    }

    /** `updateUserOtp*`: the matching rows get the code and its expiry. */
    method IssueUsers(key: UserKey, code: string, now: int)
      requires Valid()
      modifies this`users
      ensures Valid() && users == IssueAll(old(users), key, code, now)
    {
      var issued := IssueAll(users, key, code, now);
      TableSameKeys(users, issued, UserId, nextUserId);
      SameKeysDistinct(users, issued, UserEmail);
      users := issued;
    }

    /** `createUser` / `createUserWithEmail`, for an e-mail not yet taken. */
    method CreateUser(key: UserKey)
      requires Valid()
      requires forall i :: 0 <= i < |users| ==> users[i].email != NewUserEmail(key)
      modifies this`users, this`nextUserId
      ensures Valid()
      ensures users == old(users) + [NewUser(old(nextUserId), key)] && nextUserId == old(nextUserId) + 1
    {
      var created := NewUser(nextUserId, key);
      TableAppend(users, created, UserId, nextUserId);
      SnocKeysDistinct(users, created, UserEmail);
      users := users + [created];
      nextUserId := nextUserId + 1;
    }

    /** POST /api/auth/request-otp and /request-otp-email. A phone or an
        e-mail must match its schema (400 otherwise); the first matching user is rate limited (429) or, past the
        window, has its counter reset; an unknown user is created (a clash on
        the unique e-mail is a store error); then a random code in
        1000..9999 is issued to every matching row for three minutes. */
    method RequestOtp(key: UserKey, now: int) returns (r: OtpRequestOutcome)
      requires Valid()
      modifies this`users, this`nextUserId
      ensures Valid()
      ensures r.OtpRequestInvalid? <==> !RequestKeyValid(key)
      ensures !r.OtpSent? ==> users == old(users) && nextUserId == old(nextUserId)
      ensures !r.OtpRequestInvalid? ==>
                var k := FindUser(old(users), key);
                && (r.TooManyRequests? <==> k.Some? && RateLimited(old(users)[k.value], now))
                && (r.OtpUserRejected? <==> k.None? && exists i :: 0 <= i < |old(users)| && old(users)[i].email == NewUserEmail(key))
      ensures r.OtpSent? ==>
                && ValidOtpCode(r.code) && AllDigits(r.code)
                && (exists n :: 1000 <= n <= 9999 && r.code == NatToString(n))
                && var k := FindUser(old(users), key);
                   var base := if k.None? then old(users) + [NewUser(old(nextUserId), key)]
                               else if ResetDue(old(users)[k.value], now) then ResetAll(old(users), key)
                               else old(users);
                   users == IssueAll(base, key, r.code, now)
                   && nextUserId == old(nextUserId) + (if k.None? then 1 else 0)
    {
      if !RequestKeyValid(key) {
        return OtpRequestInvalid;
      }
      var k := FindUser(users, key);
      if k.Some? {
        var u := users[k.value];
        if RateLimited(u, now) {
          return TooManyRequests;
        }
        if ResetDue(u, now) {
          ResetUsers(key);
        }
      } else {
        if exists i :: 0 <= i < |users| && users[i].email == NewUserEmail(key) {
          return OtpUserRejected;
        }
        CreateUser(key);
      }
      var n :| 1000 <= n <= 9999;
      var code := NatToString(n);
      IssuedCodesPassSchema(n);
      IssueUsers(key, code, now);
      r := OtpSent(code);
    }

    /** POST /api/auth/verify-otp and /verify-otp-email: the code must be four
        characters and an e-mail must match its schema (400 otherwise; a
        phone is any string); an unknown user is 404; then the verdict on the first
        matching user: a mismatch bumps every matching row's counter, a match
        resets it, and the other refusals write nothing. */
    method VerifyOtp(key: UserKey, code: string, now: int) returns (r: OtpVerifyOutcome)
      requires Valid()
      modifies this`users
      ensures Valid()
      ensures r.OtpVerifyInvalid? <==> !ValidOtpCode(code) || !VerifyKeyValid(key)
      ensures ValidOtpCode(code) && VerifyKeyValid(key) ==>
                var k := FindUser(old(users), key);
                && (r.OtpUserNotFound? <==> k.None?)
                && (k.Some? ==>
                      var v := CheckCode(old(users)[k.value], code, now);
                      && (v == OtpMatch ==> r == OtpVerified(old(users)[k.value].id) && users == ResetAll(old(users), key))
                      && (v == OtpMismatch ==> r == OtpRefused(v) && users == BumpAll(old(users), key))
                      && (v != OtpMatch && v != OtpMismatch ==> r == OtpRefused(v)))
      ensures !(r.OtpVerified? || r == OtpRefused(OtpMismatch)) ==> users == old(users)
    {
      if !ValidOtpCode(code) || !VerifyKeyValid(key) {
        return OtpVerifyInvalid;
      }
      var k := FindUser(users, key);
      if k.None? {
        return OtpUserNotFound;
      }
      var u := users[k.value];
      var v := CheckCode(u, code, now);
      if v == OtpMismatch {
        BumpUsers(key);
        return OtpRefused(v);
      }
      if v == OtpMatch {
        ResetUsers(key);
        return OtpVerified(u.id);
      }
      r := OtpRefused(v);
    }
}
}
