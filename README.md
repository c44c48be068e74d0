# smart-ticket seat reservation, modelled in Dafny

smart-ticket sells bus seats. An admin creates a show, a departure from one
city to another, and the server lays out its 60 seats: a lower deck of
ladies' and standard seats and an upper deck of sleepers. A traveller opens
the seat map, which live updates keep current. They lock seats for two
minutes, fill in passenger details and book. The booking is then held
PENDING for one minute until it is confirmed. An expiry worker turns stale
holds into EXPIRED rows. A confirmed booking can be cancelled for a refund
that shrinks as departure nears. Cancelling releases the seats and e-mails
everyone who asked to hear when one of those seats came free. Login is by
a one-time code sent to a phone or an e-mail address.

The model has three parts:

- **The store and its handlers** (`store.dfy`). The `ReservationStore`
  class holds the tables (shows, seats, bookings, seat locks, refunds, seat
  notifications and users) as sequences, along with the id sequences. Each
  storage function and each route handler is a method. Its `modifies`
  clause names the store, and its `ensures` give the new tables in terms of
  pure functions over the old ones.
- **The pure cores.** `tables.dfy` holds the table functions and the
  invariants. Invariant 1 is `Exclusive`: no seat is held by two live
  bookings of a show. Invariant 2 is `LockExclusive`: at most one active
  lock per seat. The other pure files are `booking_checks.dfy`,
  `refund_policy.dfy`, `otp.dfy`, `notifications.dfy`, `schema.dfy`,
  `route_rules.dfy`, `seat_layout.dfy` and `booking_email.dfy`.
- **The client logic.** The passenger form (`passenger_form.dfy`), the fare
  breakdown (`fare_breakdown.dfy`), the refund preview (`trip_details.dfy`),
  local dates (`date_local.dfy`), the sample-trip search
  (`sample_trips.dfy`), seat selection and row grouping
  (`seat_selection.dfy`), the pickup/drop wizard (`pickup_drop.dfy`) and the
  journey progress of the map widget (`map_mock.dfy`). `live_updates.dfy`
  models the server's list of subscribed seat-map streams.

Shared helpers are in `common.dfy`, `text.dfy` and `decimal.dfy`.

Some behaviour of the code is modelled exactly as written, even where it
weakens the invariants:

- Confirming looks a booking up by id only. It revives an EXPIRED or
  CANCELLED booking as CONFIRMED, even when its seats were resold in the
  meantime. `Tables.ConfirmRevivalBreaksExclusive` exhibits such a table.
  Invariant 1 is proved to survive a confirm only when the booking is still
  live.
- The overlap check of the booking transaction looks at status only. A
  PENDING row whose hold has run out keeps blocking its seats until the
  expiry worker's next tick (`BookingChecks.StaleHoldStillBlocks`).
- The seat-id lookup of the transaction does not check that the seats
  belong to the requested show. Only the row count is compared.
- The handler answers 409 only for "already booked". A seat locked by
  someone else, a missing seat or an unknown show is a 500.
- The OTP verify handler never consults the attempt counter, and a matching
  code stays valid after use until it expires.

The seat-notification storage functions (`getPendingNotifications`,
`markNotificationSent`, `createSeatNotification`) are not part of this
model's source files: server/storage.ts does not contain them. They are
modelled from their use in server/routes.ts, as a filter on pending rows
for a show and label, an update of one row to sent, and an insert. The
same holds for the seat-lock and refund tables and for the bookings'
`gender` and `passengerDetails` columns: shared/schema.ts does not define
them, so their shapes are taken from their use in server/storage.ts and
server/routes.ts.

The booking handler reads a `passenger` object from the parsed body and
checks its phone. `bookSeatsSchema` (shared/schema.ts:88-92) declares no
`passenger` key, and zod's default object parsing drops unknown keys, so as
written the parsed body never carries one. The model takes the handler at
its use site instead: the passenger is a separate parameter of `Book`, and
the phone check and normalisation run whenever one is given.

The clock is a parameter `now` in milliseconds. The random four-digit code
is a parameter `n` in 1000..9999. The set of notification ids whose e-mail
fails to send is a parameter `failed`.

## Model

| member | source | states |
|---|---|---|
| Store.ReservationStore.constructor | shared/schema.ts:5-55 | the store starts with every table empty, and the uniqueness and id-sequence invariant holds |
| Store.ReservationStore.CreateShow | server/routes.ts:70-122 | one show row with the next id is appended; the show's seats are exactly the 60-seat plan under fresh ids; seat ids stay unique |
| Store.AppendPlanKeepsSeats | server/routes.ts:79-114 | appending a new show's plan keeps seat ids unique and below the id sequence |
| Store.ReservationStore.GetBookedSeatIds | server/storage.ts:130-148 | the loop returns the seat ids of the show's PENDING and CONFIRMED bookings, in table order |
| Store.ReservationStore.SeatsWithStatus | server/routes.ts:124-141 | one entry per seat of the show, flagged booked exactly when a live booking of the show holds that seat |
| Store.ReservationStore.CheckTransaction | server/routes.ts:169-218 | the transaction's checks return the first failure in the order the handler makes them: seat count, foreign locks, overlap |
| Store.ReservationStore.Book | server/routes.ts:143-267 | schema failure and bad phone are refused first; a known idempotency key returns the stored booking unchanged; otherwise the check ladder decides, and on success a PENDING row held for 60 s is inserted and the caller's locks on those seats are released; nothing changes on refusal; invariant 1 is kept |
| Store.ReservationStore.Transact | server/routes.ts:169-256 | with a fresh idempotency key, a booking is created exactly when the checks pass; the row carries the normalised passenger and gender and the summed price; invariant 1 is kept |
| Store.StoredPassenger | server/routes.ts:155-162 | a passenger whose phone has fewer than ten digits refuses the request; otherwise the stored phone is the normalised one and the other fields are kept |
| Store.ReservationStore.InsertBooking | server/storage.ts:102-105 | the row is appended under the next booking id |
| Store.ReservationStore.ReleaseCallerLocksOf | server/routes.ts:242-253 | exactly the caller's locks on the booked seats of the show are deleted |
| Store.ReservationStore.Confirm | server/storage.ts:107-114 | every row with the id becomes CONFIRMED with its confirmation time; the result is absent exactly when no row has the id; invariant 1 is kept when the booking was live |
| Store.ReservationStore.ExpireOldBookings | server/storage.ts:116-128 | PENDING rows past their hold become EXPIRED; the count returned is the number of such rows; afterwards none is left; invariant 1 is kept |
| Store.ReservationStore.LockSeat | server/storage.ts:232-265 | refused when someone else holds the first active lock; the holder's own lock is extended; otherwise a new lock row is inserted; invariant 2 is kept |
| Store.ReservationStore.LockRoute | server/routes.ts:568-600 | a missing user id is a 400 and changes nothing; a grant expires 120 s from now; a conflict reports the seat's first listed active lock, whose holder is not the caller, with its holder and expiry; invariant 2 is kept |
| Store.ReservationStore.UnlockSeat | server/storage.ts:267-279 | the caller's rows for the seat are deleted, active or not; the result is true exactly when such a row existed; other users' locks are untouched |
| Store.ReservationStore.UnlockRoute | server/routes.ts:603-626 | a missing user id is a 400 and changes nothing; otherwise 403 exactly when the caller had no lock on the seat |
| Store.LockList | server/routes.ts:629-644 | entry i of the public list carries the seat and expiry of the show's i-th active lock, and a mask made of at most the first four characters of that lock's holder id followed by four asterisks |
| Store.ReservationStore.CleanupExpiredLocks | server/storage.ts:293-299 | exactly the locks with expiry before now are deleted, and the count is the number removed; invariant 2 is kept |
| Store.ReservationStore.MarkCancelled | server/storage.ts:311-322 | the booking row becomes CANCELLED; invariant 1 is kept |
| Store.ReservationStore.InsertRefund | server/storage.ts:324-334 | the refund row is appended under the next refund id |
| Store.ReservationStore.CancelBooking | server/storage.ts:302-337 | absent exactly for an unknown or already CANCELLED booking, and then nothing changes; otherwise the booking row becomes CANCELLED and one COMPLETED refund row with the amount and reason is appended |
| Store.ReservationStore.CancelRoute | server/routes.ts:675-773 | 404 for an unknown booking, 400 unless it is CONFIRMED, 404 for an unknown show; the refund follows the tier of the hours left; the seats are released and pending subscriptions for them are e-mailed and marked; nothing changes unless a refund is made; invariant 1 is kept |
| Store.ReservationStore.RefundAndRelease | server/routes.ts:717-757 | the booking is cancelled with its refund, and the subscriptions table is the release of the booking's seat labels |
| Store.ReservationStore.NotifySeat | server/routes.ts:743-754 | the inner loop marks sent exactly the pending subscriptions for the label whose e-mail succeeds |
| Store.ReservationStore.NotifyReleased | server/routes.ts:738-757 | the outer loop leaves the subscriptions table equal to the release over all the booking's seat labels |
| Store.ReservationStore.Subscribe | server/routes.ts:1018-1050 | a row is saved exactly when the address, ignoring case, is not already pending for the show and the normalised label; the saved row is the normalised subscription |
| Store.ReservationStore.InsertNotification | server/routes.ts:1037-1043 | the subscription row is appended under the next id |
| Store.ReservationStore.ResetUsers | server/storage.ts:176-181 | the matching users' attempt counters go to 0 and nothing else changes |
| Store.ReservationStore.BumpUsers | server/storage.ts:169-174 | the matching users' attempt counters go up by one and nothing else changes |
| Store.ReservationStore.IssueUsers | server/storage.ts:160-167 | the matching users get the code, an expiry three minutes ahead and the request time |
| Store.ReservationStore.CreateUser | server/storage.ts:155-158 | one new user row under the next id, found by the key it was created for |
| Store.ReservationStore.RequestOtp | server/routes.ts:338-384 | a phone failing its pattern or an e-mail failing the e-mail schema (routes.ts:447-452) is a 400; a user with three attempts inside ten minutes is refused with 429; past the window the counter resets first; an unknown user is created, and a clash with an existing e-mail is refused; on success every matching row holds the new four-digit code with a 3-minute expiry and the request time, and the counter is not raised |
| Store.ReservationStore.VerifyOtp | server/routes.ts:386-425 | a code that is not four characters, or an e-mail failing the e-mail schema (routes.ts:502-507), is a 400; an unknown user is a 404; otherwise the verdict follows the ladder (no code, expired, mismatch, match); a match resets the counter, a mismatch bumps it, and the other refusals write nothing |
| Tables.BookedSeatIdsMembership | server/storage.ts:130-148 | a seat id is booked for a show exactly when some PENDING or CONFIRMED booking of that show holds it |
| Tables.ExclusiveIffBookedDistinct | shared/schema.ts:33-44 | invariant 1 holds exactly when every show's booked-seat list has no repeats |
| Tables.InsertKeepsExclusive | server/routes.ts:200-241 | inserting a booking whose seats are distinct and not yet booked keeps invariant 1 |
| Tables.DemotionKeepsExclusive | server/storage.ts:116-128 | changing only live rows into non-live ones keeps invariant 1 |
| Tables.ConfirmLiveKeepsExclusive | server/storage.ts:107-114 | confirming a booking that is still live keeps invariant 1 |
| Tables.ConfirmRevivalBreaksExclusive | server/storage.ts:107-114 | confirming an expired booking whose seat was rebooked breaks invariant 1 |
| Tables.SweepLeavesNothing | server/storage.ts:116-128 | after the expiry sweep no row remains expirable |
| Tables.ExpireKeepsExclusive | server/storage.ts:116-128 | the expiry sweep keeps invariant 1 |
| Tables.CancelKeepsExclusive | server/storage.ts:311-322 | cancelling keeps invariant 1 |
| Tables.CountCheckMeansDistinctAndPresent | server/storage.ts:87-90 | when the seat lookup returns as many rows as ids were asked for, the ids are distinct and each names a seat |
| Tables.LockExclusiveLater | server/storage.ts:232-265 | invariant 2 at one time holds at every later time |
| Tables.LockSeatRows | server/storage.ts:232-265 | a refusal leaves the table as it was; a grant returns a row in the new table with the requested expiry; invariant 2 is kept |
| Tables.LockSeatRowCount | server/storage.ts:232-265 | the table grows by one row only when nobody holds an active lock on the seat |
| Tables.LockSeatKeepsLockExclusive | server/storage.ts:232-265 | locking a seat keeps invariant 2 |
| Tables.UnlockEffect | server/storage.ts:267-279 | exactly the caller's rows for the seat disappear, and the table shrinks exactly when one existed |
| Tables.LockDeadlineBoundary | server/storage.ts:281-299 | a lock that expires exactly now is no longer listed as active but is not yet cleaned up |
| Tables.ForeignLocksMembership | server/routes.ts:180-198 | a lock blocks a booking exactly when it is active, for the show and a requested seat, and its holder is not the caller |
| Tables.ReleaseCallerLocksEffect | server/routes.ts:242-253 | a lock survives the booking exactly unless it is the caller's lock on a booked seat of the show |
| Tables.SubseqKeepsLockExclusive | server/storage.ts:267-299 | deleting lock rows keeps invariant 2 |
| Tables.FindBookingUnique | server/storage.ts:302-305 | with unique ids, the lookup finds the row with that id |
| Tables.SetLockExpiryByIdAt | server/storage.ts:244-252 | with unique lock ids, extending a lock changes that row's expiry and nothing else |
| Tables.ListedHolderIsFirstActive | server/routes.ts:583-590 | the holder the conflict answer reports is the lock the store refused on |
| Tables.CleanupEffect | server/storage.ts:293-299 | a lock survives cleanup exactly when it expires at or after now |
| BookingChecks.ErrorStatus | server/routes.ts:258-266 | 409 exactly for "already booked"; 400 exactly for schema and phone failures; 500 for everything else |
| BookingChecks.Caller | server/routes.ts:193 | an absent or empty user id is no caller |
| BookingChecks.CheckPassMeans | server/routes.ts:169-218 | a passing check means distinct existing seats, no active lock of another holder on them, and none booked by a live booking of the show |
| BookingChecks.CheckPassKeepsExclusive | server/routes.ts:169-241 | a booking that passed the checks keeps invariant 1 |
| BookingChecks.BadIdsNotFound | server/routes.ts:170-178 | a repeated or unknown seat id is reported as not found before any lock or overlap check |
| BookingChecks.NoCallerEveryLockBlocks | server/routes.ts:180-198 | without a caller, every active lock on a requested seat blocks the booking |
| BookingChecks.StaleHoldStillBlocks | server/routes.ts:200-218 | a PENDING booking past its hold still blocks its seats |
| RefundPolicy.Quote | server/routes.ts:694-715 | the refund is never negative, never more than the total, and never more than the total less the fee |
| RefundPolicy.QuoteTiers | server/routes.ts:694-715 | under 2 h nothing is refunded; from 2 h to under 24 h half the total less the fee; from 24 h the total less the fee |
| RefundPolicy.QuoteBoundaries | server/routes.ts:694-715 | exactly 2 h is the partial tier and exactly 24 h the full tier |
| RefundPolicy.QuoteExamples | server/routes.ts:694-715 | for a total of 1000: 0 at 1 h, 450 at 10 h, 950 at 48 h |
| RefundPolicy.QuoteMonotone | server/routes.ts:694-715 | cancelling earlier never refunds less |
| RefundPolicy.TierOnMilliseconds | server/routes.ts:694-707 | the tier read off hours is the tier read off milliseconds against 2 h and 24 h |
| Otp.IssueAll | server/storage.ts:160-167 | matching rows get the code, an expiry three minutes on and the request time; ids, phones, e-mails and counters are kept; other rows are unchanged |
| Otp.ResetAll | server/storage.ts:176-181 | matching rows' counters become 0; ids, phones, e-mails and OTP columns are kept; other rows are unchanged |
| Otp.BumpAll | server/storage.ts:169-174 | matching rows' counters grow by one; ids, phones, e-mails and OTP columns are kept; other rows are unchanged |
| Otp.FindUserKept | server/storage.ts:150-181 | an update that keeps ids, phones and e-mails leaves the user lookup finding the same row |
| Otp.IssuedCodeMatches | server/routes.ts:373-411 | after a code is issued, the user the verify handler finds holds it: it matches until the deadline, any other code is a mismatch, and both are expired after it |
| Otp.ResetLiftsLimit | server/routes.ts:349-359 | after a reset the user found is neither rate limited nor due for a reset, and no verdict changes |
| Otp.BumpCountsOnce | server/routes.ts:400-406 | a mismatch raises the found user's counter by exactly one and changes no verdict |
| Otp.IssuedCodeLifetime | server/routes.ts:373-411 | an issued code verifies up to its deadline inclusive, any other code is a mismatch, and both are expired after the deadline |
| Otp.CheckIgnoresAttempts | server/routes.ts:400-411 | the verdict does not depend on the attempt counter |
| Otp.MatchIsReplayable | server/routes.ts:400-413 | a code that matched still matches later until its expiry |
| Otp.RateLimitLapses | server/routes.ts:349-359 | a rate-limited user is served again once ten minutes have passed, with the counter reset |
| Otp.NewUser | server/storage.ts:155-158 | a created user is found by its key and starts with no code and no attempts |
| Otp.ThreeLabelDomain | shared/schema.ts:103-105 | two labels and a top-level domain joined by dots form a valid domain with no '@' |
| Otp.PlaceholderDomainValid | server/routes.ts:364 | the domain of a phone user's placeholder e-mail is a valid domain |
| Otp.PhoneIsLocalPart | shared/schema.ts:94-96 | a phone that passes the request schema is a valid local part of an e-mail, with no '@' |
| Otp.PlaceholderEmailValid | server/routes.ts:360-368 | the placeholder e-mail of a phone user passes the e-mail schema |
| Notifications.MarkIds | server/routes.ts:748 | exactly the rows with the given ids become sent; ids, shows, labels and e-mails stay |
| Notifications.MarkSentAfterMarkIds | server/routes.ts:748 | marking one more id equals marking the larger id set |
| Notifications.ReleaseOneMore | server/routes.ts:743-754 | sending for one more label extends the release by that label |
| Notifications.ReleaseNotifyEffect | server/routes.ts:738-757 | with unique ids the release marks exactly the pending rows of the show for a released label whose send succeeds |
| Notifications.SubscribeDeduplicates | server/routes.ts:1027-1036 | once subscribed, the same address in any letter case for the same label is recognised as already subscribed |
| Notifications.ReleaseNothing | server/routes.ts:738-757 | releasing no seats changes no subscription |
| Notifications.ReleaseStep | server/routes.ts:738-757 | one round of the outer loop extends the release to the next released seat |
| Schema.OtpPhoneIsE164 | shared/schema.ts:94-96 | the phone pattern accepts exactly an optional '+', then a non-zero digit and 1 to 14 more digits |
| Schema.IssuedCodesPassSchema | shared/schema.ts:98-101 | every code the request handler issues passes the verify schema |
| Schema.EmailSplits | shared/schema.ts:103-110 | an address with a single '@' passes the e-mail schema exactly when its halves are a valid local part and a valid domain |
| Schema.NoAtRefused | shared/schema.ts:103-105 | an address without '@' is refused |
| Schema.PlainAddressAccepted | shared/schema.ts:103-105 | a plain address with a two-letter top-level domain is accepted |
| Schema.PlainDomain | shared/schema.ts:103-105 | a label, a dot and a two-letter top level form a valid domain |
| Schema.DotlessDomainRefused | shared/schema.ts:103-105 | a domain without a dot is refused |
| Schema.LeadingDotRefused | shared/schema.ts:103-105 | a local part starting with a dot is refused |
| RouteRules.NormalizeBookingPhone | server/routes.ts:155-162 | refused exactly with fewer than ten digits; exactly ten digits become "+91" and the digits, more than ten become '+' and the digits |
| RouteRules.BookingPhoneIdempotent | server/routes.ts:155-162 | normalising a normalised phone gives it back |
| RouteRules.NormalizeGender | server/routes.ts:223-225 | the stored gender is always one of the four allowed; an allowed one in any case is kept lower-cased; none, or one outside the list, is "unknown" |
| RouteRules.GenderIdempotent | server/routes.ts:223-225 | normalising a stored gender changes nothing |
| RouteRules.SeatLabel | server/routes.ts:743 | the label is the trimmed input with each character upper-cased, so it has no edge spaces and no lower-case letters |
| RouteRules.SeatLabelIdempotent | server/routes.ts:1027 | normalising a label again is the identity, so subscribe and release agree on the key |
| RouteRules.MaskUserId | server/routes.ts:634-638 | the masked id is at most four characters of the id followed by four stars |
| RouteRules.MaskHidesTail | server/routes.ts:634-638 | ids that agree on their first four characters mask alike |
| RouteRules.PhoneUserEmail | server/routes.ts:360-371 | the placeholder address starts with the phone number |
| SeatLayout.BuildPlan | server/routes.ts:79-114 | the nested loops produce exactly the 60-seat plan, seat by seat |
| SeatLayout.BuildLowerDeck | server/routes.ts:83-99 | the lower-deck loops, which skip the aisle column 3, produce the first 30 plan seats |
| SeatLayout.AddUpperDeck | server/routes.ts:101-114 | the upper-deck loops extend the lower deck to the full plan |
| SeatLayout.LabelInjective | server/routes.ts:88-105 | different deck, row or column give different seat labels |
| SeatLayout.PlanLabelsDistinct | server/routes.ts:79-114 | no two seats of the plan share a label |
| SeatLayout.PlanPricing | server/routes.ts:83-114 | the first six seats are ladies' at 550, the rest of the lower deck standard at 500, the upper deck sleepers at 800 |
| SeatLayout.PlanSeatsDistinct | server/routes.ts:116 | the created seat rows have distinct ids and labels |
| LiveUpdates.Registry.constructor | server/routes.ts:28-33 | no stream is registered at start |
| LiveUpdates.Registry.Connect | server/routes.ts:427-436 | a new stream is appended for its show |
| LiveUpdates.Registry.Close | server/routes.ts:438-443 | the loop removes the first entry of the closed connection and nothing else |
| LiveUpdates.Registry.Broadcast | server/routes.ts:35-41 | the loop writes to exactly the streams of the show |
| LiveUpdates.CloseKeepsOthers | server/routes.ts:438-443 | closing one connection leaves every other connection's entries in order |
| LiveUpdates.CloseDropsOne | server/routes.ts:438-443 | closing removes one entry of a registered connection and changes nothing otherwise |
| LiveUpdates.ConnectThenClose | server/routes.ts:427-444 | connecting and then closing a new connection restores the registry |
| LiveUpdates.ConnectJoinsAudience | server/routes.ts:35-41 | a new stream receives its show's broadcasts and no other show's audience changes |
| BookingEmail.MaskIdNumber | server/lib/booking-email.ts:40-47 | six or more characters show two at each end around four stars; four or five show one at each end; shorter ids are all stars |
| BookingEmail.MaskHidesSome | server/lib/booking-email.ts:40-47 | the mask shows at most four characters and hides at least two |
| BookingEmail.MaskDependsOnlyOnShown | server/lib/booking-email.ts:40-47 | ids that agree on the shown characters mask alike |
| BookingEmail.FormatGender | server/lib/booking-email.ts:49-51 | the first letter is upper-cased and the rest kept |
| BookingEmail.FormatGenderIdempotent | server/lib/booking-email.ts:49-51 | formatting twice is formatting once |
| BookingEmail.StoredGendersFormatted | server/lib/booking-email.ts:49-51 | the four stored genders print as Male, Female, Other and Unknown |
| PassengerForm.LastTen | client/src/components/PassengerDetailsModal.tsx:40-49 | at most ten characters, taken from the end |
| PassengerForm.NormalizePhone | client/src/components/PassengerDetailsModal.tsx:40-49 | the result is '+' and digits: the prefix and at most the last ten digits typed |
| PassengerForm.PrefixedDigits | client/src/components/PassengerDetailsModal.tsx:40-49 | the digits of "+91" and a ten-digit tail are "91" and the tail |
| PassengerForm.BookingPhoneKeepsPrefixed | server/routes.ts:156-162 | the server's normalisation keeps "+91" followed by ten digits unchanged |
| PassengerForm.NormalizePhoneIdempotent | client/src/components/PassengerDetailsModal.tsx:40-49 | with ten or more digits typed, normalising the normalised phone changes nothing |
| PassengerForm.NormalizedPhoneShape | client/src/components/PassengerDetailsModal.tsx:40-49 | with ten or more digits the normalised phone is "+91" and the last ten digits |
| PassengerForm.PhoneError | client/src/components/PassengerDetailsModal.tsx:58-63 | the phone has no message exactly when it is non-empty and holds ten or more digits |
| PassengerForm.IdNumberError | client/src/components/PassengerDetailsModal.tsx:69-77 | the document number has no message exactly when it has four or more characters and fits the shape its type demands |
| PassengerForm.CheckPhone | client/src/components/PassengerDetailsModal.tsx:58-63 | the record gains the phone's message exactly when the phone rule fails, and is otherwise unchanged |
| PassengerForm.CheckIdNumber | client/src/components/PassengerDetailsModal.tsx:69-77 | the record gains the document number's message exactly when its rule fails, and is otherwise unchanged |
| PassengerForm.Validate | client/src/components/PassengerDetailsModal.tsx:51-81 | each field's error is absent exactly when its rule holds: gender chosen, ten digits, id type chosen, and the id number fits its type |
| PassengerForm.AsRecord | client/src/components/PassengerDetailsModal.tsx:51-81 | the error record is empty exactly when every field passes |
| PassengerForm.ValidateForm | client/src/components/PassengerDetailsModal.tsx:51-81 | the method fills the error record field by field and reports valid exactly when all rules pass |
| PassengerForm.ValidImpliesEnabled | client/src/components/PassengerDetailsModal.tsx:106 | a form that validates has its submit button enabled |
| PassengerForm.EnabledButRefused | client/src/components/PassengerDetailsModal.tsx:106 | an enabled form can still fail validation, through a short Aadhar number |
| PassengerForm.Submitted | client/src/components/PassengerDetailsModal.tsx:83-91 | the submitted passenger keeps gender and id type, carries the normalised phone, and its id number is the typed one upper-cased with all white space removed |
| Text.UpperRemoveSpaces | client/src/components/PassengerDetailsModal.tsx:90 | upper-casing and removing white space give the same string in either order |
| PassengerForm.SubmittedPhoneKept | client/src/components/PassengerDetailsModal.tsx:83-91 | the server's phone normalisation leaves a validated form's phone unchanged |
| FareBreakdown.Gst | client/src/components/FareBreakdownModal.tsx:89-104 | the tax is 18 % of the subtotal rounded to the nearest unit |
| FareBreakdown.Calculate | client/src/components/FareBreakdownModal.tsx:89-104 | the count and base fare follow the seats; the subtotal adds the 40 platform fee; the tax is 18% of the subtotal rounded to the nearest rupee, halves up (100·gst − 50 ≤ 18·subtotal < 100·gst + 50); the grand total is the subtotal plus that tax |
| FareBreakdown.TotalsOrdered | client/src/components/FareBreakdownModal.tsx:89-104 | with non-negative prices, base fare ≤ subtotal ≤ grand total |
| FareBreakdown.EmptySelection | client/src/components/FareBreakdownModal.tsx:89-104 | no seats cost 40 plus 7 tax |
| FareBreakdown.OneStandardSeat | client/src/components/FareBreakdownModal.tsx:89-104 | one seat at 500 totals 637 |
| FareBreakdown.FromBasePriceTotal | client/src/components/FareBreakdownModal.tsx:107-110 | n seats at one base price have base fare n times the price |
| TripDetails.RefundPreview | client/src/pages/trip-details.tsx:80-105 | no preview exactly when the booking total or the departure is missing |
| TripDetails.PreviewMatchesServer | client/src/pages/trip-details.tsx:80-105 | the preview equals the server's refund quote for the same inputs |
| TripDetails.PreviewBounds | client/src/pages/trip-details.tsx:80-105 | the preview lies between 0 and the total, and shrinks as time passes |
| DateLocal.ParseLocalIso | client/src/utils/dateLocal.ts:8-11 | a date exactly when the text splits on '-' into three or more parts whose first three are digit-only; the year is read as the Date constructor reads it, the month comes back 0-based and the day as written |
| DateLocal.IsoShape | client/src/utils/dateLocal.ts:1-6 | a four-digit year formats as ten characters with dashes at positions 4 and 7 |
| DateLocal.RoundTrip | client/src/utils/dateLocal.ts:1-11 | parsing a formatted date gives it back, from year 100 on |
| DateLocal.EarlyYearsShift | client/src/utils/dateLocal.ts:8-11 | years 0 to 99 come back shifted by 1900 |
| DateLocal.RoundTripFields | client/src/utils/dateLocal.ts:1-11 | the formatted text splits into the year, month and day digits |
| SampleTrips.InsertSorted | client/src/data/sampleTrips.ts:167 | inserting into a price-sorted list keeps it sorted |
| SampleTrips.InsertMultiset | client/src/data/sampleTrips.ts:167 | insertion adds exactly the new trip |
| SampleTrips.InsertStable | client/src/data/sampleTrips.ts:167 | insertion keeps the order of trips of equal price |
| SampleTrips.SortCorrect | client/src/data/sampleTrips.ts:167 | the sort is sorted by price, a permutation, and stable |
| SampleTrips.FilterTripsCorrect | client/src/data/sampleTrips.ts:147-168 | the result is exactly the matching trips, sorted by price and stable |
| SampleTrips.DateFilter | client/src/data/sampleTrips.ts:147-166 | an empty date filters nothing; a trip on another day is excluded |
| SeatSelection.Toggled | client/src/components/modules/SeatMapConnected.tsx:36-52 | a click is ignored exactly on a blocked seat or a new seat beyond the cap; otherwise the seat is removed or added |
| SeatSelection.ToggleKeepsCap | client/src/components/modules/SeatMapConnected.tsx:36-52 | the selection never exceeds the cap |
| SeatSelection.ToggleTwice | client/src/components/modules/SeatMap.tsx:29-46 | selecting and deselecting a seat restores the selection |
| SeatSelection.ReportedSeats | client/src/components/modules/SeatMapConnected.tsx:50-51 | the reported seats are exactly the map's selected seats |
| SeatSelection.Selection.constructor | client/src/components/modules/SeatMapConnected.tsx:15-16 | the selection starts empty with the given cap |
| SeatSelection.Selection.Toggle | client/src/components/modules/SeatMapConnected.tsx:36-52 | the selection becomes the toggled one, and a report of the selected seats is made exactly when it changed |
| SeatSelection.GroupRows | client/src/components/modules/SeatMapConnected.tsx:126-133 | the row map built by the loop yields the groups of the deck's rows in ascending order |
| SeatSelection.CollectRows | client/src/components/modules/SeatMap.tsx:114-121 | the loop maps every row number to its seats in deck order |
| SeatSelection.ReadRows | client/src/components/modules/SeatMap.tsx:114-121 | reading the map in key order gives the row groups |
| SeatSelection.GroupsAreRows | client/src/components/modules/SeatMapConnected.tsx:126-133 | every group holds seats of one row only |
| SeatSelection.GroupsAscend | client/src/components/modules/SeatMapConnected.tsx:126-133 | groups are non-empty and in ascending row order |
| SeatSelection.EverySeatGrouped | client/src/components/modules/SeatMapConnected.tsx:126-133 | every seat lands in its row's group |
| SeatSelection.SidesPartition | client/src/components/modules/SeatMapConnected.tsx:168-195 | the lower split shows every seat once; the upper split does so when every column is at least 1 |
| PickupDrop.Wizard.constructor | client/src/components/PickupDropModal.tsx:34-36 | the wizard opens on the pickup step with nothing chosen |
| PickupDrop.Wizard.ChoosePickup | client/src/components/PickupDropModal.tsx:99 | the pickup choice is recorded on the pickup step |
| PickupDrop.Wizard.ChooseDrop | client/src/components/PickupDropModal.tsx:144 | the drop choice is recorded on the drop step |
| PickupDrop.Wizard.Next | client/src/components/PickupDropModal.tsx:38-47 | from pickup with a choice it moves to drop; from drop with a choice it confirms both and resets; without a choice nothing happens |
| PickupDrop.Wizard.Back | client/src/components/PickupDropModal.tsx:49-53 | from either step it ends on the pickup step keeping both choices |
| PickupDrop.Wizard.Close | client/src/components/PickupDropModal.tsx:55-60 | it resets to the pickup step with nothing chosen |
| PickupDrop.ChoosePair | client/src/components/PickupDropModal.tsx:38-60 | choosing a pickup and a drop confirms exactly that pair and resets the wizard |
| MapMock.Clamp01 | client/src/components/MapMock.tsx:42-58 | the progress lies in [0, 1] and is unchanged inside it |
| MapMock.Update | client/src/components/MapMock.tsx:19-60 | before departure, during the journey (both ends included) and after arrival partition time |
| MapMock.ProgressBounds | client/src/components/MapMock.tsx:42-58 | with a positive duration, the progress is in [0, 1] |
| MapMock.BoundariesAreDuring | client/src/components/MapMock.tsx:25-42 | the departure and arrival instants themselves count as during the journey |
| MapMock.BeforeCountdown | client/src/components/MapMock.tsx:25-36 | before departure the countdown is the whole minutes left, split into hours and minutes from 60 on |
| MapMock.DuringCountdown | client/src/components/MapMock.tsx:42-58 | during the journey the ETA is the minutes left rounded up |

## Left out

- The HTTP layer, JSON parsing and `parseInt` of route parameters. A
  non-numeric id is not modelled.
- The database connection, the SQL and concurrency. Each request runs as
  one atomic step on the store. The row lock of the booking transaction is
  therefore implicit.
- Invariant 1 is not enforced by the database. It is proved to be kept by
  every operation except confirming a dead booking, as described above.
- The store keeps no reference integrity from bookings to shows. The 404
  for a booking whose show has gone cannot happen while the schema's
  foreign key holds. The model still carries the branch.
- The expiry worker's timer (server/expiry-worker.ts) is modelled as one
  tick, `ExpireOldBookings(now)`.
- E-mail and SMS delivery, the SSE stream writes and the logging. A failed
  notification e-mail is the `failed` parameter.
- Notifications.ReleaseNotify: a send is decided once per notification id.
  When one booking holds two seats with the same label (the seat lookup
  does not check the show), the source's release loop mails the same
  pending subscription twice and the second send may succeed where the
  first failed; the model cannot express that second attempt.
- The randomness of the OTP. The code is a chosen number in 1000..9999.
- JWT issuing, Redis, the admin middleware and the SMTP diagnostics.
- The users-bookings, gender-patch, ticket-PDF and tracking routes, and the
  seat-gender map. These do not change the reservation tables modelled
  here.
- The columns the modelled logic never reads: most show columns, passenger
  names, and notification and refund timestamps. The show-creation schema
  and the notify-seat schema's field checks are also left out; the body is
  taken as parsed.
- Money is `real`. The `parseFloat` and `toFixed` text conversions and
  floating-point rounding are not modelled. GST is computed on whole units
  and rounded half up.
- Invalid `Date` values, where a NaN comparison is always false, are not
  modelled.
- `Number()` parsing of whitespace, signs and exponents is not modelled.
  Only digit strings are read.
- `toLocaleDateString` and the locale formatting of dates.
- The month and day rollover of the `Date` constructor for out-of-range
  parts. A parsed date carries its fields as read.
- `handleSubmit`'s submitting flag and the asynchronous callback.
- The React rendering and i18n, and the map widget's timer and animation.
- DateLocal.RoundTrip: stated only for years from 100 on, because the Date
  constructor maps years 0 to 99 onto 1900 to 1999. EarlyYearsShift states
  that case.
- MapMock.ProgressBounds: stated only for a positive journey duration. For
  a zero duration the division is 0/0 (NaN), which the model represents as
  no progress.
- Text.Upper, Text.Lower: only ASCII letters change case, where
  JavaScript's `toUpperCase` and `toLowerCase` map every Unicode letter.
  Two e-mails differing only in the case of a non-ASCII letter, such as
  `Élodie@x.com` and `élodie@x.com`, are therefore distinct in the model's
  duplicate-subscription check but equal in the source's. String lengths
  count code points, where JavaScript's `length` counts UTF-16 units; the
  two differ only for characters outside the Basic Multilingual Plane.
- Schema.ValidEmail: the pattern is the one zod 3 uses for `email()`. The
  zod version is not pinned in the files modelled; a release with another
  pattern would accept a different set of addresses.
- SeatSelection.SidesPartition: the upper-deck split drops a seat whose
  column is below 1, so the partition is stated for columns from 1 on.
