# Hotel reservations and room availability — a Dafny model

This project models the reservation engine of a hotel management service.
Reservations are created by front-desk clerks or by customers. They move
through their statuses: No_show, Confirmed, Cancelled, Complete/Completed.
Rooms are booked and freed, and billing rows are written at check-out and
when extra charges are added. Managers read occupancy, revenue and no-show
reports. Two nightly jobs rewrite reservation statuses in bulk. Around
these sit the error-class table, the e-mail and phone validators, and the
request guards of the customer controller.

The database is one object, `Schema.Db`. It has one `map<int, Row>` per
table: customers, branches, room types, rooms, reservations, booked rooms,
billings, payment details, blocked bookings and blocked-booking rooms. It
also has one counter, `nextId`, for fresh row ids. A query without an
`orderBy` returns rows in ascending id order (`Schema.RowOrder`). An
`orderBy check_in_date desc` sorts that order by check-in date, latest
first (`Schema.LatestFirst`); the order of equal dates is not promised. Operations that write rows are methods that
`modify` the store. Each one states its complete new state. Queries are
functions over the maps.

Conventions:
- Timestamps are integers in milliseconds.
- A date argument is `Absent`, `Unparsable` (the `isNaN` case) or `At(t)`.
- Money is `real`; tax is exactly one tenth of the room charge.
- Errors are `Raised(AppError)` for the classes in `AppError.js`. Anything
  else the code would throw is `Unexpected(message)`: a `ReferenceError`, a
  unique-constraint violation, or an invalid `Date` reaching the database.

The property everything is measured against is `Schema.NoDoubleBooking`.
It says that no two reservations that still hold their rooms
(status ≠ Cancelled) share a room over overlapping half-open stays. Every
write path either keeps it or is shown to break it.

Modules:
- `Js`, `Numerals`, `Ordering`, `Calendar`: JavaScript truthiness, decimal
  text, database order and sorting, days and civil months.
- `AppErrors`: `src/utils/AppError.js`.
- `Validations`: `src/utils/emailAndPhoneValidations.js`.
- `Schema`: the store, the overlap predicates and the row-insertion steps
  shared by the services.
- `ClerkService`: `src/service/clerk.service.js`.
- `CustomerService`: `src/service/customer.service.js`.
- `PublicService`: `src/service/public.service.js`.
- `ManagerService`: `src/service/manager.service.js`.
- `CancelUnpaidJob`: `src/jobs/cancelUnpaidReservations.job.js`.
- `CompleteJob`: `src/jobs/updateCompletedReservations.job.js`.
- `CustomerController`: the guards of `src/controller/customer.controller.js`.

## Model

| member | source | states |
|---|---|---|
| AppErrors.NewAppError | src/utils/AppError.js:2-5 | An AppError without a code has code 406 and status 'fail'; a given code is kept; the status word is always 'fail' or 'error' |
| AppErrors.New | src/utils/AppError.js:10-32 | A subclass error keeps its class and fixed code, and carries the given message or else the class default |
| AppErrors.StatusFailIff | src/utils/AppError.js:5 | The status is 'fail' exactly when the code lies in [4·10^k, 5·10^k) for some k, i.e. its decimal text starts with '4'; otherwise it is 'error' |
| AppErrors.SubclassCodes | src/utils/AppError.js:10-32 | Every subclass keeps its class, carries its fixed code, has status 'fail', and uses its default message exactly when none is given |
| AppErrors.ClassTable | src/utils/AppError.js:10-32 | The codes 404/400/401/406 and the default messages 'Not Found', 'Bad Request', 'Unauthorized', 'Validation Error'; 500 and 302 give 'error' |
| Numerals.DecimalText | src/utils/AppError.js:5 | The decimal text of a code is a non-empty digit string with no leading zero |
| Numerals.DecimalTextValue | src/utils/AppError.js:5 | Reading the decimal text back gives the number (round trip) |
| Numerals.LeadingFour | src/utils/AppError.js:5 | The text starts with '4' iff 4·10^k ≤ n < 5·10^k for some k |
| Validations.EmailShape | src/utils/emailAndPhoneValidations.js:1-4 | The e-mail regex holds iff the string is L '@' D with L and D non-empty, free of '@' and whitespace, and D has a '.' neither first nor last |
| Validations.WhitespaceRejected | src/utils/emailAndPhoneValidations.js:2 | A string with whitespace anywhere is rejected |
| Validations.TwoAtsRejected | src/utils/emailAndPhoneValidations.js:2 | A string with two '@' is rejected |
| Validations.EmailExamples | src/utils/emailAndPhoneValidations.js:2 | "a@b.c" is accepted; "a@.com", "a@com." and "@b.c" are rejected |
| Validations.DigitRunIff | src/utils/emailAndPhoneValidations.js:7 | `\d{n}` matches exactly the digit strings of length n |
| Validations.PhoneShape | src/utils/emailAndPhoneValidations.js:6-9 | The phone regex holds iff the string has length 10, starts with '0' and is all digits |
| Ordering.SortedIds | src/service/clerk.service.js:49-55 | The ids of a table in ascending order: exactly the table's keys, increasing |
| Ordering.SortBy | src/service/clerk.service.js:443-445 | The `orderBy` sort returns a permutation of its input, ordered by the key |
| Ordering.StrLeTotal | src/service/clerk.service.js:443-445 | Code-point order on room numbers relates any two strings, so the sort is defined |
| Calendar.Nights | src/service/clerk.service.js:267-269 | `Math.ceil((out − in) / 86400000)`: the least n with out − in ≤ n days |
| Calendar.NightsLeast | src/service/clerk.service.js:267-269 | Any k with out − in ≤ k days bounds the night count from above |
| Calendar.NightsExamples | src/service/clerk.service.js:267-269 | 3 days is 3 nights, one ms more is 4, 1 ms is 1, equal dates 0, and a reversed stay −1 |
| Calendar.DayOf | src/service/manager.service.js:42 | The UTC day number of an instant brackets it: day·86400000 ≤ t < (day+1)·86400000 |
| Calendar.DayOfNext | src/service/manager.service.js:75-77 | Stepping an instant forward by one day moves it to the next UTC day number |
| Calendar.CivilMonthEpoch | src/service/manager.service.js:182 | Day 0 falls in 1970-01 |
| Calendar.CivilMonthLeapDay | src/service/manager.service.js:182 | Day 11016 (2000-02-29) falls in 2000-02 |
| Calendar.CivilMonthBeforeEpoch | src/service/manager.service.js:182 | Day −1 falls in 1969-12 |
| Calendar.CivilMonth | src/service/manager.service.js:182 | The civil month of every day number is between 1 and 12 |
| Calendar.CivilMonthStep | src/service/manager.service.js:182 | For every day number, the next day is in the same civil month or in the next one (December to January of the next year), so monthly keys follow the calendar without gaps |
| Calendar.MonthOfNextDay | src/service/manager.service.js:178-182 | One day (86400000 ms) later, the local month key of a billing date is the same month or the next one |
| Schema.Db.constructor | src/service/customer.service.js:4 | The store behind the Prisma client starts empty and satisfies the store invariant |
| Schema.Select | src/service/customer.service.js:89 | `filter`: keeps exactly the rows satisfying the predicate, in order, and no more rows than it was given |
| Schema.RowOrder | src/service/public.service.js:7-15 | Rows of a table come back as exactly its keys, in ascending id order |
| Schema.RoomsOf | src/service/customer.service.js:169 | The rooms of a reservation are exactly the rooms of its bookedrooms rows |
| Schema.SetStatus | src/service/customer.service.js:180-187 | `room.updateMany`: the listed rooms get the new status, every other room is unchanged, no room is added |
| Schema.InclusiveIsStricter | src/service/clerk.service.js:72-80 | The clerk's inclusive overlap contains the half-open one, and back-to-back stays on either side touch inclusively but do not overlap |
| Schema.LatestFirst | src/service/customer.service.js:240 | `orderBy check_in_date desc`: a permutation of the rows, check-in non-increasing, no row twice |
| Schema.Candidates | src/service/clerk.service.js:49-55 | The candidate rooms are exactly the Available rooms of the branch and type, in id order |
| Schema.FirstWith | src/service/clerk.service.js:33-35 | `findUnique` on a unique column: found iff some row matches, and then the lowest matching id |
| Schema.Links | src/service/clerk.service.js:112-119 | `createMany` of links: one fresh id per room, each linking the reservation to that room |
| Schema.LinkingFreeRoomsKeepsNoDoubleBooking | src/service/customer.service.js:95-134 | Adding a reservation with a proper stay whose distinct rooms are all free for it keeps no double booking |
| Schema.NewLinkOnFreeRoom | src/service/customer.service.js:95-110 | A new link and an old holding link on the same room have non-overlapping stays |
| Schema.LinkedFreeRoomsKeepNoDoubleBooking | src/service/customer.service.js:113-135 | The same, for any links map that extends the old one by the new links |
| Schema.FewerHoldsKeepNoDoubleBooking | src/jobs/updateCompletedReservations.job.js:8-20 | A status rewrite that only releases holds, and moves no held stay, keeps no double booking |
| Schema.InsertReservation | src/service/clerk.service.js:98-119 | Inserts one reservation under a fresh id plus one fresh link per room, and changes nothing else |
| Schema.InsertBilling | src/service/clerk.service.js:283-292 | Inserts one billing under a fresh id when the reservation has none, and changes nothing else |
| Schema.ReplaceBilling | src/service/clerk.service.js:406-413 | Rewrites one billing of the same reservation, and changes nothing else |
| Schema.UpdateRoomStatus | src/service/clerk.service.js:294-298 | `room.updateMany`: the listed rooms get the new status, and nothing else changes |
| Schema.UpdateReservation | src/service/clerk.service.js:301-307 | `reservation.update`: one existing row is rewritten, and nothing else changes |
| ClerkService.PickIsFreePrefix | src/service/clerk.service.js:62-91 | The room search loop takes the free candidates in order and stops once it has the requested number |
| ClerkService.PickedRooms | src/service/clerk.service.js:62-91 | Picked rooms are increasing free candidates, at most n; exactly n when enough are free; all free candidates when n < 0 |
| ClerkService.CustomerByEmail | src/service/clerk.service.js:33-36 | Found iff some customer has the e-mail, and the one found has it |
| ClerkService.ClerkFreeIsFree | src/service/clerk.service.js:72-80 | A room free under the inclusive rule is free under the half-open one |
| ClerkService.ClerkCreateKeepsNoDoubleBooking | src/service/clerk.service.js:98-119 | Linking a new reservation to increasing, clerk-free rooms keeps no double booking |
| ClerkService.ClerkBookingKeepsNoDoubleBooking | src/service/clerk.service.js:98-119 | The same, for the links map the insert leaves behind |
| ClerkService.RoomChoice | src/service/clerk.service.js:57-95 | The room search fails only with a 400 BadRequest |
| ClerkService.ClerkDecision | src/service/clerk.service.js:23-98 | Missing fields and a check-out comparison that fires are each rejected with their BadRequest message; with an invalid date the comparison passes, too few candidates still give 'Not enough rooms available…', and otherwise the database's invalid-date error follows; a failure is a BadRequest or that error; success implies both dates parse and check-in < check-out |
| ClerkService.InvalidDateChoice | src/service/clerk.service.js:49-98 | With an invalid date the room step always fails |
| ClerkService.ClerkDecisionRooms | src/service/clerk.service.js:49-91 | Chosen rooms are increasing, Available, of the branch and type, inclusively free, and exactly number_of_rooms when that is positive |
| ClerkService.ClerkDecisionOk | src/service/clerk.service.js:23-95 | Success iff the fields are present, both dates parse, the stay is proper, there are at least n candidates and enough free ones; the choice is the first n free candidates |
| ClerkService.RoomChoiceOk | src/service/clerk.service.js:57-95 | The room step succeeds iff there are at least n candidates and, for positive n, n free ones; then it books the first n free candidates (all of them for negative n) |
| ClerkService.CreateReservation | src/service/clerk.service.js:11-122 | Fails with no write when a field is missing or the date comparison fires. Otherwise, even with an invalid date, the customer is found or created before the room search. On success one Confirmed/Pending reservation and its links are added and rooms are untouched. No double booking is kept |
| ClerkService.BookRooms | src/service/clerk.service.js:49-119 | The room search and insert: a failure writes nothing; success adds the reservation and its links and keeps no double booking |
| ClerkService.RoomChoiceBound | src/service/clerk.service.js:49-55 | The room choice does not depend on which id bound is used to list the rooms |
| ClerkService.CandidatesBound | src/service/clerk.service.js:49-55 | The candidate list does not depend on the id bound |
| ClerkService.FindOrCreateCustomer | src/service/clerk.service.js:33-46 | Returns the existing customer with the e-mail, or inserts exactly one new customer under a fresh id |
| ClerkService.SelectRooms | src/service/clerk.service.js:62-91 | The loop with its early `break` computes the room pick |
| ClerkService.IncreasingSameElements | src/service/clerk.service.js:49-55 | Two increasing id lists with the same members are equal |
| ClerkService.BuildWhere | src/service/clerk.service.js:137-160 | The customer filter is set iff the search text is truthy; status is copied; each check-in bound is set iff that date is given and parses, to that instant |
| ClerkService.FoldAll | src/service/clerk.service.js:153-160 | `mode: 'insensitive'`: the text is folded character by character |
| ClerkService.ContainsAt | src/service/clerk.service.js:153-160 | `contains`: the needle is a prefix of some suffix of the text |
| ClerkService.Window | src/service/clerk.service.js:198-199 | `skip`/`take`: empty past the end, otherwise min(abs(take), rest) rows; for take ≥ 0 row k is the row at skip + k, for take < 0 the rows are the last ones before the skipped tail, in list order |
| ClerkService.WindowFromEnd | src/service/clerk.service.js:198-199 | A negative take is the positive take on the reversed list, read back in list order |
| ClerkService.WindowsAdjacent | src/service/clerk.service.js:198-199 | Two adjacent windows with non-negative takes concatenate to one window |
| ClerkService.MatchingIds | src/service/clerk.service.js:137-163 | Exactly the reservations matching the filter, in id order |
| ClerkService.ListOrder | src/service/clerk.service.js:166-197 | Exactly the matching reservations, latest check-in first, none twice |
| ClerkService.GetReservations | src/service/clerk.service.js:124-208 | Fails, with a generic error, iff a check-in bound is an invalid date or skip is negative; otherwise echoes page and limit and returns at most abs(limit) rows |
| ClerkService.ListingCount | src/service/clerk.service.js:163 | totalCount is the number of reservations matching the filter |
| ClerkService.ListingPage | src/service/clerk.service.js:166-200 | Every listed row matches, none twice, check-in non-increasing |
| ClerkService.WindowOfOrder | src/service/clerk.service.js:197-199 | A window of an ordered, repetition-free list is ordered and repetition-free |
| ClerkService.ListingIsWindow | src/service/clerk.service.js:134-200 | With parsable bounds and skip ≥ 0 the listing succeeds, and the page is exactly the window at (page−1)·limit of the ordered matches |
| ClerkService.PagesAdjacent | src/service/clerk.service.js:134 | Pages p and p+1 together are the window of size 2·limit at page p |
| ClerkService.CheckIn | src/service/clerk.service.js:210-242 | NotFound for an unknown id and ValidationError unless Confirmed, both with no write; otherwise exactly the linked rooms become Occupied and the reservation is returned unchanged |
| ClerkService.SetStatusOverride | src/service/clerk.service.js:230-233 | Setting a status twice equals setting the second one |
| ClerkService.LinksOf | src/service/clerk.service.js:245-254 | The bookedrooms of a reservation, in id order |
| ClerkService.PriceSumSnoc | src/service/clerk.service.js:273-275 | The `forEach` sum grows by one link's price per step |
| ClerkService.RoomChargeIsNightsTimesPrices | src/service/clerk.service.js:271-275 | The room charge is nights × the sum of the linked rooms' prices per night |
| ClerkService.CheckOutBilling | src/service/clerk.service.js:277-292 | Tax is one tenth of the charge; total = charge + tax = 1.1 × charge; other charges 0; status Paid |
| ClerkService.CheckOutExample | src/service/clerk.service.js:265-292 | Two rooms at 100 and 150 for 3 nights: charge 750, tax 75, total 825 |
| ClerkService.BillingOf | src/service/clerk.service.js:380-393 | Found iff some billing belongs to the reservation, and the one found does |
| ClerkService.SumRoomCharge | src/service/clerk.service.js:271-275 | The accumulation loop computes the room charge |
| ClerkService.CheckOut | src/service/clerk.service.js:244-315 | NotFound/Validation with no write. An existing billing makes the create fail with no write. Otherwise one Paid billing is added, exactly the linked rooms become Available, and the reservation becomes Completed/Paid |
| ClerkService.Extension | src/service/clerk.service.js:317-372 | Success needs an extendable reservation, a later parsable checkout and no conflict, and changes only check_out. Unknown ids and Cancelled/Completed reservations are rejected with their messages |
| ClerkService.ExtensionKeepsNoDoubleBooking | src/service/clerk.service.js:345-369 | Checking conflicts only on the extension window is enough: an accepted extension keeps no double booking |
| ClerkService.UpdateReservationDates | src/service/clerk.service.js:317-372 | Returns the extension decision; a failure writes nothing, success writes only that reservation |
| ClerkService.ChargeKeepsBase | src/service/clerk.service.js:405-413 | Adding a charge raises other_charges by the amount and keeps total − other_charges, tax, status and reservation |
| ClerkService.ChargesAccumulate | src/service/clerk.service.js:405-413 | Two charges equal one charge of their sum |
| ClerkService.FirstChargeOnlyCharges | src/service/clerk.service.js:395-404 | A created billing has total = other_charges = amount, tax 0, Unpaid, and keeps that shape under further charges |
| ClerkService.AddOptionalCharge | src/service/clerk.service.js:374-421 | Rejects amount ≤ 0, unknown ids and Cancelled reservations with no write; otherwise creates the billing or increments the existing one |
| ClerkService.ByRoomNumberTotal | src/service/clerk.service.js:443-445 | Ordering rooms by room number relates every two rooms |
| ClerkService.GetRoomsStatus | src/service/clerk.service.js:423-449 | All rooms, each once, sorted by room number |
| ClerkService.RoomsStatusOrder | src/service/clerk.service.js:443-445 | Consecutive rooms have non-decreasing room numbers |
| CustomerService.FoundRooms | src/service/customer.service.js:79-83 | `findMany id in room_ids`: exactly the existing listed rooms, in id order |
| CustomerService.AllFoundIff | src/service/customer.service.js:84-86 | The lengths agree iff the ids are distinct and all exist, so a duplicated id is rejected |
| CustomerService.BookingCheck | src/service/customer.service.js:75-110 | Rejections are 406 ValidationErrors; an unknown branch and missing or duplicated rooms get their messages |
| CustomerService.BookingCheckLater | src/service/customer.service.js:88-110 | A room of another branch, then a half-open conflicting booking, get their messages |
| CustomerService.BookingCheckFound | src/service/customer.service.js:88-110 | Once the branch and all rooms are found, the outcome is the wrong-branch rejection, else the conflict rejection, else a pass |
| CustomerService.BookingCheckPass | src/service/customer.service.js:75-110 | Passes iff the branch exists and the rooms are distinct, existing, of that branch and each free for the stay |
| CustomerService.CreateReservation | src/service/customer.service.js:65-151 | A rejection writes nothing. Success adds one Pending/No_show reservation and one link per room, and sets exactly the listed rooms Occupied. No double booking is kept |
| CustomerService.CancelReservation | src/service/customer.service.js:153-191 | Missing (as ValidationError) or already Cancelled writes nothing; otherwise it cancels, sets the linked rooms Available and keeps the links. No double booking is kept |
| CustomerService.CompleteReservation | src/service/customer.service.js:193-212 | Unknown, Cancelled and unpaid reservations are rejected with no write; otherwise only the status becomes 'Complete' |
| CustomerService.ReservationsByCustomer | src/service/customer.service.js:214-244 | Exactly the customer's reservations, latest check-in first, none twice |
| CustomerService.PaymentDecision | src/service/customer.service.js:246-299 | Missing fields, an unknown reservation and existing details are rejected with their messages; success iff none applies; it marks the reservation and payment Confirmed and keeps the dates |
| CustomerService.AddReservationPaymentDetails | src/service/customer.service.js:246-307 | A rejection writes nothing; success stores the details and the Confirmed reservation |
| CustomerService.PaymentRevivesCancelled | src/service/customer.service.js:291-299 | A concrete store where paying for a Cancelled reservation breaks the no-double-booking rule |
| CustomerService.GuardedPaymentDecision | src/service/customer.service.js:261-299 | The corrected decision: accepted iff the original accepts and the reservation is not Cancelled, with the same result |
| CustomerService.GuardedPaymentKeepsNoDoubleBooking | src/service/customer.service.js:291-299 | The corrected payment step keeps no double booking |
| CustomerService.MergeProfileFields | src/service/customer.service.js:376-389 | Only the truthy supplied fields change; the e-mail never does; an empty update changes nothing |
| CustomerService.MergeProfileIdempotent | src/service/customer.service.js:376-389 | Applying the same update twice equals applying it once |
| CustomerService.UpdateProfile | src/service/customer.service.js:366-403 | NotFound with no write for an unknown customer; otherwise only that customer's row changes, and the profile returned is the new row |
| CustomerService.BookedRoomIds | src/service/customer.service.js:423-436 | Exactly the rooms held by a non-Cancelled, half-open-overlapping reservation |
| CustomerService.GetAvailableRooms | src/service/customer.service.js:405-456 | Unknown branch, unparsable dates and checkout ≤ checkin are rejected with their messages. Otherwise exactly the branch's Available rooms that are free for the stay, in id order |
| CustomerService.AvailableRoomsBookable | src/service/customer.service.js:405-456 | The rooms it lists pass the customer booking check for that stay |
| PublicService.Unavailable | src/service/public.service.js:115-118 | A room is unavailable iff a non-Cancelled overlapping reservation or an overlapping blocked booking holds it |
| PublicService.GetRoomAvailability | src/service/public.service.js:49-130 | Succeeds iff all four parameters are given, the comparison check-in ≥ check-out does not hold, and either both dates parse or there is no candidate room; with no candidate and an unparsable date the answer is {0, 0}; failures are generic errors; available ≤ total |
| PublicService.CandidateCount | src/service/public.service.js:63-73 | total_rooms counts exactly the Available rooms of the branch and type |
| PublicService.FreeCount | src/service/public.service.js:120 | The filtered list has as many rooms as the candidate set minus the unavailable set |
| PublicService.AvailabilityValue | src/service/public.service.js:75-128 | With both dates parsed, the result is (candidates, candidates not unavailable); with no candidates both are 0 |
| PublicService.UnavailableComplement | src/service/public.service.js:115-120 | Candidates outside the unavailable set are exactly those free of bookings and blocks |
| PublicService.AvailabilityCounts | src/service/public.service.js:63-128 | total_rooms is the size of the candidate set; with both dates parsed, available_rooms is the size of its free, unblocked part |
| PublicService.CountAvailable | src/service/public.service.js:33-35 | A branch counter is at most the number of rooms seen |
| PublicService.CountAvailableNone | src/service/public.service.js:25-31 | A branch with no room in the list counts 0 |
| PublicService.RoomsOfType | src/service/public.service.js:7-15 | The rooms of a type, in id order |
| PublicService.TallyBranches | src/service/public.service.js:20-36 | The `branchesMap` loop: a branch has an entry iff one of the rooms belongs to it, and the entry counts its Available rooms |
| PublicService.Tallies | src/service/public.service.js:44 | One entry per branch key, in key order, with its name and count |
| PublicService.SummarizeType | src/service/public.service.js:17-46 | The per-type loop computes the type summary |
| PublicService.GetRooms | src/service/public.service.js:6-47 | One summary per room type, in id order |
| PublicService.Catalogue | src/service/public.service.js:17-46 | One summary per room type, in id order, built from the room types, rooms and branches tables |
| PublicService.CountSumSnoc | src/service/public.service.js:22-36 | One more room adds at most 1 to the branch total, and nothing if it is not Available or its branch is not listed |
| PublicService.CountSumBound | src/service/public.service.js:18-36 | The branch counters sum to at most the number of rooms |
| PublicService.CountSumEmpty | src/service/public.service.js:20 | With no rooms every counter is 0 |
| PublicService.TallySumIsCountSum | src/service/public.service.js:44 | The entries' counts sum to the counters' sum |
| PublicService.TalliesWithinTotal | src/service/public.service.js:18-44 | The branch available counts of a type sum to at most its total_rooms |
| ManagerService.RoomsUnder | src/service/manager.service.js:19-21 | The rooms counted under the branch filter are rooms of the store |
| ManagerService.GetDailyOccupancyReport | src/service/manager.service.js:11-46 | Fails iff the date is unparsable, with 'Invalid date format'; otherwise, at the given instant or now, the day contains the instant, total_rooms counts the rooms under the branch filter and occupied_rooms the booked-room rows of non-cancelled, non-no-show stays containing the instant |
| ManagerService.CountedDuringStay | src/service/manager.service.js:24-39 | A held link counts at t iff in ≤ t < out; it never counts on its check-out day |
| ManagerService.NeverCountedUnlessStaying | src/service/manager.service.js:33-35 | Cancelled and No_show reservations never count |
| ManagerService.OccupancyWithinRooms | src/service/manager.service.js:19-39 | Without a branch filter, and with no double booking, occupied ≤ total rooms |
| ManagerService.DailyOccupancyWithinRooms | src/service/manager.service.js:11-46 | The daily report without a branch filter, on a store with no double booking, shows occupied ≤ total rooms |
| ManagerService.DayCount | src/service/manager.service.js:72-76 | The day loop runs the least n with start + (n−1) days ≤ end < start + n days |
| ManagerService.GetProjectedOccupancyReport | src/service/manager.service.js:48-104 | Missing, unparsable and reversed dates get their messages; success iff both parse and from ≤ to; one entry per day, entry k for from + k days |
| ManagerService.DayCountUnique | src/service/manager.service.js:72-76 | That n is unique |
| ManagerService.ProjectedIsDaily | src/service/manager.service.js:72-101 | Consecutive entries are consecutive days; each entry agrees with the daily report; occupied + available = total |
| ManagerService.RevenueRows | src/service/manager.service.js:119-129 | Exactly the billings with start ≤ billing_date ≤ end and the branch filter, in id order |
| ManagerService.CountStatus | src/service/manager.service.js:142-154 | A status count is at most the row count |
| ManagerService.PaidPlusUnpaid | src/service/manager.service.js:142-161 | paid + unpaid = the number of rows |
| ManagerService.Add | src/service/manager.service.js:195-197 | Adding a row to a bucket keeps its period and raises each amount by the row's |
| ManagerService.AddToAmountAt | src/service/manager.service.js:186-197 | After adding a row, only its period's amount grows, by the row's amount |
| ManagerService.AddToSum | src/service/manager.service.js:186-197 | Adding a row raises the bucket total by the row's amount |
| ManagerService.AddToPeriods | src/service/manager.service.js:186-193 | Adding a row adds its period to the keys and creates no duplicate bucket |
| ManagerService.GroupedAmounts | src/service/manager.service.js:178-198 | Each bucket sums exactly the rows of its period |
| ManagerService.GroupedTotals | src/service/manager.service.js:178-198 | The buckets sum to the rows' total |
| ManagerService.GroupedPeriods | src/service/manager.service.js:176-200 | One bucket per distinct period, and the periods are exactly the rows' periods |
| ManagerService.AddToAt | src/service/manager.service.js:186-197 | An existing period's first bucket is the one updated |
| ManagerService.AddToNew | src/service/manager.service.js:186-193 | A new period gets a fresh bucket at the end |
| ManagerService.GroupRevenue | src/service/manager.service.js:176-200 | The `forEach` over billings computes the grouped buckets |
| ManagerService.GetRevenueReport | src/service/manager.service.js:106-201 | Missing and unparsable dates get their messages; success iff both parse; no groupBy gives the overall summary, otherwise monthly or daily buckets of the same rows |
| ManagerService.GroupedMatchesOverall | src/service/manager.service.js:132-200 | The grouped buckets sum to the ungrouped totals, and paid + unpaid = the row count |
| ManagerService.NoShowOrder | src/service/manager.service.js:205-238 | Exactly the matching No_show reservations, latest check-in first, none twice |
| ManagerService.GetNoShowReport | src/service/manager.service.js:203-247 | Fails iff a given date is unparsable, as a generic error |
| ManagerService.NoShowReportRows | src/service/manager.service.js:203-247 | One row per matching reservation, none twice, check-in non-increasing, rooms = its bookedrooms count |
| ManagerService.NoShowRows | src/service/manager.service.js:240-246 | One row per id, in the same order, carrying the id, its check-in date and its bookedrooms count |
| CancelUnpaidJob.LocalMidnight | src/jobs/cancelUnpaidReservations.job.js:6-7 | Today's local midnight m satisfies m ≤ now < m + 1 day |
| CancelUnpaidJob.CancelSweepChanges | src/jobs/cancelUnpaidReservations.job.js:11-31 | A reservation changes iff it is unpaid from today; only the status changes, to Cancelled, and payment stays Pending |
| CancelUnpaidJob.CancelSweepIdempotent | src/jobs/cancelUnpaidReservations.job.js:11-31 | A second run with the same clock changes nothing |
| CancelUnpaidJob.CancelSweepKeepsNoDoubleBooking | src/jobs/cancelUnpaidReservations.job.js:24-31 | The sweep keeps no double booking |
| CancelUnpaidJob.CancelRows | src/jobs/cancelUnpaidReservations.job.js:24-31 | The per-row updates cancel exactly the listed reservations |
| CancelUnpaidJob.Selection | src/jobs/cancelUnpaidReservations.job.js:11-33 | Cancelling the selected rows is the sweep, and their number is the number of unpaid reservations |
| CancelUnpaidJob.CancelUnpaidReservations | src/jobs/cancelUnpaidReservations.job.js:4-37 | The new reservation table is the sweep; the count logged is the number cancelled; no other table changes; no double booking is kept |
| CompleteJob.CompleteSweepChanges | src/jobs/updateCompletedReservations.job.js:8-20 | Due reservations become 'Complete' (No_show and 'Completed' included); others are unchanged; only the status changes |
| CompleteJob.CompleteSweepIdempotent | src/jobs/updateCompletedReservations.job.js:8-20 | Running the sweep twice equals running it once |
| CompleteJob.CompleteSweepKeepsNoDoubleBooking | src/jobs/updateCompletedReservations.job.js:8-20 | The sweep keeps no double booking |
| CompleteJob.DueRows | src/jobs/updateCompletedReservations.job.js:10-16 | Exactly the due reservations, as many as the due set |
| CompleteJob.CompleteRows | src/jobs/updateCompletedReservations.job.js:17-19 | The bulk update rewrites exactly the listed rows |
| CompleteJob.UpdateCompletedReservations | src/jobs/updateCompletedReservations.job.js:4-26 | The new reservation table is the sweep; the count is the number of due rows; no other table changes; no double booking is kept |
| CompleteJob.DueRowsAreSweep | src/jobs/updateCompletedReservations.job.js:8-20 | Updating the due rows is the sweep |
| CustomerController.SignInGuard | src/controller/customer.controller.js:18-24 | Passes iff both fields are truthy and the e-mail is valid; the two rejections carry their messages |
| CustomerController.SignUpGuard | src/controller/customer.controller.js:42-52 | Passes iff all five fields are truthy, the e-mail and phone are valid; each rejection carries its message |
| CustomerController.SignUpPassShape | src/controller/customer.controller.js:4-12 | An accepted sign-up has an address-shaped e-mail and a 10-digit phone starting with '0' |
| CustomerController.ReservationGuard | src/controller/customer.controller.js:80-105 | Missing fields/room list, unparsable dates, and checkout ≤ checkin get their messages; passes iff all checks hold; the request built has a proper stay, positive counts, and is exactly the body's branch, dates, occupants, room count and rooms |
| CustomerController.CreateReservationRoute | src/controller/customer.controller.js:80-115 | A guard rejection writes nothing; a body that passes gets the service's outcome for its request: a rejected booking check writes nothing, a passed one adds the reservation under the next id, its room links and the room status change; no other table changes; no double booking is kept |
| CustomerController.HexDigitValue | src/controller/customer.controller.js:135 | A hex digit's value is below 16 |
| CustomerController.DecimalPrefix | src/controller/customer.controller.js:135 | The longest digit prefix of the text |
| CustomerController.HexPrefix | src/controller/customer.controller.js:135 | A prefix of hex digits of the text |
| CustomerController.TrimStart | src/controller/customer.controller.js:135 | A suffix of the text that does not start with whitespace |
| CustomerController.DecimalPrefixOfDigits | src/controller/customer.controller.js:135 | The digit prefix of digits followed by a non-digit is those digits |
| CustomerController.ParseIntText | src/controller/customer.controller.js:135 | `parseInt` reads back any integer's text, with anything but a digit (or an 'x' after a lone 0) following |
| CustomerController.ParseIntNaN | src/controller/customer.controller.js:135-136 | A text with no digit at all is NaN |
| CustomerController.ParseIntTrailing | src/controller/customer.controller.js:135 | "12abc" reads as 12 |
| CustomerController.ParseIntLetters | src/controller/customer.controller.js:135-136 | "abc" is NaN |
| CustomerController.CompleteReservationRoute | src/controller/customer.controller.js:134-142 | A NaN id answers 400 'Invalid reservation ID' with no write; any other id is forwarded; no double booking is kept |

## Left out

- Authentication and hashing are not modelled: sign-in and sign-up internals, bcrypt, JWT. The password hash is a parameter of `CustomerService.UpdateProfile`.
- Routes, Express request and response handling, Swagger setup, the error middleware and the configuration files are HTTP plumbing, not part of this model.
- Cron scheduling, `Promise.all` fan-out and the check-then-act race between an availability check and the write are not modelled. Each operation is one sequential step.
- The ORM is a single in-memory store. A `$transaction` is one method that either makes all its writes or fails with none. Database failures are not modelled.
- The database failures modelled are the unique `reservation_id` on billings, an error path of `ClerkService.CheckOut`, a query given an invalid `Date` (`Js.INVALID_DATE`), and a negative `skip`.
- Clock readings are a `now` parameter. The local time zone is a fixed `localOffset` in milliseconds.
- UTC/local daylight-saving changes in `setDate` are ignored: the projected report steps by exactly 24 hours.
- `new Date(string)` parsing is not modelled. A date argument is already `Absent`, `Unparsable` or an instant.
- `toISOString` day keys are UTC day numbers (`Calendar.DayOf`). The month key is the local civil year and month (`Calendar.MonthOf`). No string formatting is modelled.
- Money is `real`. JavaScript floating point in `totalAmount * 0.1`, `Number(Decimal)` and the `+=` sums is out of scope.
- A missing room price is treated as 0.
- Query-string truthiness is read as numbers: a branch or room-type filter of 0 counts as absent. The strings '0' that JavaScript treats as truthy are not modelled.
- Case-insensitive `contains` folds ASCII letters only. Database collation and Unicode case folding are left out.
- Room numbers sort by code point, not by the database collation.
- `Schema.LatestFirst`: the order among reservations with the same check-in date is not stated, since the database does not fix it either.
- `ClerkService.GetReservations`: `limit` is already a number. NaN paging values from `parseInt` are not modelled. A negative skip is the Prisma error path; a negative take is Prisma's count-from-the-end window.
- `ClerkService.GetReservations`: the `status` filter is a `ReservationStatus`. A status string outside the enum, which the database rejects in the `where` object (clerk.service.js:137-163), cannot be written, so that failure is not modelled.
- `ClerkService.CreateReservation`: the customer's e-mail is a required string. A customer object without an e-mail, which makes `findUnique` (clerk.service.js:33-35) throw, cannot be written, so that failure is not modelled.
- `ClerkService.CheckIn` reads a numeric reservation id; the string form of the id is not modelled.
- `ClerkService.CreateReservation` creates the customer before the room search, as the source does. So a failed room search, or an invalid date that the date comparison lets through and the database then rejects, can leave a new customer row. The model keeps that order.
- `ClerkService.GetReservations`: an invalid check-in bound fails in the count query, before the page query, so it is reported ahead of a negative skip.
- No foreign-key checks are modelled. A reservation's customer need not exist in the listing or no-show joins, which then print 'N/A'.
- Status strings 'Complete' and 'Completed' are two different statuses, as in the source. Check-out writes 'Completed'; the complete operations write 'Complete'.
- `number_of_rooms` in the customer booking path is stored but never compared with the room list, as in the source.
- Rooms under maintenance are bookable by the customer path when they are listed, because only branch and existence are checked there.
- Cancelling a reservation sets all its rooms Available even when another active reservation holds the same rooms at other dates, as the source does.
- All tables share one id counter, `nextId`. The source uses one auto-increment per table; ids are only compared within a table, where both give ascending order.
- The charge description is passed through to the result and not stored, as in the source.
- `PublicService.GetRoomAvailability`: the file uses `ValidationError` without importing it. Its two guards therefore throw a `ReferenceError`, modelled as `Unexpected`.
- `PublicService.GetRoomAvailability`: an unparsable date makes `checkIn >= checkOut` false. The candidate query does not use the dates, so with no candidate the answer is {0, 0}. Otherwise the invalid `Date` reaches the conflict query and fails there, modelled as `Unexpected`.
- `ManagerService.GetNoShowReport`: an unparsable bound reaches the query the same way, modelled as `Unexpected`.
- The no-show report includes fresh customer reservations, because their default status is No_show.
- `CustomerController`: its copies of the validators are the predicates of `Validations`, which are defined once. The two regexes are identical.
- The controller's `cancelReservation` has no guard and does no validation; it is the service's `CancelReservation`.
- `CustomerController.CompleteReservationRoute`: it states that a numeric id is forwarded, not the service result. A service error is uncaught in the source, so no response is modelled for it.
- `CustomerController.ParseInt` models whitespace, sign, digit prefixes and the '0x' hexadecimal prefix. No property is proved about the hexadecimal branch.
- The admin, travel-company and public controller glue is not part of this model, and neither is the Customer entity file.
- The creation and deletion of blocked bookings are not part of this model. They are read only.

## Findings

| source | as written | input that shows it | evidently intended | confidence | as-written member | corrected member |
|---|---|---|---|---|---|---|
| src/service/customer.service.js:291-299 | Submitting payment details sets reservation_status to Confirmed without checking the current status, so a Cancelled reservation becomes active again | Reservations 1 (Cancelled) and 2 (Confirmed) on room 7 for the same dates; payment details for reservation 1 are accepted and both now hold room 7 | Payment for a Cancelled reservation is refused, so no room is held twice | not executed | CustomerService.PaymentRevivesCancelled | CustomerService.GuardedPaymentDecision |
