/** The signed-in customer's operations: booking explicit rooms, cancelling,
    completing, submitting payment details, listing their reservations,
    updating the profile, and the available-rooms query. */
module CustomerService {
  import opened Js
  import opened AppErrors
  import opened Ordering
  import opened Schema
  import opened Numerals

  // ---------------------------------------------------------------- create

  /** The booking body after the controller's checks; dates are timestamps. */
  datatype BookingRequest = BookingRequest(
    branch_id: int,
    check_in: int,
    check_out: int,
    occupants: Option<int>,
    number_of_rooms: int,
    room_ids: seq<int>)

  /** `room.findMany({ where: { id: { in: room_ids } } })`: the existing
      rooms among the requested ids, each once, in id order. */
  function FoundRooms(rooms: map<int, Room>, bound: int, roomIds: seq<int>): (f: seq<int>)
    requires Below(rooms, bound)
    ensures Increasing(f)
    ensures forall x :: x in f <==> x in rooms && x in roomIds
  {
    Select(RowOrder(rooms, bound), (id: int) => id in rooms && id in roomIds)
  }

  /** As many rooms are found as ids were given exactly when the ids are
      distinct and all exist; so a repeated id fails the check. */
  lemma AllFoundIff(rooms: map<int, Room>, bound: int, roomIds: seq<int>)
    requires Below(rooms, bound)
    ensures |FoundRooms(rooms, bound, roomIds)| == |roomIds| <==> Distinct(roomIds) && forall x :: x in roomIds ==> x in rooms
  {
    FoundAllIff(FoundRooms(rooms, bound, roomIds), roomIds, rooms.Keys);
  }

  /** Some requested room has a non-Cancelled reservation whose stay
      overlaps the requested one half-open. */
  predicate AnyBooked(res: map<int, Reservation>, links: map<int, BookedRoom>, roomIds: seq<int>, reqIn: int, reqOut: int)
  {
    exists l :: l in links && links[l].room_id in roomIds && links[l].reservation_id in res
                && Holds(res[links[l].reservation_id])
                && Overlaps(res[links[l].reservation_id].check_in, res[links[l].reservation_id].check_out, reqIn, reqOut)
  }

  /** The checks before the customer's booking transaction, in order. */
  function BookingCheck(branches: map<int, Branch>, rooms: map<int, Room>, bound: int,
                        res: map<int, Reservation>, links: map<int, BookedRoom>, q: BookingRequest): (o: Outcome)
    requires Below(rooms, bound)
    ensures o.Reject? ==> o.error.cls == ValidationError && o.error.statusCode == 406
    ensures q.branch_id !in branches ==> o == Reject(New(ValidationError, Some("Invalid branch ID")))
    ensures q.branch_id in branches && !(Distinct(q.room_ids) && forall x :: x in q.room_ids ==> x in rooms)
            ==> o == Reject(New(ValidationError, Some("Some rooms do not exist")))
  {
    AllFoundIff(rooms, bound, q.room_ids);
    if q.branch_id !in branches then Reject(New(ValidationError, Some("Invalid branch ID")))
    else
      var found := FoundRooms(rooms, bound, q.room_ids);
      if |found| != |q.room_ids| then Reject(New(ValidationError, Some("Some rooms do not exist")))
      else if exists x :: x in found && rooms[x].branch_id != Some(q.branch_id) then
        Reject(New(ValidationError, Some("Some rooms do not belong to the selected branch")))
      else if AnyBooked(res, links, q.room_ids, q.check_in, q.check_out) then
        Reject(New(ValidationError, Some("One or more rooms are already booked for the selected dates")))
      else Pass
  }

  /** Rooms of another branch (or of none) are refused next, and then any
      room already held for an overlapping stay. */
  lemma BookingCheckLater(branches: map<int, Branch>, rooms: map<int, Room>, bound: int,
                          res: map<int, Reservation>, links: map<int, BookedRoom>, q: BookingRequest)
    requires Below(rooms, bound)
    requires q.branch_id in branches && Distinct(q.room_ids) && forall x :: x in q.room_ids ==> x in rooms
    ensures (exists x :: x in q.room_ids && rooms[x].branch_id != Some(q.branch_id))
            ==> BookingCheck(branches, rooms, bound, res, links, q)
                == Reject(New(ValidationError, Some("Some rooms do not belong to the selected branch")))
    ensures (forall x :: x in q.room_ids ==> rooms[x].branch_id == Some(q.branch_id))
            && AnyBooked(res, links, q.room_ids, q.check_in, q.check_out)
            ==> BookingCheck(branches, rooms, bound, res, links, q)
                == Reject(New(ValidationError, Some("One or more rooms are already booked for the selected dates")))
  {
    if exists x :: x in q.room_ids && rooms[x].branch_id != Some(q.branch_id) {
      BookingCheckFound(branches, rooms, bound, res, links, q);
    }
    if (forall x :: x in q.room_ids ==> rooms[x].branch_id == Some(q.branch_id))
       && AnyBooked(res, links, q.room_ids, q.check_in, q.check_out) {
      BookingCheckFound(branches, rooms, bound, res, links, q);
    }
  }

  /** Once the branch and the rooms are found, the remaining checks look at
      the requested rooms themselves. */
  lemma BookingCheckFound(branches: map<int, Branch>, rooms: map<int, Room>, bound: int,
                          res: map<int, Reservation>, links: map<int, BookedRoom>, q: BookingRequest)
    requires Below(rooms, bound)
    requires q.branch_id in branches && Distinct(q.room_ids) && forall x :: x in q.room_ids ==> x in rooms
    ensures BookingCheck(branches, rooms, bound, res, links, q)
            == if exists x :: x in q.room_ids && rooms[x].branch_id != Some(q.branch_id) then
                 Reject(New(ValidationError, Some("Some rooms do not belong to the selected branch")))
               else if AnyBooked(res, links, q.room_ids, q.check_in, q.check_out) then
                 Reject(New(ValidationError, Some("One or more rooms are already booked for the selected dates")))
               else Pass
  {
    var found := FoundRooms(rooms, bound, q.room_ids);
    AllFoundIff(rooms, bound, q.room_ids);
    assert |found| == |q.room_ids|;
    assert forall x :: x in found <==> x in q.room_ids;
  }

  /** The checks pass exactly when the branch exists, the room ids are
      distinct, every room exists in that branch, and none of them is held
      by an overlapping non-Cancelled reservation. */
  lemma BookingCheckPass(branches: map<int, Branch>, rooms: map<int, Room>, bound: int,
                         res: map<int, Reservation>, links: map<int, BookedRoom>, q: BookingRequest)
    requires Below(rooms, bound)
    ensures BookingCheck(branches, rooms, bound, res, links, q) == Pass
            <==> q.branch_id in branches && Distinct(q.room_ids)
                 && (forall x :: x in q.room_ids ==> x in rooms && rooms[x].branch_id == Some(q.branch_id))
                 && (forall x :: x in q.room_ids ==> FreeFor(res, links, x, q.check_in, q.check_out))
  {
    AllFoundIff(rooms, bound, q.room_ids);
    assert AnyBooked(res, links, q.room_ids, q.check_in, q.check_out)
           <==> exists x :: x in q.room_ids && !FreeFor(res, links, x, q.check_in, q.check_out);
  }

  /** The customer's booking: the checks, then one transaction that adds the
      reservation (No_show, payment Pending), one `bookedrooms` row per room
      and sets every listed room Occupied. */
  method CreateReservation(db: Db, customerId: int, q: BookingRequest, now: int) returns (result: Result<int>)
    requires db.Valid()
    modifies db
    ensures db.Valid()
    ensures var o := BookingCheck(old(db.branches), old(db.rooms), old(db.nextId), old(db.reservations), old(db.bookedRooms), q);
            (o.Reject? ==> result == Fail(Raised(o.error)) && unchanged(db))
            && (o == Pass ==>
                  result.Ok? && result.value == old(db.nextId) && result.value !in old(db.reservations)
                  && db.reservations == old(db.reservations)[result.value := Reservation(
                       customerId, q.branch_id, q.check_in, q.check_out, q.occupants, q.number_of_rooms, PaymentPending, NoShow, now)]
                  && LinkedAfter(old(db.bookedRooms), db.bookedRooms, result.value, q.room_ids)
                  && db.rooms == SetStatus(old(db.rooms), (set x | x in q.room_ids), Occupied))
    ensures q.check_in < q.check_out && NoDoubleBooking(old(db.reservations), old(db.bookedRooms))
            ==> NoDoubleBooking(db.reservations, db.bookedRooms)
    ensures db.customers == old(db.customers) && db.billings == old(db.billings) && db.branches == old(db.branches)
    ensures db.roomTypes == old(db.roomTypes) && db.paymentDetails == old(db.paymentDetails)
    ensures db.blockedBookings == old(db.blockedBookings) && db.blockedRooms == old(db.blockedRooms)
  {
    var o := BookingCheck(db.branches, db.rooms, db.nextId, db.reservations, db.bookedRooms, q);
    if o.Reject? {
      return Fail(Raised(o.error));
    }
    BookingCheckPass(db.branches, db.rooms, db.nextId, db.reservations, db.bookedRooms, q);
    var r := Reservation(customerId, q.branch_id, q.check_in, q.check_out, q.occupants, q.number_of_rooms, PaymentPending, NoShow, now);
    ghost var res0, links0 := db.reservations, db.bookedRooms;
    var id := InsertReservation(db, r, q.room_ids);
    if q.check_in < q.check_out && NoDoubleBooking(res0, links0) {
      LinkedFreeRoomsKeepNoDoubleBooking(res0, links0, db.bookedRooms, id, r, q.room_ids);
    }
    UpdateRoomStatus(db, (set x | x in q.room_ids), Occupied);
    result := Ok(id);
  }

  // ---------------------------------------------------------------- cancel, complete

  /** Cancelling: a missing reservation is reported as a ValidationError; the
      reservation becomes Cancelled, its rooms become Available, and its
      `bookedrooms` rows stay. */
  method CancelReservation(db: Db, id: int) returns (result: Result<string>)
    requires db.Valid()
    modifies db
    ensures db.Valid()
    ensures id !in old(db.reservations) ==> result == Fail(Validation("Reservation not found")) && unchanged(db)
    ensures id in old(db.reservations) && old(db.reservations)[id].status == Cancelled
            ==> result == Fail(Validation("Reservation is already cancelled")) && unchanged(db)
    ensures id in old(db.reservations) && old(db.reservations)[id].status != Cancelled ==>
              result == Ok("Reservation cancelled successfully")
              && db.reservations == old(db.reservations)[id := old(db.reservations)[id].(status := Cancelled)]
              && db.rooms == SetStatus(old(db.rooms), RoomsOf(old(db.bookedRooms), id), Available)
    ensures NoDoubleBooking(old(db.reservations), old(db.bookedRooms)) ==> NoDoubleBooking(db.reservations, db.bookedRooms)
    ensures db.bookedRooms == old(db.bookedRooms) && db.nextId == old(db.nextId)
    ensures db.customers == old(db.customers) && db.billings == old(db.billings) && db.branches == old(db.branches)
    ensures db.roomTypes == old(db.roomTypes) && db.paymentDetails == old(db.paymentDetails)
    ensures db.blockedBookings == old(db.blockedBookings) && db.blockedRooms == old(db.blockedRooms)
  {
    if id !in db.reservations {
      return Fail(Validation("Reservation not found"));
    }
    if db.reservations[id].status == Cancelled {
      return Fail(Validation("Reservation is already cancelled"));
    }
    var rooms := RoomsOf(db.bookedRooms, id);
    ghost var res0 := db.reservations;
    db.reservations := db.reservations[id := db.reservations[id].(status := Cancelled)];
    db.rooms := SetStatus(db.rooms, rooms, Available);
    if NoDoubleBooking(res0, db.bookedRooms) {
      FewerHoldsKeepNoDoubleBooking(res0, db.reservations, db.bookedRooms);
    }
    result := Ok("Reservation cancelled successfully");
  }

  /** Completing: the reservation must exist, not be Cancelled and be Paid;
      it then gets the status 'Complete'. */
  method CompleteReservation(db: Db, id: int) returns (result: Result<Reservation>)
    requires db.Valid()
    modifies db
    ensures db.Valid()
    ensures id !in old(db.reservations) ==> result == Fail(NotFound("Reservation not found")) && unchanged(db)
    ensures id in old(db.reservations) && old(db.reservations)[id].status == Cancelled
            ==> result == Fail(Validation("Cancelled reservations cannot be marked as complete")) && unchanged(db)
    ensures id in old(db.reservations) && old(db.reservations)[id].status != Cancelled && old(db.reservations)[id].payment != PaymentPaid
            ==> result == Fail(Validation("Only paid reservations can be marked as complete")) && unchanged(db)
    ensures id in old(db.reservations) && old(db.reservations)[id].status != Cancelled && old(db.reservations)[id].payment == PaymentPaid
            ==> result == Ok(old(db.reservations)[id].(status := Complete))
                && db.reservations == old(db.reservations)[id := result.value]
    ensures NoDoubleBooking(old(db.reservations), old(db.bookedRooms)) ==> NoDoubleBooking(db.reservations, db.bookedRooms)
    ensures db.rooms == old(db.rooms) && db.bookedRooms == old(db.bookedRooms) && db.nextId == old(db.nextId)
    ensures db.customers == old(db.customers) && db.billings == old(db.billings) && db.branches == old(db.branches)
    ensures db.roomTypes == old(db.roomTypes) && db.paymentDetails == old(db.paymentDetails)
    ensures db.blockedBookings == old(db.blockedBookings) && db.blockedRooms == old(db.blockedRooms)
  {
    if id !in db.reservations {
      return Fail(NotFound("Reservation not found"));
    }
    var r := db.reservations[id];
    if r.status == Cancelled {
      return Fail(Validation("Cancelled reservations cannot be marked as complete"));
    }
    if r.payment != PaymentPaid {
      return Fail(Validation("Only paid reservations can be marked as complete"));
    }
    ghost var res0 := db.reservations;
    db.reservations := db.reservations[id := r.(status := Complete)];
    if NoDoubleBooking(res0, db.bookedRooms) {
      FewerHoldsKeepNoDoubleBooking(res0, db.reservations, db.bookedRooms);
    }
    result := Ok(r.(status := Complete));
  }

  // ---------------------------------------------------------------- listing

  /** The customer's reservations, latest check-in first. */
  function ReservationsByCustomer(res: map<int, Reservation>, bound: int, customerId: int): (s: seq<int>)
    requires Below(res, bound)
    ensures forall id :: id in s <==> id in res && res[id].customer_id == customerId
    ensures Distinct(s)
    ensures forall i :: 0 <= i < |s| ==> s[i] in res
    ensures forall i :: 0 <= i < |s| - 1 ==> res[s[i]].check_in >= res[s[i + 1]].check_in
  {
    LatestFirst(res, Select(RowOrder(res, bound), (id: int) => id in res && res[id].customer_id == customerId))
  }

  // ---------------------------------------------------------------- payment

  /** The payment body; numbers are truthy when non-zero, strings when non-empty. */
  datatype PaymentRequest = PaymentRequest(
    reservationId: Option<int>,
    cardType: Option<string>,
    cardNumber: Option<string>,
    cardExpMonth: Option<string>,
    cardExpYear: Option<string>,
    cvnCode: Option<string>)

  predicate AllPaymentFields(q: PaymentRequest)
  {
    TruthyNum(q.reservationId) && TruthyStr(q.cardType) && TruthyStr(q.cardNumber)
    && TruthyStr(q.cardExpMonth) && TruthyStr(q.cardExpYear) && TruthyStr(q.cvnCode)
  }

  function DetailsOf(q: PaymentRequest): PaymentDetails
    requires AllPaymentFields(q)
  {
    PaymentDetails(q.cardType.value, q.cardNumber.value, q.cardExpMonth.value, q.cardExpYear.value, q.cvnCode.value)
  }

  /** The payment submission as written: after the field, existence and
      duplicate checks the reservation gets payment Confirmed and status
      Confirmed, whatever its status was. */
  function PaymentDecision(res: map<int, Reservation>, details: map<int, PaymentDetails>, q: PaymentRequest): (d: Result<Reservation>)
    ensures !AllPaymentFields(q) ==> d == Fail(Validation("All fields are required."))
    ensures AllPaymentFields(q) && q.reservationId.value !in res
            ==> d == Fail(NotFound("Reservation with ID " + IntText(q.reservationId.value) + " not found."))
    ensures AllPaymentFields(q) && q.reservationId.value in res && q.reservationId.value in details
            ==> d == Fail(BadRequest("Payment details for this reservation already exist."))
    ensures d.Ok? <==> AllPaymentFields(q) && q.reservationId.value in res && q.reservationId.value !in details
    ensures d.Ok? ==> d.value.status == Confirmed && d.value.payment == PaymentConfirmed
                      && d.value.check_in == res[q.reservationId.value].check_in
                      && d.value.check_out == res[q.reservationId.value].check_out
  {
    if !AllPaymentFields(q) then Fail(Validation("All fields are required."))
    else
      var id := q.reservationId.value;
      if id !in res then Fail(NotFound("Reservation with ID " + IntText(id) + " not found."))
      else if id in details then Fail(BadRequest("Payment details for this reservation already exist."))
      else Ok(res[id].(payment := PaymentConfirmed, status := Confirmed))
  }

  /** The payment submission: the details row, then the two status updates. */
  method AddReservationPaymentDetails(db: Db, q: PaymentRequest) returns (result: Result<PaymentDetails>)
    requires db.Valid()
    modifies db
    ensures db.Valid()
    ensures var d := PaymentDecision(old(db.reservations), old(db.paymentDetails), q);
            (d.Fail? ==> result == Fail(d.error) && unchanged(db))
            && (d.Ok? ==>
                  result == Ok(DetailsOf(q))
                  && db.paymentDetails == old(db.paymentDetails)[q.reservationId.value := DetailsOf(q)]
                  && db.reservations == old(db.reservations)[q.reservationId.value := d.value])
    ensures db.rooms == old(db.rooms) && db.bookedRooms == old(db.bookedRooms) && db.nextId == old(db.nextId)
    ensures db.customers == old(db.customers) && db.billings == old(db.billings) && db.branches == old(db.branches)
    ensures db.roomTypes == old(db.roomTypes)
    ensures db.blockedBookings == old(db.blockedBookings) && db.blockedRooms == old(db.blockedRooms)
  {
    var d := PaymentDecision(db.reservations, db.paymentDetails, q);
    if d.Fail? {
      return Fail(d.error);
    }
    var id := q.reservationId.value;
    var details := DetailsOf(q);
    db.paymentDetails := db.paymentDetails[id := details];
    db.reservations := db.reservations[id := db.reservations[id].(payment := PaymentConfirmed)];
    db.reservations := db.reservations[id := db.reservations[id].(status := Confirmed)];
    result := Ok(details);
  }

  /** Two reservations of the same room, stays overlapping, one Cancelled:
      no double booking. Paying for the Cancelled one makes it Confirmed
      again, and the room is then held twice. */
  lemma PaymentRevivesCancelled()
    ensures var res := map[1 := Reservation(9, 5, 0, 10, None, 1, PaymentPending, Cancelled, 0),
                           2 := Reservation(9, 5, 0, 10, None, 1, PaymentPending, Confirmed, 0)];
            var links := map[3 := BookedRoom(1, 7), 4 := BookedRoom(2, 7)];
            var q := PaymentRequest(Some(1), Some("VISA"), Some("4111"), Some("12"), Some("2030"), Some("123"));
            var d := PaymentDecision(res, map[], q);
            NoDoubleBooking(res, links) && d.Ok? && !NoDoubleBooking(res[1 := d.value], links)
  {
    var res := map[1 := Reservation(9, 5, 0, 10, None, 1, PaymentPending, Cancelled, 0),
                   2 := Reservation(9, 5, 0, 10, None, 1, PaymentPending, Confirmed, 0)];
    var links := map[3 := BookedRoom(1, 7), 4 := BookedRoom(2, 7)];
    var q := PaymentRequest(Some(1), Some("VISA"), Some("4111"), Some("12"), Some("2030"), Some("123"));
    var after := res[1 := PaymentDecision(res, map[], q).value];
    assert Holds(after[links[3].reservation_id]) && Holds(after[links[4].reservation_id]);
    assert Overlaps(after[1].check_in, after[1].check_out, after[2].check_in, after[2].check_out);
  }

  /** The payment submission with the status check it evidently needs: a
      Cancelled reservation is refused instead of revived. */
  function GuardedPaymentDecision(res: map<int, Reservation>, details: map<int, PaymentDetails>, q: PaymentRequest): (d: Result<Reservation>)
    ensures d.Ok? <==> PaymentDecision(res, details, q).Ok? && res[q.reservationId.value].status != Cancelled
    ensures d.Ok? ==> d == PaymentDecision(res, details, q)
  {
    var d := PaymentDecision(res, details, q);
    if d.Ok? && res[q.reservationId.value].status == Cancelled then
      Fail(Validation("Cannot add payment details to a cancelled reservation"))
    else d
  }

  /** The guarded submission keeps the no-double-booking rule. */
  lemma GuardedPaymentKeepsNoDoubleBooking(res: map<int, Reservation>, links: map<int, BookedRoom>,
                                           details: map<int, PaymentDetails>, q: PaymentRequest)
    requires NoDoubleBooking(res, links)
    requires GuardedPaymentDecision(res, details, q).Ok?
    ensures NoDoubleBooking(res[q.reservationId.value := GuardedPaymentDecision(res, details, q).value], links)
  {
    FewerHoldsKeepNoDoubleBooking(res, res[q.reservationId.value := GuardedPaymentDecision(res, details, q).value], links);
  }

  // ---------------------------------------------------------------- profile

  /** The profile fields sent; `password` is the new password, if any. */
  datatype ProfileUpdate = ProfileUpdate(
    full_name: Option<string>,
    phone: Option<string>,
    address: Option<string>,
    password: Option<string>)

  /** The profile fields returned after the update. */
  datatype Profile = Profile(id: int, full_name: string, email: string, phone: Option<string>, address: Option<string>)

  /** The row after the update: each truthy field is written, the password
      as its hash `hashed`; everything else keeps its value. */
  function MergeProfile(c: Customer, u: ProfileUpdate, hashed: string): (r: Customer)
  {
    c.(full_name := if TruthyStr(u.full_name) then u.full_name.value else c.full_name,
       phone := if TruthyStr(u.phone) then u.phone else c.phone,
       address := if TruthyStr(u.address) then u.address else c.address,
       password_hash := if TruthyStr(u.password) then Some(hashed) else c.password_hash)
  }

  /** The email never changes; a field changes only when it was supplied,
      and only to the supplied value. */
  lemma MergeProfileFields(c: Customer, u: ProfileUpdate, hashed: string)
    ensures var r := MergeProfile(c, u, hashed);
            r.email == c.email
            && (r.full_name != c.full_name ==> TruthyStr(u.full_name) && r.full_name == u.full_name.value)
            && (r.phone != c.phone ==> TruthyStr(u.phone) && r.phone == u.phone)
            && (r.address != c.address ==> TruthyStr(u.address) && r.address == u.address)
            && (r.password_hash != c.password_hash ==> TruthyStr(u.password) && r.password_hash == Some(hashed))
            && (u == ProfileUpdate(None, None, None, None) ==> r == c)
  {
  }

  /** Sending the same update twice gives the same row as sending it once. */
  lemma MergeProfileIdempotent(c: Customer, u: ProfileUpdate, hashed: string)
    ensures MergeProfile(MergeProfile(c, u, hashed), u, hashed) == MergeProfile(c, u, hashed)
  {
  }

  /** The profile update; the password hash the service would compute is a
      parameter. */
  method UpdateProfile(db: Db, customerId: int, u: ProfileUpdate, hashed: string) returns (result: Result<Profile>)
    requires db.Valid()
    modifies db
    ensures db.Valid()
    ensures customerId !in old(db.customers) ==> result == Fail(NotFound("Customer not found")) && unchanged(db)
    ensures customerId in old(db.customers) ==>
              var r := MergeProfile(old(db.customers)[customerId], u, hashed);
              db.customers == old(db.customers)[customerId := r]
              && result == Ok(Profile(customerId, r.full_name, r.email, r.phone, r.address))
    ensures db.rooms == old(db.rooms) && db.bookedRooms == old(db.bookedRooms) && db.nextId == old(db.nextId)
    ensures db.reservations == old(db.reservations) && db.billings == old(db.billings) && db.branches == old(db.branches)
    ensures db.roomTypes == old(db.roomTypes) && db.paymentDetails == old(db.paymentDetails)
    ensures db.blockedBookings == old(db.blockedBookings) && db.blockedRooms == old(db.blockedRooms)
  {
    if customerId !in db.customers {
      return Fail(NotFound("Customer not found"));
    }
    var updated := db.customers[customerId];
    if TruthyStr(u.full_name) { updated := updated.(full_name := u.full_name.value); }
    if TruthyStr(u.phone) { updated := updated.(phone := u.phone); }
    if TruthyStr(u.address) { updated := updated.(address := u.address); }
    if TruthyStr(u.password) { updated := updated.(password_hash := Some(hashed)); }
    db.customers := db.customers[customerId := updated];
    result := Ok(Profile(customerId, updated.full_name, updated.email, updated.phone, updated.address));
  }

  // ---------------------------------------------------------------- available rooms

  /** The rooms held by a non-Cancelled reservation overlapping the stay. */
  function BookedRoomIds(res: map<int, Reservation>, links: map<int, BookedRoom>, checkIn: int, checkOut: int): (s: set<int>)
    ensures forall room :: room in s <==> !FreeFor(res, links, room, checkIn, checkOut)
  {
    set l | l in links && links[l].reservation_id in res && Holds(res[links[l].reservation_id])
            && Overlaps(res[links[l].reservation_id].check_in, res[links[l].reservation_id].check_out, checkIn, checkOut)
          :: links[l].room_id
  }

  /** The available-rooms query: the branch's Available rooms that no
      overlapping non-Cancelled reservation holds, in id order. */
  function GetAvailableRooms(branches: map<int, Branch>, rooms: map<int, Room>, bound: int,
                             res: map<int, Reservation>, links: map<int, BookedRoom>,
                             branch: int, checkIn: DateArg, checkOut: DateArg): (r: Result<seq<int>>)
    requires Below(rooms, bound)
    ensures branch !in branches ==> r == Fail(Validation("Invalid branch ID"))
    ensures branch in branches && !(checkIn.At? && checkOut.At?) ==> r == Fail(Validation("Invalid date format"))
    ensures branch in branches && checkIn.At? && checkOut.At? && checkOut.time <= checkIn.time
            ==> r == Fail(Validation("Check-out date must be after check-in date"))
    ensures r.Ok? <==> branch in branches && checkIn.At? && checkOut.At? && checkIn.time < checkOut.time
    ensures r.Ok? ==> Increasing(r.value)
                      && forall id :: id in r.value <==>
                           id in rooms && rooms[id].branch_id == Some(branch) && rooms[id].status == Available
                           && FreeFor(res, links, id, checkIn.time, checkOut.time)
  {
    if branch !in branches then Fail(Validation("Invalid branch ID"))
    else if !checkIn.At? || !checkOut.At? then Fail(Validation("Invalid date format"))
    else if checkOut.time <= checkIn.time then Fail(Validation("Check-out date must be after check-in date"))
    else
      var booked := BookedRoomIds(res, links, checkIn.time, checkOut.time);
      Ok(Select(RowOrder(rooms, bound),
                (id: int) => id in rooms && rooms[id].branch_id == Some(branch) && rooms[id].status == Available && id !in booked))
  }

  /** Whatever the query lists can be booked together for the same dates. */
  lemma AvailableRoomsBookable(branches: map<int, Branch>, rooms: map<int, Room>, bound: int,
                               res: map<int, Reservation>, links: map<int, BookedRoom>,
                               branch: int, checkIn: int, checkOut: int, occupants: Option<int>, n: int)
    requires Below(rooms, bound)
    ensures var r := GetAvailableRooms(branches, rooms, bound, res, links, branch, At(checkIn), At(checkOut));
            r.Ok? ==> BookingCheck(branches, rooms, bound, res, links,
                                   BookingRequest(branch, checkIn, checkOut, occupants, n, r.value)) == Pass
  {
    var r := GetAvailableRooms(branches, rooms, bound, res, links, branch, At(checkIn), At(checkOut));
    if r.Ok? {
      BookingCheckPass(branches, rooms, bound, res, links, BookingRequest(branch, checkIn, checkOut, occupants, n, r.value));
    }
  }
}
