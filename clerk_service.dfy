/** The front-desk clerk's operations on reservations: creation by room type
    (first conflict-free rooms), listing with filters and paging, check-in,
    check-out with billing, checkout extension, optional charges, and the
    room status list. */
module ClerkService {
  import opened Js
  import opened AppErrors
  import opened Ordering
  import opened Calendar
  import opened Schema
  import opened Numerals

  // ---------------------------------------------------------------- create

  datatype CustomerInput = CustomerInput(
    full_name: string,
    email: string,
    phone: Option<string>,
    address: Option<string>)

  /** The request body of the clerk's reservation creation. */
  datatype CreateRequest = CreateRequest(
    customer: Option<CustomerInput>,
    branch_id: Option<int>,
    check_in: DateArg,
    check_out: DateArg,
    number_of_occupants: Option<int>,
    room_type_id: Option<int>,
    number_of_rooms: Option<int>)

  /** date fields are truthy when given; numbers when given and non-zero. */
  predicate RequiredPresent(req: CreateRequest)
  {
    req.customer.Some? && TruthyNum(req.branch_id) && !req.check_in.Absent? && !req.check_out.Absent?
    && TruthyNum(req.room_type_id) && TruthyNum(req.number_of_rooms)
  }

  /** Both dates parse to instants. */
  predicate DatesParse(req: CreateRequest)
  {
    req.check_in.At? && req.check_out.At?
  }

  /** The date check `checkIn >= checkOut` does not fire; with an invalid
      date the comparison is false, so it passes. */
  predicate DatesPass(req: CreateRequest)
  {
    !(DatesParse(req) && req.check_in.time >= req.check_out.time)
  }

  /** The clerk's conflict query for one room comes back empty: no
      `bookedrooms` row of the room belongs to a non-Cancelled reservation
      whose stay touches [reqIn, reqOut], ends included. */
  predicate FreeForClerk(res: map<int, Reservation>, links: map<int, BookedRoom>, room: int, reqIn: int, reqOut: int)
  {
    !exists l :: l in links && links[l].room_id == room && links[l].reservation_id in res
                 && Holds(res[links[l].reservation_id])
                 && TouchesInclusive(res[links[l].reservation_id].check_in, res[links[l].reservation_id].check_out, reqIn, reqOut)
  }

  /** The conflict query as a test on room ids. */
  function FreeRoom(res: map<int, Reservation>, links: map<int, BookedRoom>, reqIn: int, reqOut: int): int -> bool
  {
    (room: int) => FreeForClerk(res, links, room, reqIn, reqOut)
  }

  /** The selection loop: walk the candidates, keep the free ones, and stop
      as soon as `n` rooms are kept. */
  function Pick(cands: seq<int>, free: int -> bool, n: int, chosen: seq<int>): seq<int>
  {
    if cands == [] then chosen
    else
      var next := if free(cands[0]) then chosen + [cands[0]] else chosen;
      if |next| == n then next else Pick(cands[1..], free, n, next)
  }

  /** The loop keeps exactly the first `n` free candidates when there are
      that many, and otherwise all of them; a negative `n` is never reached,
      so then every free candidate is kept. */
  lemma {:induction false} PickIsFreePrefix(cands: seq<int>, free: int -> bool, n: int, chosen: seq<int>)
    requires n < 0 || |chosen| < n
    ensures var f := Select(cands, free);
            Pick(cands, free, n, chosen)
            == chosen + (if n >= 0 && |f| >= n - |chosen| then f[..n - |chosen|] else f)
  {
    var f := Select(cands, free);
    if cands == [] {
    } else {
      var next := if free(cands[0]) then chosen + [cands[0]] else chosen;
      var g := Select(cands[1..], free);
      if free(cands[0]) {
        assert f == [cands[0]] + g;
        if |next| == n {
          assert f[..n - |chosen|] == [cands[0]];
        } else {
          PickIsFreePrefix(cands[1..], free, n, next);
          if n >= 0 && |f| >= n - |chosen| {
            assert f[..n - |chosen|] == [cands[0]] + g[..n - |next|];
          }
        }
      } else {
        assert f == g;
        PickIsFreePrefix(cands[1..], free, n, next);
      }
    }
  }

  /** What the selection keeps from a candidate list without repeated ids:
      free candidates, in candidate order, without repetition, and never
      more than `n` when `n` is positive. */
  lemma PickedRooms(cands: seq<int>, free: int -> bool, n: int)
    requires Increasing(cands)
    requires n != 0
    ensures var p := Pick(cands, free, n, []);
            Increasing(p)
            && (forall r :: r in p ==> r in cands && free(r))
            && (n > 0 ==> |p| <= n)
            && (n > 0 && |Select(cands, free)| >= n ==> |p| == n)
            && (n < 0 ==> forall r :: r in cands && free(r) ==> r in p)
  {
    PickIsFreePrefix(cands, free, n, []);
    var f := Select(cands, free);
    if n >= 0 && |f| >= n {
      assert forall r :: r in f[..n] ==> r in f;
      assert Increasing(f[..n]);
    }
  }

  /** The customer row with this email, if any (the column is unique). */
  function CustomerByEmail(customers: map<int, Customer>, bound: int, email: string): (r: Option<int>)
    requires Below(customers, bound)
    ensures r.Some? <==> exists id :: id in customers && customers[id].email == email
    ensures r.Some? ==> r.value in customers && customers[r.value].email == email
  {
    FirstWith(RowOrder(customers, bound), (id: int) => id in customers && customers[id].email == email)
  }

  /** A room free under the clerk's inclusive test is free under the
      half-open one. */
  lemma ClerkFreeIsFree(res: map<int, Reservation>, links: map<int, BookedRoom>, room: int, reqIn: int, reqOut: int)
    requires FreeForClerk(res, links, room, reqIn, reqOut)
    ensures FreeFor(res, links, room, reqIn, reqOut)
  {
    forall l | l in links && links[l].room_id == room && links[l].reservation_id in res && Holds(res[links[l].reservation_id])
      ensures !Overlaps(res[links[l].reservation_id].check_in, res[links[l].reservation_id].check_out, reqIn, reqOut)
    {
      InclusiveIsStricter(res[links[l].reservation_id].check_in, res[links[l].reservation_id].check_out, reqIn, reqOut);
    }
  }

  /** After the clerk's creation the no-double-booking rule still holds:
      every linked room was free under the inclusive test, which rejects
      whatever the half-open test rejects, and the rooms are distinct. */
  lemma ClerkCreateKeepsNoDoubleBooking(
      res: map<int, Reservation>, links: map<int, BookedRoom>, id: int, r: Reservation, rooms: seq<int>, firstId: int)
    requires NoDoubleBooking(res, links)
    requires id !in res
    requires forall l :: l in links ==> links[l].reservation_id in res && l < firstId
    requires r.check_in < r.check_out
    requires Increasing(rooms)
    requires forall room :: room in rooms ==> FreeForClerk(res, links, room, r.check_in, r.check_out)
    ensures NoDoubleBooking(res[id := r], links + Links(id, rooms, firstId))
  {
    forall room | room in rooms ensures FreeFor(res, links, room, r.check_in, r.check_out) {
      ClerkFreeIsFree(res, links, room, r.check_in, r.check_out);
    }
    LinkingFreeRoomsKeepsNoDoubleBooking(res, links, id, r, rooms, firstId);
  }

  /** The same, for the table as `InsertReservation` leaves it. */
  lemma ClerkBookingKeepsNoDoubleBooking(
      res: map<int, Reservation>, links: map<int, BookedRoom>, after: map<int, BookedRoom>, id: int, r: Reservation, rooms: seq<int>)
    requires NoDoubleBooking(res, links)
    requires id !in res
    requires forall l :: l in links ==> links[l].reservation_id in res && l < id + 1
    requires r.check_in < r.check_out
    requires Increasing(rooms)
    requires forall room :: room in rooms ==> FreeForClerk(res, links, room, r.check_in, r.check_out)
    requires LinkedAfter(links, after, id, rooms)
    ensures NoDoubleBooking(res[id := r], after)
  {
    ClerkCreateKeepsNoDoubleBooking(res, links, id, r, rooms, id + 1);
  }

  /** The room step of the clerk's creation: the first `n` free candidates,
      or the BadRequest for too few candidates or too few free ones. */
  function RoomChoice(rooms: map<int, Room>, bound: int, res: map<int, Reservation>, links: map<int, BookedRoom>,
                      branch: int, roomType: int, checkIn: int, checkOut: int, n: int): (d: Result<seq<int>>)
    requires Below(rooms, bound)
    ensures d.Fail? ==> d.error.Raised? && d.error.error.cls == BadRequestError && d.error.error.statusCode == 400
  {
    var cands := Candidates(rooms, bound, branch, roomType);
    if |cands| < n then
      Fail(BadRequest("Not enough rooms available. Requested: " + IntText(n) + ", Available: " + IntText(|cands|)))
    else
      var chosen := Pick(cands, FreeRoom(res, links, checkIn, checkOut), n, []);
      if |chosen| < n then Fail(BadRequest("Rooms not available for the selected dates"))
      else Ok(chosen)
  }

  /** The rooms the clerk's creation books, or the BadRequest it fails with. */
  function ClerkDecision(rooms: map<int, Room>, bound: int, res: map<int, Reservation>, links: map<int, BookedRoom>,
                         req: CreateRequest): (d: Result<seq<int>>)
    requires Below(rooms, bound)
    ensures d.Ok? ==> RequiredPresent(req) && DatesParse(req) && req.check_in.time < req.check_out.time
    ensures d.Fail? ==> (d.error.Raised? && d.error.error.cls == BadRequestError && d.error.error.statusCode == 400)
                        || (d.error == Unexpected(INVALID_DATE) && !DatesParse(req))
    ensures !RequiredPresent(req) ==> d == Fail(BadRequest("Missing required fields"))
    ensures RequiredPresent(req) && !DatesPass(req)
            ==> d == Fail(BadRequest("Check-out date must be after check-in date"))
    ensures RequiredPresent(req) && !DatesParse(req) ==>
              var cands := Candidates(rooms, bound, req.branch_id.value, req.room_type_id.value);
              var n := req.number_of_rooms.value;
              (|cands| < n ==> d == Fail(BadRequest("Not enough rooms available. Requested: " + IntText(n) + ", Available: " + IntText(|cands|))))
              && (|cands| >= n ==> d == Fail(Unexpected(INVALID_DATE)))
  {
    if !RequiredPresent(req) then Fail(BadRequest("Missing required fields"))
    else if !DatesPass(req) then Fail(BadRequest("Check-out date must be after check-in date"))
    else if !DatesParse(req) then
      InvalidDateChoice(rooms, bound, req.branch_id.value, req.room_type_id.value, req.number_of_rooms.value)
    else RoomChoice(rooms, bound, res, links, req.branch_id.value, req.room_type_id.value,
                    req.check_in.time, req.check_out.time, req.number_of_rooms.value)
  }

  /** The room step with an invalid date: the candidate query and the
      count check do not use the dates, and the next query (the first
      conflict query, or with no candidate the reservation insert) is
      rejected by the database. */
  function InvalidDateChoice(rooms: map<int, Room>, bound: int, branch: int, roomType: int, n: int): (d: Result<seq<int>>)
    requires Below(rooms, bound)
    ensures d.Fail?
  {
    var cands := Candidates(rooms, bound, branch, roomType);
    if |cands| < n then
      Fail(BadRequest("Not enough rooms available. Requested: " + IntText(n) + ", Available: " + IntText(|cands|)))
    else Fail(Unexpected(INVALID_DATE))
  }

  /** Every booked room is a free candidate: in the branch, of the type,
      Available and without a touching stay; the rooms are listed in
      ascending id without repetition, and a positive count is met exactly. */
  lemma ClerkDecisionRooms(rooms: map<int, Room>, bound: int, res: map<int, Reservation>, links: map<int, BookedRoom>,
                           req: CreateRequest)
    requires Below(rooms, bound)
    ensures var d := ClerkDecision(rooms, bound, res, links, req);
            d.Ok? ==>
              Increasing(d.value)
              && (forall room :: room in d.value ==>
                    room in rooms && rooms[room].branch_id == req.branch_id && rooms[room].room_type_id == req.room_type_id.value
                    && rooms[room].status == Available
                    && FreeForClerk(res, links, room, req.check_in.time, req.check_out.time))
              && (req.number_of_rooms.value > 0 ==> |d.value| == req.number_of_rooms.value)
  {
    if RequiredPresent(req) && DatesParse(req) && req.check_in.time < req.check_out.time {
      var cands := Candidates(rooms, bound, req.branch_id.value, req.room_type_id.value);
      PickedRooms(cands, FreeRoom(res, links, req.check_in.time, req.check_out.time), req.number_of_rooms.value);
    }
  }

  /** The creation succeeds exactly when every field is there, the dates are
      in order, there are at least as many candidates as rooms asked for, and
      (for a positive count) at least that many of them are free; then it
      books the first free candidates. */
  lemma ClerkDecisionOk(rooms: map<int, Room>, bound: int, res: map<int, Reservation>, links: map<int, BookedRoom>,
                        req: CreateRequest)
    requires Below(rooms, bound)
    ensures var d := ClerkDecision(rooms, bound, res, links, req);
            d.Ok? <==>
              RequiredPresent(req) && DatesParse(req) && req.check_in.time < req.check_out.time
              && var cands := Candidates(rooms, bound, req.branch_id.value, req.room_type_id.value);
                 var n := req.number_of_rooms.value;
                 var f := Select(cands, FreeRoom(res, links, req.check_in.time, req.check_out.time));
                 |cands| >= n && (n < 0 || |f| >= n)
    ensures var d := ClerkDecision(rooms, bound, res, links, req);
            d.Ok? ==>
              var f := Select(Candidates(rooms, bound, req.branch_id.value, req.room_type_id.value),
                              FreeRoom(res, links, req.check_in.time, req.check_out.time));
              var n := req.number_of_rooms.value;
              d.value == (if n > 0 then f[..n] else f)
  {
    if RequiredPresent(req) && DatesParse(req) && req.check_in.time < req.check_out.time {
      RoomChoiceOk(rooms, bound, res, links, req.branch_id.value, req.room_type_id.value,
                   req.check_in.time, req.check_out.time, req.number_of_rooms.value);
    }
  }

  /** The room step succeeds exactly when there are enough candidates and,
      for a positive count, enough free ones; it then books the first ones. */
  lemma RoomChoiceOk(rooms: map<int, Room>, bound: int, res: map<int, Reservation>, links: map<int, BookedRoom>,
                     branch: int, roomType: int, checkIn: int, checkOut: int, n: int)
    requires Below(rooms, bound) && n != 0
    ensures var cands := Candidates(rooms, bound, branch, roomType);
            var f := Select(cands, FreeRoom(res, links, checkIn, checkOut));
            var d := RoomChoice(rooms, bound, res, links, branch, roomType, checkIn, checkOut, n);
            (d.Ok? <==> |cands| >= n && (n < 0 || |f| >= n))
            && (d.Ok? ==> d.value == (if n > 0 then f[..n] else f))
  {
    var cands := Candidates(rooms, bound, branch, roomType);
    var free := FreeRoom(res, links, checkIn, checkOut);
    PickOutcome(cands, free, n);
  }

  /** The selection loop keeps at least `n` rooms exactly when `n` is
      negative or there are `n` free candidates, and then keeps the first
      `n` of them (all of them for a negative `n`). */
  lemma PickOutcome(cands: seq<int>, free: int -> bool, n: int)
    requires n != 0
    ensures var f := Select(cands, free);
            var p := Pick(cands, free, n, []);
            (|p| >= n <==> n < 0 || |f| >= n)
            && (|p| >= n ==> p == if n > 0 then f[..n] else f)
  {
    PickIsFreePrefix(cands, free, n, []);
  }

  /** The clerk's creation. The customer is looked up by email and created
      when missing BEFORE rooms are searched, so the room failures and the
      database's rejection of an invalid date leave that new customer
      behind; no reservation or booking is written on any failure, and room
      statuses are never changed. */
  method CreateReservation(db: Db, req: CreateRequest, now: int) returns (result: Result<int>)
    requires db.Valid()
    modifies db
    ensures db.Valid()
    ensures db.rooms == old(db.rooms) && db.billings == old(db.billings) && db.branches == old(db.branches)
    ensures db.roomTypes == old(db.roomTypes) && db.paymentDetails == old(db.paymentDetails)
    ensures db.blockedBookings == old(db.blockedBookings) && db.blockedRooms == old(db.blockedRooms)
    ensures !(RequiredPresent(req) && DatesPass(req)) ==> unchanged(db)
    ensures RequiredPresent(req) && DatesPass(req) ==>
              var c := req.customer.value;
              var found := CustomerByEmail(old(db.customers), old(db.nextId), c.email);
              (found.Some? ==> db.customers == old(db.customers))
              && (found.None? ==>
                    db.customers == old(db.customers)[old(db.nextId) := Customer(c.full_name, c.email, c.phone, c.address, None)])
    ensures var d := ClerkDecision(old(db.rooms), old(db.nextId), old(db.reservations), old(db.bookedRooms), req);
            (d.Fail? ==> result == Fail(d.error) && db.reservations == old(db.reservations) && db.bookedRooms == old(db.bookedRooms))
            && (d.Ok? ==>
                  result.Ok? && result.value !in old(db.reservations) && result.value in db.reservations
                  && db.reservations == old(db.reservations)[result.value := Reservation(
                       db.reservations[result.value].customer_id, req.branch_id.value, req.check_in.time, req.check_out.time,
                       req.number_of_occupants, req.number_of_rooms.value, PaymentPending, Confirmed, now)]
                  && db.reservations[result.value].customer_id in db.customers
                  && db.customers[db.reservations[result.value].customer_id].email == req.customer.value.email
                  && LinkedAfter(old(db.bookedRooms), db.bookedRooms, result.value, d.value))
    ensures NoDoubleBooking(old(db.reservations), old(db.bookedRooms)) ==> NoDoubleBooking(db.reservations, db.bookedRooms)
  {
    ghost var d := ClerkDecision(db.rooms, db.nextId, db.reservations, db.bookedRooms, req);
    if !RequiredPresent(req) {
      return Fail(BadRequest("Missing required fields"));
    }
    if req.check_in.At? && req.check_out.At? && req.check_in.time >= req.check_out.time {
      return Fail(BadRequest("Check-out date must be after check-in date"));
    }
    ghost var bound := db.nextId;
    var customerId := FindOrCreateCustomer(db, req.customer.value);
    if !req.check_in.At? || !req.check_out.At? {
      var cands := Candidates(db.rooms, db.nextId, req.branch_id.value, req.room_type_id.value);
      CandidatesBound(db.rooms, bound, db.nextId, req.branch_id.value, req.room_type_id.value);
      if |cands| < req.number_of_rooms.value {
        return Fail(BadRequest("Not enough rooms available. Requested: " + IntText(req.number_of_rooms.value)
                               + ", Available: " + IntText(|cands|)));
      }
      return Fail(Unexpected(INVALID_DATE));
    }
    var checkIn, checkOut := req.check_in.time, req.check_out.time;
    RoomChoiceBound(db.rooms, bound, db.nextId, db.reservations, db.bookedRooms,
                    req.branch_id.value, req.room_type_id.value, checkIn, checkOut, req.number_of_rooms.value);
    assert d == RoomChoice(db.rooms, db.nextId, db.reservations, db.bookedRooms,
                           req.branch_id.value, req.room_type_id.value, checkIn, checkOut, req.number_of_rooms.value);
    result := BookRooms(db, customerId, req.branch_id.value, req.room_type_id.value, checkIn, checkOut,
                        req.number_of_occupants, req.number_of_rooms.value, now);
  }

  /** Steps 4 to 6 of the clerk's creation: candidate rooms, the selection
      loop, then the reservation and its `bookedrooms` rows. */
  method BookRooms(db: Db, customerId: int, branch: int, roomType: int, checkIn: int, checkOut: int,
                   occupants: Option<int>, n: int, now: int) returns (result: Result<int>)
    requires db.Valid() && n != 0
    modifies db
    ensures db.Valid()
    ensures db.rooms == old(db.rooms) && db.billings == old(db.billings) && db.branches == old(db.branches)
    ensures db.roomTypes == old(db.roomTypes) && db.paymentDetails == old(db.paymentDetails)
    ensures db.blockedBookings == old(db.blockedBookings) && db.blockedRooms == old(db.blockedRooms)
    ensures db.customers == old(db.customers)
    ensures var d := RoomChoice(old(db.rooms), old(db.nextId), old(db.reservations), old(db.bookedRooms),
                                branch, roomType, checkIn, checkOut, n);
            (d.Fail? ==> result == Fail(d.error) && unchanged(db))
            && (d.Ok? ==>
                  result.Ok? && result.value !in old(db.reservations)
                  && db.reservations == old(db.reservations)[result.value := Reservation(
                       customerId, branch, checkIn, checkOut, occupants, n, PaymentPending, Confirmed, now)]
                  && LinkedAfter(old(db.bookedRooms), db.bookedRooms, result.value, d.value))
    ensures checkIn < checkOut && NoDoubleBooking(old(db.reservations), old(db.bookedRooms))
            ==> NoDoubleBooking(db.reservations, db.bookedRooms)
  {
    ghost var d := RoomChoice(db.rooms, db.nextId, db.reservations, db.bookedRooms, branch, roomType, checkIn, checkOut, n);
    var cands := Candidates(db.rooms, db.nextId, branch, roomType);
    if |cands| < n {
      return Fail(BadRequest("Not enough rooms available. Requested: " + IntText(n) + ", Available: " + IntText(|cands|)));
    }
    var chosen := SelectRooms(db.reservations, db.bookedRooms, cands, checkIn, checkOut, n);
    if |chosen| < n {
      return Fail(BadRequest("Rooms not available for the selected dates"));
    }
    PickedRooms(cands, FreeRoom(db.reservations, db.bookedRooms, checkIn, checkOut), n);
    assert d == Ok(chosen);
    var r := Reservation(customerId, branch, checkIn, checkOut, occupants, n, PaymentPending, Confirmed, now);
    ghost var res0, links0 := db.reservations, db.bookedRooms;
    var id := InsertReservation(db, r, chosen);
    if checkIn < checkOut && NoDoubleBooking(res0, links0) {
      ClerkBookingKeepsNoDoubleBooking(res0, links0, db.bookedRooms, id, r, chosen);
    }
    result := Ok(id);
  }

  /** The room step does not depend on which bound above the room ids is used. */
  lemma RoomChoiceBound(rooms: map<int, Room>, b1: int, b2: int, res: map<int, Reservation>, links: map<int, BookedRoom>,
                        branch: int, roomType: int, checkIn: int, checkOut: int, n: int)
    requires Below(rooms, b1) && Below(rooms, b2)
    ensures RoomChoice(rooms, b1, res, links, branch, roomType, checkIn, checkOut, n)
            == RoomChoice(rooms, b2, res, links, branch, roomType, checkIn, checkOut, n)
  {
    CandidatesBound(rooms, b1, b2, branch, roomType);
  }

  /** The candidate list does not depend on which bound above the ids is used. */
  lemma CandidatesBound(rooms: map<int, Room>, b1: int, b2: int, branch: int, roomType: int)
    requires Below(rooms, b1) && Below(rooms, b2)
    ensures Candidates(rooms, b1, branch, roomType) == Candidates(rooms, b2, branch, roomType)
  {
    IncreasingSameElements(Candidates(rooms, b1, branch, roomType), Candidates(rooms, b2, branch, roomType));
  }

  /** `customer.findUnique({ where: { email } })`, then `customer.create`
      with a fresh id when nothing was found. */
  method FindOrCreateCustomer(db: Db, c: CustomerInput) returns (customerId: int)
    requires db.Valid()
    modifies db
    ensures db.Valid()
    ensures customerId in db.customers && db.customers[customerId].email == c.email
    ensures var found := CustomerByEmail(old(db.customers), old(db.nextId), c.email);
            (found.Some? ==> customerId == found.value && db.customers == old(db.customers) && db.nextId == old(db.nextId))
            && (found.None? ==>
                  customerId == old(db.nextId) && db.nextId == old(db.nextId) + 1
                  && db.customers == old(db.customers)[customerId := Customer(c.full_name, c.email, c.phone, c.address, None)])
    ensures db.rooms == old(db.rooms) && db.reservations == old(db.reservations) && db.bookedRooms == old(db.bookedRooms)
    ensures db.billings == old(db.billings) && db.branches == old(db.branches) && db.roomTypes == old(db.roomTypes)
    ensures db.paymentDetails == old(db.paymentDetails)
    ensures db.blockedBookings == old(db.blockedBookings) && db.blockedRooms == old(db.blockedRooms)
  {
    var found := CustomerByEmail(db.customers, db.nextId, c.email);
    if found.Some? {
      customerId := found.value;
    } else {
      customerId := db.nextId;
      db.customers := db.customers[customerId := Customer(c.full_name, c.email, c.phone, c.address, None)];
      db.nextId := db.nextId + 1;
    }
  }

  /** The selection loop over the candidate rooms, one conflict query per
      room, leaving the loop once `n` rooms are kept. */
  method SelectRooms(held: map<int, Reservation>, links: map<int, BookedRoom>, cands: seq<int>, checkIn: int, checkOut: int, n: int)
    returns (chosen: seq<int>)
    ensures chosen == Pick(cands, FreeRoom(held, links, checkIn, checkOut), n, [])
  {
    ghost var free := FreeRoom(held, links, checkIn, checkOut);
    chosen := [];
    var i := 0;
    while i < |cands|
      invariant 0 <= i <= |cands|
      invariant Pick(cands, free, n, []) == Pick(cands[i..], free, n, chosen)
    {
      if FreeForClerk(held, links, cands[i], checkIn, checkOut) {
        chosen := chosen + [cands[i]];
      }
      if |chosen| == n {
        break;
      }
      i := i + 1;
    }
  }

  lemma {:induction false} IncreasingSameElements(a: seq<int>, b: seq<int>)
    requires Increasing(a) && Increasing(b)
    requires forall x :: x in a <==> x in b
    ensures a == b
    decreases |a|
  {
    if a != [] { assert a[0] in a; }
    if b != [] { assert b[0] in b; }
    if a != [] && b != [] {
      assert a[0] in b && b[0] in a;
      assert a[0] == b[0] by {
        assert forall x :: x in b ==> b[0] <= x;
        assert forall x :: x in a ==> a[0] <= x;
      }
      assert forall x :: x in a[1..] <==> x in a && x != a[0];
      assert forall x :: x in b[1..] <==> x in b && x != b[0];
      IncreasingSameElements(a[1..], b[1..]);
      assert a == [a[0]] + a[1..] && b == [b[0]] + b[1..];
    }
  }

  // ---------------------------------------------------------------- listing

  /** The listing's query parameters. An empty `customer` or `status`
      string is written as None, like an absent one. */
  datatype ListFilter = ListFilter(
    customer: Option<string>,
    status: Option<ReservationStatus>,
    check_in_start: DateArg,
    check_in_end: DateArg,
    page: int,
    limit: int)

  /** The `where` object the listing builds field by field. */
  datatype ReservationWhere = ReservationWhere(
    status: Option<ReservationStatus>,
    checkInFrom: Option<int>,
    checkInTo: Option<int>,
    customer: Option<string>)

  function BuildWhere(f: ListFilter): (w: ReservationWhere)
    ensures w.customer.Some? <==> TruthyStr(f.customer)
    ensures w.customer.Some? ==> w.customer == f.customer
    ensures w.status == f.status
    ensures w.checkInFrom.Some? <==> f.check_in_start.At?
    ensures w.checkInFrom.Some? ==> w.checkInFrom.value == f.check_in_start.time
    ensures w.checkInTo.Some? <==> f.check_in_end.At?
    ensures w.checkInTo.Some? ==> w.checkInTo.value == f.check_in_end.time
  {
    var w := ReservationWhere(None, None, None, None);
    var w := if f.status.Some? then w.(status := f.status) else w;
    var w := if f.check_in_start.At? then w.(checkInFrom := Some(f.check_in_start.time)) else w;
    var w := if f.check_in_end.At? then w.(checkInTo := Some(f.check_in_end.time)) else w;
    if TruthyStr(f.customer) then w.(customer := f.customer) else w
  }

  /** ASCII case folding, the part of `mode: 'insensitive'` the model keeps. */
  function Fold(c: char): char
  {
    if 'A' <= c <= 'Z' then (c as int + 32) as char else c
  }

  function FoldAll(s: string): (r: string)
    ensures |r| == |s| && forall i :: 0 <= i < |s| ==> r[i] == Fold(s[i])
  {
    if s == [] then [] else [Fold(s[0])] + FoldAll(s[1..])
  }

  /** `needle` occurs in `hay` as a contiguous piece. */
  predicate Contains(hay: string, needle: string)
    decreases |hay|
  {
    needle <= hay || (hay != [] && Contains(hay[1..], needle))
  }

  /** `Contains` holds exactly when the needle starts at some position. */
  lemma {:induction false} ContainsAt(hay: string, needle: string)
    ensures Contains(hay, needle) <==> exists i :: 0 <= i <= |hay| && needle <= hay[i..]
    decreases |hay|
  {
    assert hay[0..] == hay;
    if hay != [] {
      ContainsAt(hay[1..], needle);
      forall i | 1 <= i <= |hay| ensures hay[1..][i - 1..] == hay[i..] {}
      if exists i :: 0 <= i <= |hay| && needle <= hay[i..] {
        var i :| 0 <= i <= |hay| && needle <= hay[i..];
        if i > 0 {
          assert needle <= hay[1..][i - 1..];
        }
      }
    }
  }

  predicate ContainsInsensitive(hay: string, needle: string)
  {
    Contains(FoldAll(hay), FoldAll(needle))
  }

  /** A reservation row satisfies the `where` object. */
  predicate Matches(w: ReservationWhere, customers: map<int, Customer>, r: Reservation)
  {
    (w.status.Some? ==> r.status == w.status.value)
    && (w.checkInFrom.Some? ==> r.check_in >= w.checkInFrom.value)
    && (w.checkInTo.Some? ==> r.check_in <= w.checkInTo.value)
    && (w.customer.Some? ==>
          r.customer_id in customers
          && (ContainsInsensitive(customers[r.customer_id].full_name, w.customer.value)
              || ContainsInsensitive(customers[r.customer_id].email, w.customer.value)))
  }

  function Abs(x: int): nat
  {
    if x < 0 then -x else x
  }

  /** `skip` then `take` on a list, as the database applies them: a
      non-negative `take` counts from the front after skipping `skip` rows;
      a negative one counts |take| rows from the back, after skipping `skip`
      rows there, and keeps them in list order. */
  function Window<T>(s: seq<T>, skip: int, take: int): (r: seq<T>)
    requires skip >= 0
    ensures skip >= |s| ==> r == []
    ensures skip < |s| ==> |r| == (if Abs(take) < |s| - skip then Abs(take) else |s| - skip)
    ensures take >= 0 ==> forall k :: 0 <= k < |r| ==> r[k] == s[skip + k]
    ensures take < 0 ==> forall k :: 0 <= k < |r| ==> r[k] == s[|s| - skip - |r| + k]
  {
    if skip >= |s| then []
    else if take >= 0 then
      if take < |s| - skip then s[skip..skip + take] else s[skip..]
    else
      var end := |s| - skip;
      if -take < end then s[end + take..end] else s[..end]
  }

  /** The list read back to front. */
  function Reversed<T>(s: seq<T>): (r: seq<T>)
    ensures |r| == |s| && forall i :: 0 <= i < |s| ==> r[i] == s[|s| - 1 - i]
  {
    if s == [] then [] else Reversed(s[1..]) + [s[0]]
  }

  /** A negative `take` is the positive one on the reversed order, read back
      in the original order. */
  lemma WindowFromEnd<T>(s: seq<T>, skip: int, take: int)
    requires skip >= 0 && take < 0
    ensures Window(s, skip, take) == Reversed(Window(Reversed(s), skip, -take))
  {
    var a, b := Window(s, skip, take), Reversed(Window(Reversed(s), skip, -take));
    var w := Window(Reversed(s), skip, -take);
    assert |a| == |b|;
    forall k | 0 <= k < |a| ensures a[k] == b[k] {
      assert b[k] == w[|w| - 1 - k] == Reversed(s)[skip + |w| - 1 - k];
    }
  }

  /** Two consecutive windows make one window of the combined length, so
      consecutive pages neither overlap nor leave a gap. */
  lemma WindowsAdjacent<T>(s: seq<T>, skip: int, l1: int, l2: int)
    requires skip >= 0 && l1 >= 0 && l2 >= 0
    ensures Window(s, skip, l1) + Window(s, skip + l1, l2) == Window(s, skip, l1 + l2)
  {
    var a, b, c := Window(s, skip, l1), Window(s, skip + l1, l2), Window(s, skip, l1 + l2);
    assert |a + b| == |c|;
    forall k | 0 <= k < |c| ensures (a + b)[k] == c[k] {
      if k >= |a| {
        assert |a| == l1;
      }
    }
  }

  datatype Listing = Listing(totalCount: int, page: int, limit: int, reservations: seq<int>)

  /** The matching reservation ids in ascending id order. */
  function MatchingIds(res: map<int, Reservation>, customers: map<int, Customer>, bound: int, w: ReservationWhere): (s: seq<int>)
    requires Below(res, bound)
    ensures Increasing(s)
    ensures forall id :: id in s <==> id in res && Matches(w, customers, res[id])
  {
    Select(RowOrder(res, bound), (id: int) => id in res && Matches(w, customers, res[id]))
  }

  /** The matches ordered by check-in date, latest first. */
  function ListOrder(res: map<int, Reservation>, customers: map<int, Customer>, bound: int, w: ReservationWhere): (s: seq<int>)
    requires Below(res, bound)
    ensures forall id :: id in s <==> id in res && Matches(w, customers, res[id])
    ensures forall i :: 0 <= i < |s| ==> s[i] in res
    ensures forall i :: 0 <= i < |s| - 1 ==> res[s[i]].check_in >= res[s[i + 1]].check_in
    ensures Distinct(s)
  {
    LatestFirst(res, MatchingIds(res, customers, bound, w))
  }

  /** The listing: the count of all matches, and the requested page of the
      matches ordered by check-in date, latest first. An invalid date in the
      `where` object makes the count query fail; a negative `skip` makes the
      page query fail. */
  function GetReservations(res: map<int, Reservation>, customers: map<int, Customer>, bound: int, f: ListFilter): (r: Result<Listing>)
    requires Below(res, bound)
    ensures r.Fail? <==> f.check_in_start.Unparsable? || f.check_in_end.Unparsable? || (f.page - 1) * f.limit < 0
    ensures r.Fail? ==> r.error.Unexpected?
    ensures r.Ok? ==> r.value.page == f.page && r.value.limit == f.limit && |r.value.reservations| <= Abs(f.limit)
  {
    var skip := (f.page - 1) * f.limit;
    if f.check_in_start.Unparsable? || f.check_in_end.Unparsable? then
      Fail(Unexpected(INVALID_DATE))
    else if skip < 0 then Fail(Unexpected("Invalid value for argument `skip`"))
    else
      var w := BuildWhere(f);
      var page := Window(ListOrder(res, customers, bound, w), skip, f.limit);
      Ok(Listing(|MatchingIds(res, customers, bound, w)|, f.page, f.limit, page))
  }

  lemma MulNonNeg(a: int, b: int)
    requires a >= 0 && b >= 0
    ensures a * b >= 0
  {
  }

  /** `totalCount` is the number of matching reservations. */
  lemma ListingCount(res: map<int, Reservation>, customers: map<int, Customer>, bound: int, f: ListFilter)
    requires Below(res, bound)
    ensures var r := GetReservations(res, customers, bound, f);
            r.Ok? ==> r.value.totalCount == |set id | id in res && Matches(BuildWhere(f), customers, res[id])|
  {
    var w := BuildWhere(f);
    CountByMembers(MatchingIds(res, customers, bound, w), set id | id in res && Matches(w, customers, res[id]));
  }

  /** The page lists matching reservations only, each once, latest check-in
      first. */
  lemma ListingPage(res: map<int, Reservation>, customers: map<int, Customer>, bound: int, f: ListFilter)
    requires Below(res, bound)
    ensures var r := GetReservations(res, customers, bound, f);
            r.Ok? ==>
              var page := r.value.reservations;
              (forall id :: id in page ==> id in res && Matches(BuildWhere(f), customers, res[id]))
              && Distinct(page)
              && (forall i :: 0 <= i < |page| - 1 ==> res[page[i]].check_in >= res[page[i + 1]].check_in)
  {
    var r := GetReservations(res, customers, bound, f);
    if r.Ok? {
      var all := ListOrder(res, customers, bound, BuildWhere(f));
      assert r.value.reservations == Window(all, (f.page - 1) * f.limit, f.limit);
      WindowOfOrder(res, all, (f.page - 1) * f.limit, f.limit);
    }
  }

  /** A window of a list of reservation ids keeps membership, distinctness
      and the latest-first order. */
  lemma WindowOfOrder(res: map<int, Reservation>, s: seq<int>, skip: int, take: int)
    requires skip >= 0
    requires forall i :: 0 <= i < |s| ==> s[i] in res
    ensures var w := Window(s, skip, take);
            (forall x :: x in w ==> x in s)
            && (Distinct(s) ==> Distinct(w))
            && ((forall i :: 0 <= i < |s| - 1 ==> res[s[i]].check_in >= res[s[i + 1]].check_in)
                ==> forall i :: 0 <= i < |w| - 1 ==> res[w[i]].check_in >= res[w[i + 1]].check_in)
  {
    var w := Window(s, skip, take);
    var o := if take >= 0 then skip else |s| - skip - |w|;
    assert forall k :: 0 <= k < |w| ==> w[k] == s[o + k];
    forall x | x in w ensures x in s {
      var k :| 0 <= k < |w| && w[k] == x;
      assert s[o + k] in s;
    }
  }

  /** With parsable dates and a non-negative skip the listing succeeds, and
      its page is the window of the ordered matches. */
  lemma ListingIsWindow(res: map<int, Reservation>, customers: map<int, Customer>, bound: int, f: ListFilter)
    requires Below(res, bound)
    requires !f.check_in_start.Unparsable? && !f.check_in_end.Unparsable? && (f.page - 1) * f.limit >= 0
    ensures var r := GetReservations(res, customers, bound, f);
            r.Ok? && r.value.reservations == Window(ListOrder(res, customers, bound, BuildWhere(f)), (f.page - 1) * f.limit, f.limit)
  {
    var skip := (f.page - 1) * f.limit;
    assert GetReservations(res, customers, bound, f)
           == Ok(Listing(|MatchingIds(res, customers, bound, BuildWhere(f))|, f.page, f.limit,
                         Window(ListOrder(res, customers, bound, BuildWhere(f)), skip, f.limit)));
  }

  /** The windows of pages p and p + 1 are adjacent: together they are the
      window of twice the limit where page p starts. */
  lemma PagesAdjacent<T>(s: seq<T>, p: int, l: int)
    requires p >= 1 && l >= 0
    ensures Window(s, (p - 1) * l, l) + Window(s, (p + 1 - 1) * l, l) == Window(s, (p - 1) * l, 2 * l)
  {
    var skip := (p - 1) * l;
    assert (p + 1 - 1) * l == skip + l;
    MulNonNeg(p - 1, l);
    WindowsAdjacent(s, skip, l, l);
  }

  // ---------------------------------------------------------------- check-in

  /** Check-in: the reservation must exist and be Confirmed; its rooms become
      Occupied and the status stays Confirmed. */
  method CheckIn(db: Db, id: int) returns (result: Result<Reservation>)
    requires db.Valid()
    modifies db
    ensures db.Valid()
    ensures id !in old(db.reservations) ==> result == Fail(NotFound("Reservation ID " + IntText(id) + " not found")) && unchanged(db)
    ensures id in old(db.reservations) && old(db.reservations)[id].status != Confirmed
            ==> result == Fail(Validation("Reservation status must be 'Confirmed' to check-in")) && unchanged(db)
    ensures id in old(db.reservations) && old(db.reservations)[id].status == Confirmed ==>
              result == Ok(old(db.reservations)[id])
              && db.rooms == SetStatus(old(db.rooms), RoomsOf(old(db.bookedRooms), id), Occupied)
    ensures db.reservations == old(db.reservations) && db.bookedRooms == old(db.bookedRooms) && db.nextId == old(db.nextId)
    ensures db.customers == old(db.customers) && db.billings == old(db.billings) && db.branches == old(db.branches)
    ensures db.roomTypes == old(db.roomTypes) && db.paymentDetails == old(db.paymentDetails)
    ensures db.blockedBookings == old(db.blockedBookings) && db.blockedRooms == old(db.blockedRooms)
  {
    if id !in db.reservations {
      return Fail(NotFound("Reservation ID " + IntText(id) + " not found"));
    }
    if db.reservations[id].status != Confirmed {
      return Fail(Validation("Reservation status must be 'Confirmed' to check-in"));
    }
    db.rooms := SetStatus(db.rooms, RoomsOf(db.bookedRooms, id), Occupied);
    result := Ok(db.reservations[id]);
  }

  /** A later status update of the same rooms overrides an earlier one, so
      check-in followed by check-out leaves those rooms Available. */
  lemma {:induction false} SetStatusOverride(rooms: map<int, Room>, ids: set<int>, first: RoomStatus, second: RoomStatus)
    ensures SetStatus(SetStatus(rooms, ids, first), ids, second) == SetStatus(rooms, ids, second)
  {
    var a, b := SetStatus(SetStatus(rooms, ids, first), ids, second), SetStatus(rooms, ids, second);
    assert a.Keys == b.Keys;
    forall id | id in a ensures a[id] == b[id] {
      if id in ids {
        assert a[id] == SetStatus(rooms, ids, first)[id].(status := second);
      }
    }
  }

  // ---------------------------------------------------------------- check-out

  datatype CheckOutResult = CheckOutResult(reservationId: int, nights: int, totalAmount: real)

  /** The `bookedrooms` rows of a reservation, in the order they are listed. */
  function LinksOf(links: map<int, BookedRoom>, bound: int, reservationId: int): (s: seq<int>)
    requires Below(links, bound)
    ensures Increasing(s)
    ensures forall l :: l in s <==> l in links && links[l].reservation_id == reservationId
  {
    Select(RowOrder(links, bound), (l: int) => l in links && links[l].reservation_id == reservationId)
  }

  /** The nightly price of a link's room; a missing price multiplies as 0. */
  function LinkPrice(rooms: map<int, Room>, links: map<int, BookedRoom>, l: int): real
  {
    if l in links && links[l].room_id in rooms && rooms[links[l].room_id].price_per_night.Some?
    then rooms[links[l].room_id].price_per_night.value
    else 0.0
  }

  /** The running total of the check-out loop after the given links:
      each adds its room's price times the nights. */
  function RoomCharge(rooms: map<int, Room>, links: map<int, BookedRoom>, linkIds: seq<int>, nights: int): real
  {
    if linkIds == [] then 0.0
    else RoomCharge(rooms, links, linkIds[..|linkIds| - 1], nights) + LinkPrice(rooms, links, linkIds[|linkIds| - 1]) * nights as real
  }

  /** The sum of the nightly prices of the given links. */
  function PriceSum(rooms: map<int, Room>, links: map<int, BookedRoom>, linkIds: seq<int>): real
  {
    if linkIds == [] then 0.0 else LinkPrice(rooms, links, linkIds[0]) + PriceSum(rooms, links, linkIds[1..])
  }

  lemma {:induction false} PriceSumSnoc(rooms: map<int, Room>, links: map<int, BookedRoom>, s: seq<int>, l: int)
    ensures PriceSum(rooms, links, s + [l]) == PriceSum(rooms, links, s) + LinkPrice(rooms, links, l)
  {
    if s != [] {
      assert (s + [l])[1..] == s[1..] + [l];
      PriceSumSnoc(rooms, links, s[1..], l);
    }
  }

  /** The room charge is the number of nights times the sum of the nightly
      prices of the reservation's rooms. */
  lemma {:induction false} RoomChargeIsNightsTimesPrices(rooms: map<int, Room>, links: map<int, BookedRoom>, linkIds: seq<int>, nights: int)
    ensures RoomCharge(rooms, links, linkIds, nights) == nights as real * PriceSum(rooms, links, linkIds)
  {
    if linkIds != [] {
      var front, last := linkIds[..|linkIds| - 1], linkIds[|linkIds| - 1];
      RoomChargeIsNightsTimesPrices(rooms, links, front, nights);
      assert linkIds == front + [last];
      PriceSumSnoc(rooms, links, front, last);
    }
  }

  /** The billing row check-out writes for a room charge: tax is one tenth
      of the charge, the total is charge plus tax, nothing else is charged,
      and it is Paid. */
  function CheckOutBilling(reservationId: int, charge: real, now: int): (b: Billing)
    ensures b.tax_amount * 10.0 == charge && b.total_amount == charge + b.tax_amount && b.total_amount * 10.0 == charge * 11.0
    ensures b.other_charges == 0.0 && b.status == Paid && b.reservation_id == reservationId && b.billing_date == now
  {
    Billing(reservationId, charge + charge * 0.1, charge * 0.1, 0.0, now, Paid)
  }

  /** Two rooms at 100 and 150 a night for three nights: charge 750, tax 75,
      total 825. */
  lemma CheckOutExample(now: int)
    ensures var rooms := map[1 := Room("101", 9, Some(7), Occupied, Some(100.0)), 2 := Room("102", 9, Some(7), Occupied, Some(150.0))];
            var links := map[4 := BookedRoom(3, 1), 5 := BookedRoom(3, 2)];
            var charge := RoomCharge(rooms, links, [4, 5], Nights(0, 3 * DAY_MS));
            charge == 750.0 && CheckOutBilling(3, charge, now).total_amount == 825.0
            && CheckOutBilling(3, charge, now).tax_amount == 75.0
  {
    var rooms := map[1 := Room("101", 9, Some(7), Occupied, Some(100.0)), 2 := Room("102", 9, Some(7), Occupied, Some(150.0))];
    var links := map[4 := BookedRoom(3, 1), 5 := BookedRoom(3, 2)];
    assert Nights(0, 3 * DAY_MS) == 3;
    assert [4, 5][..1] == [4];
    assert [4][..0] == [];
    assert RoomCharge(rooms, links, [4], 3) == 300.0;
  }

  /** The billing row of a reservation, if any (`reservation_id` is unique). */
  function BillingOf(billings: map<int, Billing>, bound: int, reservationId: int): (r: Option<int>)
    requires Below(billings, bound)
    ensures r.Some? <==> exists b :: b in billings && billings[b].reservation_id == reservationId
    ensures r.Some? ==> r.value in billings && billings[r.value].reservation_id == reservationId
  {
    FirstWith(RowOrder(billings, bound), (b: int) => b in billings && billings[b].reservation_id == reservationId)
  }

  /** The check-out loop over the reservation's `bookedrooms` rows. */
  method SumRoomCharge(rooms: map<int, Room>, links: map<int, BookedRoom>, linkIds: seq<int>, nights: int) returns (total: real)
    ensures total == RoomCharge(rooms, links, linkIds, nights)
  {
    total := 0.0;
    var i := 0;
    while i < |linkIds|
      invariant 0 <= i <= |linkIds|
      invariant total == RoomCharge(rooms, links, linkIds[..i], nights)
    {
      assert linkIds[..i + 1][..i] == linkIds[..i];
      total := total + LinkPrice(rooms, links, linkIds[i]) * nights as real;
      i := i + 1;
    }
    assert linkIds[..i] == linkIds;
  }

  /** Check-out: the reservation must exist and be Confirmed. In one
      transaction it writes the billing, frees the rooms and marks the
      reservation Completed and Paid; a billing already there (from an
      optional charge) makes the billing insert fail and nothing changes. */
  method CheckOut(db: Db, id: int, now: int) returns (result: Result<CheckOutResult>)
    requires db.Valid()
    modifies db
    ensures db.Valid()
    ensures id !in old(db.reservations) ==> result == Fail(NotFound("Reservation not found")) && unchanged(db)
    ensures id in old(db.reservations) && old(db.reservations)[id].status != Confirmed
            ==> result == Fail(Validation("Reservation is not checked-in")) && unchanged(db)
    ensures id in old(db.reservations) && old(db.reservations)[id].status == Confirmed
            && BillingOf(old(db.billings), old(db.nextId), id).Some?
            ==> result.Fail? && result.error.Unexpected? && unchanged(db)
    ensures id in old(db.reservations) && old(db.reservations)[id].status == Confirmed
            && BillingOf(old(db.billings), old(db.nextId), id).None? ==>
              var r := old(db.reservations)[id];
              var nights := Nights(r.check_in, r.check_out);
              var charge := RoomCharge(old(db.rooms), old(db.bookedRooms), LinksOf(old(db.bookedRooms), old(db.nextId), id), nights);
              result == Ok(CheckOutResult(id, nights, CheckOutBilling(id, charge, now).total_amount))
              && db.billings == old(db.billings)[old(db.nextId) := CheckOutBilling(id, charge, now)]
              && db.nextId == old(db.nextId) + 1
              && db.rooms == SetStatus(old(db.rooms), RoomsOf(old(db.bookedRooms), id), Available)
              && db.reservations == old(db.reservations)[id := r.(status := Completed, payment := PaymentPaid)]
    ensures db.bookedRooms == old(db.bookedRooms) && db.customers == old(db.customers) && db.branches == old(db.branches)
    ensures db.roomTypes == old(db.roomTypes) && db.paymentDetails == old(db.paymentDetails)
    ensures db.blockedBookings == old(db.blockedBookings) && db.blockedRooms == old(db.blockedRooms)
  {
    if id !in db.reservations {
      return Fail(NotFound("Reservation not found"));
    }
    var r := db.reservations[id];
    if r.status != Confirmed {
      return Fail(Validation("Reservation is not checked-in"));
    }
    var nights := Nights(r.check_in, r.check_out);
    var linkIds := LinksOf(db.bookedRooms, db.nextId, id);
    var charge := SumRoomCharge(db.rooms, db.bookedRooms, linkIds, nights);
    var billing := CheckOutBilling(id, charge, now);
    if BillingOf(db.billings, db.nextId, id).Some? {
      return Fail(Unexpected("Unique constraint failed on the fields: (`reservation_id`)"));
    }
    var _ := InsertBilling(db, billing);
    UpdateRoomStatus(db, RoomsOf(db.bookedRooms, id), Available);
    UpdateReservation(db, id, r.(status := Completed, payment := PaymentPaid));
    result := Ok(CheckOutResult(id, nights, billing.total_amount));
  }

  // ---------------------------------------------------------------- extension

  /** Another non-Cancelled reservation holds one of this reservation's rooms
      and its stay reaches into the extension window (current check-out,
      new check-out). */
  predicate ExtensionConflict(res: map<int, Reservation>, links: map<int, BookedRoom>, id: int, newOut: int)
    requires id in res
  {
    exists l :: l in links && links[l].room_id in RoomsOf(links, id) && links[l].reservation_id != id
                && links[l].reservation_id in res && Holds(res[links[l].reservation_id])
                && res[links[l].reservation_id].check_in < newOut && res[links[l].reservation_id].check_out > res[id].check_out
  }

  /** The reservation row after moving its check-out date, or the error. */
  function Extension(res: map<int, Reservation>, links: map<int, BookedRoom>, id: int, newOut: DateArg): (d: Result<Reservation>)
    ensures d.Ok? ==> id in res && res[id].status != Cancelled && res[id].status != Completed && newOut.At?
                      && newOut.time > res[id].check_out && !ExtensionConflict(res, links, id, newOut.time)
                      && d.value == res[id].(check_out := newOut.time)
    ensures id !in res ==> d == Fail(NotFound("Reservation not found"))
    ensures id in res && res[id].status in {Cancelled, Completed} ==> d == Fail(Validation("Cannot update dates for this reservation"))
    ensures d.Fail? ==> d.error.Raised?
  {
    if id !in res then Fail(NotFound("Reservation not found"))
    else if res[id].status == Cancelled || res[id].status == Completed then Fail(Validation("Cannot update dates for this reservation"))
    else if !newOut.At? then Fail(Validation("Invalid date format"))
    else if newOut.time <= res[id].check_out then Fail(Validation("New checkout date must be after current checkout date"))
    else if ExtensionConflict(res, links, id, newOut.time) then Fail(Validation("Rooms are not available for the extended dates"))
    else Ok(res[id].(check_out := newOut.time))
  }

  /** An extension keeps the no-double-booking rule: the conflict query
      covers the only new nights, and any stay that ends before the current
      check-out already missed the old stay. */
  lemma {:induction false} ExtensionKeepsNoDoubleBooking(res: map<int, Reservation>, links: map<int, BookedRoom>, id: int, newOut: DateArg)
    requires NoDoubleBooking(res, links)
    requires Extension(res, links, id, newOut).Ok?
    ensures NoDoubleBooking(res[id := Extension(res, links, id, newOut).value], links)
  {
    var old_ := res[id];
    var r := Extension(res, links, id, newOut).value;
    var res' := res[id := r];
    assert Holds(old_) && old_.check_in < old_.check_out;
    forall a, b | a in links && b in links && a != b && links[a].room_id == links[b].room_id
        && links[a].reservation_id in res' && links[b].reservation_id in res'
        && Holds(res'[links[a].reservation_id]) && Holds(res'[links[b].reservation_id])
      ensures !Overlaps(res'[links[a].reservation_id].check_in, res'[links[a].reservation_id].check_out,
                        res'[links[b].reservation_id].check_in, res'[links[b].reservation_id].check_out)
    {
      var ra, rb := links[a].reservation_id, links[b].reservation_id;
      if ra == id && rb != id {
        assert links[a].room_id in RoomsOf(links, id);
        assert !(res[rb].check_in < newOut.time && res[rb].check_out > old_.check_out);
      } else if rb == id && ra != id {
        assert links[b].room_id in RoomsOf(links, id);
        assert !(res[ra].check_in < newOut.time && res[ra].check_out > old_.check_out);
      }
    }
  }

  /** Moving the check-out date later: only that column of that row changes. */
  method UpdateReservationDates(db: Db, id: int, newOut: DateArg) returns (result: Result<Reservation>)
    requires db.Valid()
    modifies db
    ensures db.Valid()
    ensures result == Extension(old(db.reservations), old(db.bookedRooms), id, newOut)
    ensures result.Fail? ==> unchanged(db)
    ensures result.Ok? ==> db.reservations == old(db.reservations)[id := result.value]
    ensures db.rooms == old(db.rooms) && db.bookedRooms == old(db.bookedRooms) && db.nextId == old(db.nextId)
    ensures db.customers == old(db.customers) && db.billings == old(db.billings) && db.branches == old(db.branches)
    ensures db.roomTypes == old(db.roomTypes) && db.paymentDetails == old(db.paymentDetails)
    ensures db.blockedBookings == old(db.blockedBookings) && db.blockedRooms == old(db.blockedRooms)
  {
    result := Extension(db.reservations, db.bookedRooms, id, newOut);
    if result.Ok? {
      db.reservations := db.reservations[id := result.value];
    }
  }

  // ---------------------------------------------------------------- charges

  datatype ChargeResult = ChargeResult(reservationId: int, addedCharge: real, description: Option<string>, billing: Billing)

  /** An optional charge added to an existing billing. */
  function AddCharge(b: Billing, amount: real): Billing
  {
    b.(other_charges := b.other_charges + amount, total_amount := b.total_amount + amount)
  }

  /** The billing a first optional charge creates. */
  function FirstCharge(reservationId: int, amount: real, now: int): Billing
  {
    Billing(reservationId, amount, 0.0, amount, now, Unpaid)
  }

  /** Adding a charge keeps `total_amount - other_charges` (the room charge
      and tax), the tax and the status, and raises both sums by the amount. */
  lemma ChargeKeepsBase(b: Billing, amount: real)
    ensures AddCharge(b, amount).total_amount - AddCharge(b, amount).other_charges == b.total_amount - b.other_charges
    ensures AddCharge(b, amount).other_charges - b.other_charges == amount
    ensures AddCharge(b, amount).tax_amount == b.tax_amount && AddCharge(b, amount).status == b.status
    ensures AddCharge(b, amount).reservation_id == b.reservation_id
  {
  }

  /** Two charges in a row are one charge of their sum. */
  lemma ChargesAccumulate(b: Billing, a1: real, a2: real)
    ensures AddCharge(AddCharge(b, a1), a2) == AddCharge(b, a1 + a2)
  {
  }

  /** A billing created by a charge holds only that charge; further charges
      keep its total equal to its other charges. */
  lemma FirstChargeOnlyCharges(reservationId: int, amount: real, now: int, more: real)
    ensures FirstCharge(reservationId, amount, now).total_amount == FirstCharge(reservationId, amount, now).other_charges
    ensures var b := AddCharge(FirstCharge(reservationId, amount, now), more);
            b.total_amount == b.other_charges == amount + more && b.tax_amount == 0.0 && b.status == Unpaid
  {
  }

  /** The optional charge: a positive amount, an existing reservation that is
      not Cancelled; then the billing is created or incremented. */
  method AddOptionalCharge(db: Db, id: int, amount: Option<real>, description: Option<string>, now: int)
    returns (result: Result<ChargeResult>)
    requires db.Valid()
    modifies db
    ensures db.Valid()
    ensures (amount.None? || amount.value <= 0.0) ==> result == Fail(Validation("Charge amount must be greater than zero")) && unchanged(db)
    ensures amount.Some? && amount.value > 0.0 && id !in old(db.reservations) ==> result == Fail(NotFound("Reservation not found")) && unchanged(db)
    ensures amount.Some? && amount.value > 0.0 && id in old(db.reservations) && old(db.reservations)[id].status == Cancelled
            ==> result == Fail(Validation("Cannot add charges to a cancelled reservation")) && unchanged(db)
    ensures amount.Some? && amount.value > 0.0 && id in old(db.reservations) && old(db.reservations)[id].status != Cancelled ==>
              var existing := BillingOf(old(db.billings), old(db.nextId), id);
              (existing.None? ==>
                 result == Ok(ChargeResult(id, amount.value, description, FirstCharge(id, amount.value, now)))
                 && db.billings == old(db.billings)[old(db.nextId) := FirstCharge(id, amount.value, now)]
                 && db.nextId == old(db.nextId) + 1)
              && (existing.Some? ==>
                 var b := AddCharge(old(db.billings)[existing.value], amount.value);
                 result == Ok(ChargeResult(id, amount.value, description, b))
                 && db.billings == old(db.billings)[existing.value := b]
                 && db.nextId == old(db.nextId))
    ensures db.rooms == old(db.rooms) && db.bookedRooms == old(db.bookedRooms) && db.reservations == old(db.reservations)
    ensures db.customers == old(db.customers) && db.branches == old(db.branches)
    ensures db.roomTypes == old(db.roomTypes) && db.paymentDetails == old(db.paymentDetails)
    ensures db.blockedBookings == old(db.blockedBookings) && db.blockedRooms == old(db.blockedRooms)
  {
    if amount.None? || amount.value <= 0.0 {
      return Fail(Validation("Charge amount must be greater than zero"));
    }
    if id !in db.reservations {
      return Fail(NotFound("Reservation not found"));
    }
    if db.reservations[id].status == Cancelled {
      return Fail(Validation("Cannot add charges to a cancelled reservation"));
    }
    var existing := BillingOf(db.billings, db.nextId, id);
    var billing;
    if existing.None? {
      billing := FirstCharge(id, amount.value, now);
      var _ := InsertBilling(db, billing);
    } else {
      billing := AddCharge(db.billings[existing.value], amount.value);
      ReplaceBilling(db, existing.value, billing);
    }
    result := Ok(ChargeResult(id, amount.value, description, billing));
  }

  // ---------------------------------------------------------------- room list

  function RoomNumberOf(rooms: map<int, Room>, id: int): string
  {
    if id in rooms then rooms[id].room_number else ""
  }

  /** `orderBy: { room_number: 'asc' }` on room ids. */
  function ByRoomNumber(rooms: map<int, Room>): (int, int) -> bool
  {
    (a: int, b: int) => StrLe(RoomNumberOf(rooms, a), RoomNumberOf(rooms, b))
  }

  lemma ByRoomNumberTotal(rooms: map<int, Room>)
    ensures Total(ByRoomNumber(rooms))
  {
    forall a: int, b: int ensures ByRoomNumber(rooms)(a, b) || ByRoomNumber(rooms)(b, a) {
      StrLeTotal(RoomNumberOf(rooms, a), RoomNumberOf(rooms, b));
    }
  }

  /** Every room once, ordered by room number. */
  function GetRoomsStatus(rooms: map<int, Room>, bound: int): (r: seq<int>)
    requires Below(rooms, bound)
    ensures multiset(r) == multiset(RowOrder(rooms, bound))
    ensures forall id :: id in r <==> id in rooms
    ensures SortedBy(r, ByRoomNumber(rooms))
  {
    ByRoomNumberTotal(rooms);
    var r := SortBy(RowOrder(rooms, bound), ByRoomNumber(rooms));
    SameMembers(r, RowOrder(rooms, bound));
    r
  }

  /** The room list pairs each room with the next by room number. */
  lemma RoomsStatusOrder(rooms: map<int, Room>, bound: int)
    requires Below(rooms, bound)
    ensures var r := GetRoomsStatus(rooms, bound);
            forall i :: 0 <= i < |r| - 1 ==> StrLe(rooms[r[i]].room_number, rooms[r[i + 1]].room_number)
  {
    var r := GetRoomsStatus(rooms, bound);
    forall i | 0 <= i < |r| - 1 ensures StrLe(rooms[r[i]].room_number, rooms[r[i + 1]].room_number) {
      assert r[i] in r && r[i + 1] in r;
      assert ByRoomNumber(rooms)(r[i], r[i + 1]);
    }
  }


}
