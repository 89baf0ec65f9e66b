/** The tables the services read and write, as one in-memory store: one map
    per table from the auto-increment id to the row, and the id counter. */
module Schema {
  import opened Js
  import opened Ordering

  datatype RoomStatus = Available | Occupied | Maintenance

  /** `Completed` is written by check-out, `Complete` by the customer's
      completion and by the nightly sweep; the two are different values. */
  datatype ReservationStatus = NoShow | Confirmed | Cancelled | Completed | Complete

  datatype PaymentStatus = PaymentPending | PaymentConfirmed | PaymentPaid

  datatype BillingStatus = Unpaid | Paid

  datatype Customer = Customer(
    full_name: string,
    email: string,
    phone: Option<string>,
    address: Option<string>,
    password_hash: Option<string>)

  datatype Branch = Branch(name: string, address: Option<string>)

  datatype RoomType = RoomType(type_name: string, description: Option<string>, base_price: real)

  /** A room without a branch is possible (`branch_id` is nullable); a
      missing price multiplies as 0. */
  datatype Room = Room(
    room_number: string,
    room_type_id: int,
    branch_id: Option<int>,
    status: RoomStatus,
    price_per_night: Option<real>)

  datatype Reservation = Reservation(
    customer_id: int,
    branch_id: int,
    check_in: int,
    check_out: int,
    occupants: Option<int>,
    number_of_rooms: int,
    payment: PaymentStatus,
    status: ReservationStatus,
    created_at: int)

  /** A `bookedrooms` row: one room held by one reservation. */
  datatype BookedRoom = BookedRoom(reservation_id: int, room_id: int)

  datatype Billing = Billing(
    reservation_id: int,
    total_amount: real,
    tax_amount: real,
    other_charges: real,
    billing_date: int,
    status: BillingStatus)

  datatype PaymentDetails = PaymentDetails(
    card_type: string,
    card_number: string,
    card_exp_month: string,
    card_exp_year: string,
    cvn_code: string)

  datatype BlockedBooking = BlockedBooking(start_date: int, end_date: int)

  /** A `blockedbookingrooms` row: one room held by one blocked booking. */
  datatype BlockedRoom = BlockedRoom(blocked_booking_id: int, room_id: int)

  /** Every id of the table lies in [1, bound). */
  predicate Below<T>(m: map<int, T>, bound: int)
  {
    forall id :: id in m ==> 0 < id < bound
  }

  /** `billing.reservation_id` is a unique column. */
  predicate OneBillingPerReservation(billings: map<int, Billing>)
  {
    forall x, y :: x in billings && y in billings && billings[x].reservation_id == billings[y].reservation_id ==> x == y
  }

  class Db {
    var customers: map<int, Customer>
    var branches: map<int, Branch>
    var roomTypes: map<int, RoomType>
    var rooms: map<int, Room>
    var reservations: map<int, Reservation>
    var bookedRooms: map<int, BookedRoom>
    var billings: map<int, Billing>
    /** `reservationpaymentdetails`, keyed by its unique `reservation_id`. */
    var paymentDetails: map<int, PaymentDetails>
    var blockedBookings: map<int, BlockedBooking>
    var blockedRooms: map<int, BlockedRoom>
    /** The next auto-increment id; every table draws from it. */
    var nextId: int

    ghost predicate Valid()
      reads this
    {
      nextId >= 1
      && Below(customers, nextId) && Below(branches, nextId) && Below(roomTypes, nextId)
      && Below(rooms, nextId) && Below(reservations, nextId) && Below(bookedRooms, nextId)
      && Below(billings, nextId) && Below(blockedBookings, nextId) && Below(blockedRooms, nextId)
      && OneBillingPerReservation(billings)
      && (forall l :: l in bookedRooms ==> bookedRooms[l].reservation_id in reservations && bookedRooms[l].room_id in rooms)
    }

    constructor ()
      ensures Valid() && nextId == 1
      ensures customers == map[] && branches == map[] && roomTypes == map[] && rooms == map[]
      ensures reservations == map[] && bookedRooms == map[] && billings == map[]
      ensures paymentDetails == map[] && blockedBookings == map[] && blockedRooms == map[]
    {
      customers, branches, roomTypes, rooms := map[], map[], map[], map[];
      reservations, bookedRooms, billings := map[], map[], map[];
      paymentDetails, blockedBookings, blockedRooms := map[], map[], map[];
      nextId := 1;
    }
  }

  /** The ids of `ids` (in their order) that satisfy `keep`. */
  function Select(ids: seq<int>, keep: int -> bool): (r: seq<int>)
    ensures forall x :: x in r <==> x in ids && keep(x)
    ensures Increasing(ids) ==> Increasing(r)
    ensures |r| <= |ids|
  {
    if ids == [] then []
    else
      var rest := Select(ids[1..], keep);
      assert forall x :: x in ids <==> x == ids[0] || x in ids[1..];
      SelectStep(ids, rest);
      if keep(ids[0]) then [ids[0]] + rest else rest
  }

  /** One step of `Select`: an increasing list stays increasing when its
      first element is dropped, or put in front of a selection of its tail. */
  lemma SelectStep(ids: seq<int>, rest: seq<int>)
    requires ids != []
    requires forall x :: x in rest ==> x in ids[1..]
    requires Increasing(ids[1..]) ==> Increasing(rest)
    ensures Increasing(ids) ==> Increasing(rest) && Increasing([ids[0]] + rest)
  {
    if Increasing(ids) {
      assert Increasing(ids[1..]) by {
        forall i, j | 0 <= i < j < |ids[1..]| ensures ids[1..][i] < ids[1..][j] {
          assert ids[1..][i] == ids[i + 1] && ids[1..][j] == ids[j + 1];
        }
      }
      forall x | x in rest ensures ids[0] < x {
        var k :| 0 <= k < |ids[1..]| && ids[1..][k] == x;
        assert ids[k + 1] == x;
      }
      var r := [ids[0]] + rest;
      forall i, j | 0 <= i < j < |r| ensures r[i] < r[j] {
        assert r[j] == rest[j - 1] && rest[j - 1] in rest;
        if i > 0 { assert r[i] == rest[i - 1]; }
      }
    }
  }

  /** The rows of a table in the order the database returns them when no
      `orderBy` is given: ascending id. */
  function RowOrder<T>(m: map<int, T>, bound: int): (r: seq<int>)
    requires Below(m, bound)
    ensures forall x :: x in r <==> x in m
    ensures Increasing(r)
  {
    SortedIds(m.Keys, bound)
  }

  /** The rooms held by a reservation's `bookedrooms` rows. */
  function RoomsOf(links: map<int, BookedRoom>, reservationId: int): (s: set<int>)
    ensures forall r :: r in s <==> exists l :: l in links && links[l] == BookedRoom(reservationId, r)
  {
    set l | l in links && links[l].reservation_id == reservationId :: links[l].room_id
  }

  /** `room.updateMany({ where: { id: { in: ids } }, data: { status } })`. */
  function SetStatus(rooms: map<int, Room>, ids: set<int>, status: RoomStatus): (r: map<int, Room>)
    ensures r.Keys == rooms.Keys
    ensures forall id :: id in rooms && id in ids ==> r[id] == rooms[id].(status := status)
    ensures forall id :: id in rooms && id !in ids ==> r[id] == rooms[id]
  {
    map id | id in rooms :: if id in ids then rooms[id].(status := status) else rooms[id]
  }

  /** The half-open overlap test `check_in < out && check_out > in` used
      by every path except the clerk's creation. */
  predicate Overlaps(checkIn: int, checkOut: int, reqIn: int, reqOut: int)
  {
    checkIn < reqOut && checkOut > reqIn
  }

  /** The clerk's inclusive test `check_in <= out && check_out >= in`. */
  predicate TouchesInclusive(checkIn: int, checkOut: int, reqIn: int, reqOut: int)
  {
    checkIn <= reqOut && checkOut >= reqIn
  }

  /** The inclusive test rejects everything the half-open one rejects,
      and in addition a stay that ends exactly when the request starts
      (or starts exactly when it ends). */
  lemma InclusiveIsStricter(checkIn: int, checkOut: int, reqIn: int, reqOut: int)
    ensures Overlaps(checkIn, checkOut, reqIn, reqOut) ==> TouchesInclusive(checkIn, checkOut, reqIn, reqOut)
    ensures checkIn < reqIn < reqOut ==> TouchesInclusive(checkIn, reqIn, reqIn, reqOut) && !Overlaps(checkIn, reqIn, reqIn, reqOut)
    ensures reqIn < reqOut < checkOut ==> TouchesInclusive(reqOut, checkOut, reqIn, reqOut) && !Overlaps(reqOut, checkOut, reqIn, reqOut)
  {
  }

  /** A reservation that still holds its rooms. */
  predicate Holds(r: Reservation)
  {
    r.status != Cancelled
  }

  /** Two `bookedrooms` rows for the same room never belong to two
      non-Cancelled reservations whose stays overlap (nor to one
      non-Cancelled reservation twice), and every non-Cancelled stay ends
      after it starts. */
  ghost predicate NoDoubleBooking(res: map<int, Reservation>, links: map<int, BookedRoom>)
  {
    (forall id :: id in res && Holds(res[id]) ==> res[id].check_in < res[id].check_out)
    && (forall a, b ::
          a in links && b in links && a != b && links[a].room_id == links[b].room_id
          && links[a].reservation_id in res && links[b].reservation_id in res
          && Holds(res[links[a].reservation_id]) && Holds(res[links[b].reservation_id])
          ==> !Overlaps(res[links[a].reservation_id].check_in, res[links[a].reservation_id].check_out,
                        res[links[b].reservation_id].check_in, res[links[b].reservation_id].check_out))
  }

  /** No `bookedrooms` row of the room belongs to a non-Cancelled
      reservation whose stay overlaps [reqIn, reqOut) half-open. */
  predicate FreeFor(res: map<int, Reservation>, links: map<int, BookedRoom>, room: int, reqIn: int, reqOut: int)
  {
    !exists l :: l in links && links[l].room_id == room && links[l].reservation_id in res
                 && Holds(res[links[l].reservation_id])
                 && Overlaps(res[links[l].reservation_id].check_in, res[links[l].reservation_id].check_out, reqIn, reqOut)
  }

  /** `orderBy: { check_in_date: 'desc' }` on reservation ids. */
  function CheckInDesc(res: map<int, Reservation>): (int, int) -> bool
  {
    (a: int, b: int) => CheckInOf(res, a) >= CheckInOf(res, b)
  }

  function CheckInOf(res: map<int, Reservation>, id: int): int
  {
    if id in res then res[id].check_in else 0
  }

  /** `orderBy: { check_in_date: 'desc' }` over the rows listed in `ids`:
      latest check-in first. */
  function LatestFirst(res: map<int, Reservation>, ids: seq<int>): (s: seq<int>)
    requires forall x :: x in ids ==> x in res
    ensures multiset(s) == multiset(ids)
    ensures forall x :: x in s <==> x in ids
    ensures forall i :: 0 <= i < |s| ==> s[i] in res
    ensures forall i :: 0 <= i < |s| - 1 ==> res[s[i]].check_in >= res[s[i + 1]].check_in
    ensures Increasing(ids) ==> Distinct(s)
  {
    var s := SortBy(ids, CheckInDesc(res));
    SameMembers(s, ids);
    assert Increasing(ids) ==> Distinct(s) by {
      if Increasing(ids) {
        DistinctPermutation(ids, s);
      }
    }
    assert forall i :: 0 <= i < |s| - 1 ==> CheckInDesc(res)(s[i], s[i + 1]);
    assert forall i :: 0 <= i < |s| ==> s[i] in res by {
      forall i | 0 <= i < |s| ensures s[i] in res { assert s[i] in s; }
    }
    s
  }

  /** The rooms of the branch and type whose status is Available, in the
      order the database lists them. */
  function Candidates(rooms: map<int, Room>, bound: int, branch: int, roomType: int): (c: seq<int>)
    requires Below(rooms, bound)
    ensures Increasing(c)
    ensures forall id :: id in c <==> id in rooms && rooms[id].branch_id == Some(branch)
                                      && rooms[id].room_type_id == roomType && rooms[id].status == Available
  {
    Select(RowOrder(rooms, bound),
      (id: int) => id in rooms && rooms[id].branch_id == Some(branch)
                   && rooms[id].room_type_id == roomType && rooms[id].status == Available)
  }

  /** The first id of `ids` that satisfies `keep`, as `findFirst` (or a
      `findUnique` on a unique column) returns it; over ascending ids it is
      the least one. */
  function FirstWith(ids: seq<int>, keep: int -> bool): (r: Option<int>)
    ensures r.Some? <==> exists x :: x in ids && keep(x)
    ensures r.Some? ==> r.value in ids && keep(r.value)
    ensures r.Some? && Increasing(ids) ==> forall x :: x in ids && keep(x) ==> r.value <= x
  {
    if ids == [] then None
    else if keep(ids[0]) then
      assert Increasing(ids) ==> forall x :: x in ids ==> ids[0] <= x;
      Some(ids[0])
    else
      assert forall x :: x in ids <==> x == ids[0] || x in ids[1..];
      assert Increasing(ids) ==> Increasing(ids[1..]);
      FirstWith(ids[1..], keep)
  }

  /** `bookedrooms.createMany` for the chosen rooms, with fresh ids from `firstId` on. */
  function Links(reservationId: int, roomIds: seq<int>, firstId: int): (m: map<int, BookedRoom>)
    ensures forall k :: k in m <==> firstId <= k < firstId + |roomIds|
    ensures forall k :: k in m ==> m[k] == BookedRoom(reservationId, roomIds[k - firstId])
  {
    if roomIds == [] then map[]
    else
      var last := |roomIds| - 1;
      Links(reservationId, roomIds[..last], firstId)[firstId + last := BookedRoom(reservationId, roomIds[last])]
  }

  /** The `bookedrooms` table after linking `roomIds` to reservation `id`
      with fresh link ids following it. */
  predicate LinkedAfter(before: map<int, BookedRoom>, after: map<int, BookedRoom>, id: int, roomIds: seq<int>)
  {
    after == before + Links(id, roomIds, id + 1)
  }

  /** Adding a reservation whose stay ends after it starts, linked to
      distinct rooms that are free for its stay, keeps the no-double-booking
      rule. */
  lemma {:induction false} LinkingFreeRoomsKeepsNoDoubleBooking(
      res: map<int, Reservation>, links: map<int, BookedRoom>, id: int, r: Reservation, rooms: seq<int>, firstId: int)
    requires NoDoubleBooking(res, links)
    requires id !in res
    requires forall l :: l in links ==> links[l].reservation_id in res && l < firstId
    requires r.check_in < r.check_out
    requires Distinct(rooms)
    requires forall room :: room in rooms ==> FreeFor(res, links, room, r.check_in, r.check_out)
    ensures NoDoubleBooking(res[id := r], links + Links(id, rooms, firstId))
  {
    var res' := res[id := r];
    var added := Links(id, rooms, firstId);
    var links' := links + added;
    forall a, b | a in links' && b in links' && a !in links && b !in links && a != b
      ensures links'[a].room_id != links'[b].room_id
    {
      assert links'[a] == added[a] && links'[b] == added[b];
      assert added[a].room_id == rooms[a - firstId] && added[b].room_id == rooms[b - firstId];
    }
    forall a, b | a in links' && b in links' && a != b && links'[a].room_id == links'[b].room_id
        && links'[a].reservation_id in res' && links'[b].reservation_id in res'
        && Holds(res'[links'[a].reservation_id]) && Holds(res'[links'[b].reservation_id])
      ensures !Overlaps(res'[links'[a].reservation_id].check_in, res'[links'[a].reservation_id].check_out,
                        res'[links'[b].reservation_id].check_in, res'[links'[b].reservation_id].check_out)
    {
      if a in links && b in links {
        assert links'[a] == links[a] && links'[b] == links[b];
        assert res'[links[a].reservation_id] == res[links[a].reservation_id];
        assert res'[links[b].reservation_id] == res[links[b].reservation_id];
      } else if a in links {
        assert links'[a] == links[a] && links'[b] == added[b] && added[b].reservation_id == id;
        assert res'[links[a].reservation_id] == res[links[a].reservation_id];
        NewLinkOnFreeRoom(res, links, id, r, rooms, firstId, b, a);
      } else if b in links {
        assert links'[b] == links[b] && links'[a] == added[a] && added[a].reservation_id == id;
        assert res'[links[b].reservation_id] == res[links[b].reservation_id];
        NewLinkOnFreeRoom(res, links, id, r, rooms, firstId, a, b);
      }
    }
  }

  lemma NewLinkOnFreeRoom(
      res: map<int, Reservation>, links: map<int, BookedRoom>, id: int, r: Reservation, rooms: seq<int>, firstId: int,
      b: int, a: int)
    requires id !in res
    requires forall l :: l in links ==> links[l].reservation_id in res && l < firstId
    requires forall room :: room in rooms ==> FreeFor(res, links, room, r.check_in, r.check_out)
    requires b in Links(id, rooms, firstId) && a in links
    requires links[a].room_id == Links(id, rooms, firstId)[b].room_id && Holds(res[links[a].reservation_id])
    ensures !Overlaps(res[links[a].reservation_id].check_in, res[links[a].reservation_id].check_out, r.check_in, r.check_out)
    ensures !Overlaps(r.check_in, r.check_out, res[links[a].reservation_id].check_in, res[links[a].reservation_id].check_out)
  {
    var room := rooms[b - firstId];
    assert FreeFor(res, links, room, r.check_in, r.check_out);
  }

  /** The same, for the table as `InsertReservation` leaves it. */
  lemma LinkedFreeRoomsKeepNoDoubleBooking(
      res: map<int, Reservation>, links: map<int, BookedRoom>, after: map<int, BookedRoom>, id: int, r: Reservation, rooms: seq<int>)
    requires NoDoubleBooking(res, links)
    requires id !in res
    requires forall l :: l in links ==> links[l].reservation_id in res && l < id + 1
    requires r.check_in < r.check_out
    requires Distinct(rooms)
    requires forall room :: room in rooms ==> FreeFor(res, links, room, r.check_in, r.check_out)
    requires LinkedAfter(links, after, id, rooms)
    ensures NoDoubleBooking(res[id := r], after)
  {
    LinkingFreeRoomsKeepsNoDoubleBooking(res, links, id, r, rooms, id + 1);
  }

  /** Changing reservation statuses so that no reservation starts holding
      its rooms, and no holding reservation changes its dates, keeps the
      no-double-booking rule. */
  lemma FewerHoldsKeepNoDoubleBooking(res: map<int, Reservation>, after: map<int, Reservation>, links: map<int, BookedRoom>)
    requires NoDoubleBooking(res, links)
    requires forall id :: id in after <==> id in res
    requires forall id :: id in after && Holds(after[id]) ==>
               Holds(res[id]) && after[id].check_in == res[id].check_in && after[id].check_out == res[id].check_out
    ensures NoDoubleBooking(after, links)
  {
  }

  /** `reservation.create` followed by `bookedrooms.createMany` linking the
      given rooms to it; every id is fresh. */
  method InsertReservation(db: Db, r: Reservation, roomIds: seq<int>) returns (id: int)
    requires db.Valid()
    requires forall room :: room in roomIds ==> room in db.rooms
    modifies db
    ensures db.Valid()
    ensures id == old(db.nextId) && id !in old(db.reservations) && db.nextId == id + 1 + |roomIds|
    ensures db.reservations == old(db.reservations)[id := r]
    ensures LinkedAfter(old(db.bookedRooms), db.bookedRooms, id, roomIds)
    ensures forall l :: l in old(db.bookedRooms) ==> l < id + 1
    ensures db.customers == old(db.customers) && db.rooms == old(db.rooms) && db.billings == old(db.billings)
    ensures db.branches == old(db.branches) && db.roomTypes == old(db.roomTypes) && db.paymentDetails == old(db.paymentDetails)
    ensures db.blockedBookings == old(db.blockedBookings) && db.blockedRooms == old(db.blockedRooms)
  {
    id := db.nextId;
    db.reservations := db.reservations[id := r];
    db.bookedRooms := db.bookedRooms + Links(id, roomIds, id + 1);
    db.nextId := id + 1 + |roomIds|;
  }

  /** `billing.create` for a reservation that has no billing yet. */
  method InsertBilling(db: Db, b: Billing) returns (id: int)
    requires db.Valid()
    requires forall k :: k in db.billings ==> db.billings[k].reservation_id != b.reservation_id
    modifies db
    ensures db.Valid()
    ensures id == old(db.nextId) && db.nextId == id + 1 && db.billings == old(db.billings)[id := b]
    ensures db.customers == old(db.customers) && db.rooms == old(db.rooms) && db.reservations == old(db.reservations)
    ensures db.bookedRooms == old(db.bookedRooms) && db.branches == old(db.branches) && db.roomTypes == old(db.roomTypes)
    ensures db.paymentDetails == old(db.paymentDetails)
    ensures db.blockedBookings == old(db.blockedBookings) && db.blockedRooms == old(db.blockedRooms)
  {
    id := db.nextId;
    db.billings := db.billings[id := b];
    db.nextId := id + 1;
  }

  /** `room.updateMany` setting the status of the given rooms. */
  method UpdateRoomStatus(db: Db, ids: set<int>, status: RoomStatus)
    requires db.Valid()
    modifies db
    ensures db.Valid()
    ensures db.rooms == SetStatus(old(db.rooms), ids, status)
    ensures db.nextId == old(db.nextId) && db.reservations == old(db.reservations) && db.billings == old(db.billings)
    ensures db.customers == old(db.customers) && db.bookedRooms == old(db.bookedRooms)
    ensures db.branches == old(db.branches) && db.roomTypes == old(db.roomTypes) && db.paymentDetails == old(db.paymentDetails)
    ensures db.blockedBookings == old(db.blockedBookings) && db.blockedRooms == old(db.blockedRooms)
  {
    db.rooms := SetStatus(db.rooms, ids, status);
  }

  /** `reservation.update` of an existing row. */
  method UpdateReservation(db: Db, id: int, r: Reservation)
    requires db.Valid() && id in db.reservations
    modifies db
    ensures db.Valid()
    ensures db.reservations == old(db.reservations)[id := r]
    ensures db.nextId == old(db.nextId) && db.rooms == old(db.rooms) && db.billings == old(db.billings)
    ensures db.customers == old(db.customers) && db.bookedRooms == old(db.bookedRooms)
    ensures db.branches == old(db.branches) && db.roomTypes == old(db.roomTypes) && db.paymentDetails == old(db.paymentDetails)
    ensures db.blockedBookings == old(db.blockedBookings) && db.blockedRooms == old(db.blockedRooms)
  {
    db.reservations := db.reservations[id := r];
  }

  /** `billing.update` of an existing row that keeps its reservation. */
  method ReplaceBilling(db: Db, id: int, b: Billing)
    requires db.Valid()
    requires id in db.billings && db.billings[id].reservation_id == b.reservation_id
    modifies db
    ensures db.Valid()
    ensures db.nextId == old(db.nextId) && db.billings == old(db.billings)[id := b]
    ensures db.customers == old(db.customers) && db.rooms == old(db.rooms) && db.reservations == old(db.reservations)
    ensures db.bookedRooms == old(db.bookedRooms) && db.branches == old(db.branches) && db.roomTypes == old(db.roomTypes)
    ensures db.paymentDetails == old(db.paymentDetails)
    ensures db.blockedBookings == old(db.blockedBookings) && db.blockedRooms == old(db.blockedRooms)
  {
    db.billings := db.billings[id := b];
  }
}
