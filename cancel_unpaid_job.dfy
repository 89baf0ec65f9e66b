/** The evening sweep that cancels the reservations created today and
    still unpaid. */
module CancelUnpaidJob {
  import opened Ordering
  import opened Calendar
  import opened Schema

  /** Local midnight of the day of `now` (`setHours(0, 0, 0, 0)`) for a
      fixed local offset from UTC. */
  function LocalMidnight(now: int, localOffset: int): (m: int)
    ensures m <= now < m + DAY_MS
  {
    DayOf(now + localOffset) * DAY_MS - localOffset
  }

  /** Selected by the sweep: payment still Pending, not yet Cancelled, and
      created between local midnight and `now`, both included. */
  predicate Unpaid(r: Reservation, midnight: int, now: int)
  {
    r.payment == PaymentPending && r.status != Cancelled && midnight <= r.created_at <= now
  }

  /** The table after the sweep: the selected rows Cancelled, every other
      row as it was. */
  function CancelSweep(res: map<int, Reservation>, midnight: int, now: int): map<int, Reservation>
  {
    map id | id in res :: if Unpaid(res[id], midnight, now) then res[id].(status := Cancelled) else res[id]
  }

  /** Exactly the selected rows change, and only in their status. */
  lemma CancelSweepChanges(res: map<int, Reservation>, midnight: int, now: int)
    ensures var after := CancelSweep(res, midnight, now);
            after.Keys == res.Keys
            && (forall id :: id in res ==> (after[id] != res[id] <==> Unpaid(res[id], midnight, now)))
            && (forall id :: id in res ==> after[id] == res[id].(status := after[id].status))
            && (forall id :: id in res && Unpaid(res[id], midnight, now) ==>
                  after[id].status == Cancelled && after[id].payment == PaymentPending)
  {
  }

  /** A second run with the same clock changes nothing. */
  lemma CancelSweepIdempotent(res: map<int, Reservation>, midnight: int, now: int)
    ensures CancelSweep(CancelSweep(res, midnight, now), midnight, now) == CancelSweep(res, midnight, now)
  {
    var once := CancelSweep(res, midnight, now);
    assert forall id :: id in once ==> !Unpaid(once[id], midnight, now);
  }

  /** Cancelling never creates a double booking. */
  lemma CancelSweepKeepsNoDoubleBooking(res: map<int, Reservation>, links: map<int, BookedRoom>, midnight: int, now: int)
    requires NoDoubleBooking(res, links)
    ensures NoDoubleBooking(CancelSweep(res, midnight, now), links)
  {
    FewerHoldsKeepNoDoubleBooking(res, CancelSweep(res, midnight, now), links);
  }

  /** The rows `ids` Cancelled, every other row as it was. */
  function CancelAll(res: map<int, Reservation>, ids: seq<int>): map<int, Reservation>
  {
    map id | id in res :: if id in ids then res[id].(status := Cancelled) else res[id]
  }

  /** One `reservation.update` per selected row. */
  method CancelRows(db: Db, ids: seq<int>)
    requires db.Valid()
    requires forall id :: id in ids ==> id in db.reservations
    modifies db
    ensures db.Valid()
    ensures db.reservations == CancelAll(old(db.reservations), ids)
    ensures db.customers == old(db.customers) && db.rooms == old(db.rooms) && db.bookedRooms == old(db.bookedRooms)
    ensures db.billings == old(db.billings) && db.branches == old(db.branches) && db.roomTypes == old(db.roomTypes)
    ensures db.paymentDetails == old(db.paymentDetails) && db.nextId == old(db.nextId)
    ensures db.blockedBookings == old(db.blockedBookings) && db.blockedRooms == old(db.blockedRooms)
  {
    ghost var res0 := db.reservations;
    var i := 0;
    while i < |ids|
      invariant 0 <= i <= |ids|
      invariant db.Valid()
      invariant db.reservations == CancelAll(res0, ids[..i])
      invariant db.customers == old(db.customers) && db.rooms == old(db.rooms) && db.bookedRooms == old(db.bookedRooms)
      invariant db.billings == old(db.billings) && db.branches == old(db.branches) && db.roomTypes == old(db.roomTypes)
      invariant db.paymentDetails == old(db.paymentDetails) && db.nextId == old(db.nextId)
      invariant db.blockedBookings == old(db.blockedBookings) && db.blockedRooms == old(db.blockedRooms)
    {
      var id := ids[i];
      assert id in ids;
      assert forall x :: x in ids[..i + 1] <==> x in ids[..i] || x == id;
      db.reservations := db.reservations[id := db.reservations[id].(status := Cancelled)];
      i := i + 1;
    }
    assert ids[..i] == ids;
  }

  /** Cancelling the selected rows is the sweep, and they are as many as
      the rows it selects. */
  lemma Selection(res: map<int, Reservation>, ids: seq<int>, midnight: int, now: int)
    requires Increasing(ids)
    requires forall id :: id in ids <==> id in res && Unpaid(res[id], midnight, now)
    ensures CancelAll(res, ids) == CancelSweep(res, midnight, now)
    ensures |ids| == |set id | id in res && Unpaid(res[id], midnight, now)|
  {
    DistinctCount(ids);
    assert (set x | x in ids) == set id | id in res && Unpaid(res[id], midnight, now);
  }

  /** The sweep: select the rows, then update each one to Cancelled. Returns
      the number of rows cancelled (the figure it logs). */
  method CancelUnpaidReservations(db: Db, now: int, localOffset: int) returns (count: int)
    requires db.Valid()
    modifies db
    ensures db.Valid()
    ensures db.reservations == CancelSweep(old(db.reservations), LocalMidnight(now, localOffset), now)
    ensures count == |set id | id in old(db.reservations) && Unpaid(old(db.reservations)[id], LocalMidnight(now, localOffset), now)|
    ensures NoDoubleBooking(old(db.reservations), old(db.bookedRooms)) ==> NoDoubleBooking(db.reservations, db.bookedRooms)
    ensures db.customers == old(db.customers) && db.rooms == old(db.rooms) && db.bookedRooms == old(db.bookedRooms)
    ensures db.billings == old(db.billings) && db.branches == old(db.branches) && db.roomTypes == old(db.roomTypes)
    ensures db.paymentDetails == old(db.paymentDetails) && db.nextId == old(db.nextId)
    ensures db.blockedBookings == old(db.blockedBookings) && db.blockedRooms == old(db.blockedRooms)
  {
    var midnight := LocalMidnight(now, localOffset);
    var res0 := db.reservations;
    var ids := Select(RowOrder(res0, db.nextId), (id: int) => id in res0 && Unpaid(res0[id], midnight, now));
    Selection(res0, ids, midnight, now);
    CancelRows(db, ids);
    if NoDoubleBooking(res0, db.bookedRooms) {
      CancelSweepKeepsNoDoubleBooking(res0, db.bookedRooms, midnight, now);
    }
    count := |ids|;
  }
}
