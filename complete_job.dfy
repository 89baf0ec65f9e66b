/** The midnight sweep that marks past stays as complete. */
module CompleteJob {
  import opened Ordering
  import opened Schema

  /** Rewritten by the sweep: checked out before `now` and not Cancelled
      (no-shows and rows already `Completed` included). */
  predicate Due(r: Reservation, now: int)
  {
    r.check_out < now && r.status != Cancelled
  }

  /** The table after the sweep: due rows set to `Complete`, the rest as
      they were. */
  function CompleteSweep(res: map<int, Reservation>, now: int): map<int, Reservation>
  {
    map id | id in res :: if Due(res[id], now) then res[id].(status := Complete) else res[id]
  }

  /** Due rows end `Complete`, Cancelled rows and rows checking out at
      `now` or later are untouched, and only the status ever changes. */
  lemma CompleteSweepChanges(res: map<int, Reservation>, now: int)
    ensures var after := CompleteSweep(res, now);
            after.Keys == res.Keys
            && (forall id :: id in res && Due(res[id], now) ==> after[id].status == Complete)
            && (forall id :: id in res && !Due(res[id], now) ==> after[id] == res[id])
            && (forall id :: id in res ==> after[id] == res[id].(status := after[id].status))
  {
  }

  /** Running the sweep twice equals running it once. */
  lemma CompleteSweepIdempotent(res: map<int, Reservation>, now: int)
    ensures CompleteSweep(CompleteSweep(res, now), now) == CompleteSweep(res, now)
  {
    var once := CompleteSweep(res, now);
    assert forall id :: id in once && Due(once[id], now) ==> once[id].status == Complete;
  }

  /** No reservation starts or stops holding rooms, and no dates change, so
      the no-double-booking rule is kept. */
  lemma CompleteSweepKeepsNoDoubleBooking(res: map<int, Reservation>, links: map<int, BookedRoom>, now: int)
    requires NoDoubleBooking(res, links)
    ensures NoDoubleBooking(CompleteSweep(res, now), links)
  {
    FewerHoldsKeepNoDoubleBooking(res, CompleteSweep(res, now), links);
  }

  /** The rows `ids` set to `Complete`, every other row as it was. */
  function CompleteAll(res: map<int, Reservation>, ids: seq<int>): map<int, Reservation>
  {
    map id | id in res :: if id in ids then res[id].(status := Complete) else res[id]
  }

  /** The due rows, in table order. */
  function DueRows(res: map<int, Reservation>, bound: int, now: int): (s: seq<int>)
    requires Below(res, bound)
    ensures forall id :: id in s <==> id in res && Due(res[id], now)
    ensures |s| == |set id | id in res && Due(res[id], now)|
  {
    var s := Select(RowOrder(res, bound), (id: int) => id in res && Due(res[id], now));
    DistinctCount(s);
    assert (set x | x in s) == set id | id in res && Due(res[id], now);
    s
  }

  /** Rewrites the status of each row of `ids`. */
  method CompleteRows(db: Db, ids: seq<int>)
    requires db.Valid()
    requires forall id :: id in ids ==> id in db.reservations
    modifies db
    ensures db.Valid()
    ensures db.reservations == CompleteAll(old(db.reservations), ids)
    ensures db.customers == old(db.customers) && db.rooms == old(db.rooms) && db.bookedRooms == old(db.bookedRooms)
    ensures db.billings == old(db.billings) && db.branches == old(db.branches) && db.roomTypes == old(db.roomTypes)
    ensures db.paymentDetails == old(db.paymentDetails) && db.nextId == old(db.nextId)
    ensures db.blockedBookings == old(db.blockedBookings) && db.blockedRooms == old(db.blockedRooms)
  {
    ghost var res0 := db.reservations;
    var i := 0;
    while i < |ids|
      invariant 0 <= i <= |ids|
      invariant db.Valid()
      invariant db.reservations == CompleteAll(res0, ids[..i])
      invariant db.customers == old(db.customers) && db.rooms == old(db.rooms) && db.bookedRooms == old(db.bookedRooms)
      invariant db.billings == old(db.billings) && db.branches == old(db.branches) && db.roomTypes == old(db.roomTypes)
      invariant db.paymentDetails == old(db.paymentDetails) && db.nextId == old(db.nextId)
      invariant db.blockedBookings == old(db.blockedBookings) && db.blockedRooms == old(db.blockedRooms)
    {
      var id := ids[i];
      assert id in ids;
      assert forall x :: x in ids[..i + 1] <==> x in ids[..i] || x == id;
      db.reservations := db.reservations[id := db.reservations[id].(status := Complete)];
      i := i + 1;
    }
    assert ids[..i] == ids;
  }

  /** The `updateMany` over the table, row by row. Returns the number of
      rows it rewrote (the count it logs). */
  method UpdateCompletedReservations(db: Db, now: int) returns (count: int)
    requires db.Valid()
    modifies db
    ensures db.Valid()
    ensures db.reservations == CompleteSweep(old(db.reservations), now)
    ensures count == |set id | id in old(db.reservations) && Due(old(db.reservations)[id], now)|
    ensures NoDoubleBooking(old(db.reservations), old(db.bookedRooms)) ==> NoDoubleBooking(db.reservations, db.bookedRooms)
    ensures db.customers == old(db.customers) && db.rooms == old(db.rooms) && db.bookedRooms == old(db.bookedRooms)
    ensures db.billings == old(db.billings) && db.branches == old(db.branches) && db.roomTypes == old(db.roomTypes)
    ensures db.paymentDetails == old(db.paymentDetails) && db.nextId == old(db.nextId)
    ensures db.blockedBookings == old(db.blockedBookings) && db.blockedRooms == old(db.blockedRooms)
  {
    var res0 := db.reservations;
    var ids := DueRows(res0, db.nextId, now);
    DueRowsAreSweep(res0, ids, now);
    CompleteRows(db, ids);
    if NoDoubleBooking(res0, db.bookedRooms) {
      CompleteSweepKeepsNoDoubleBooking(res0, db.bookedRooms, now);
    }
    count := |ids|;
  }

  lemma DueRowsAreSweep(res: map<int, Reservation>, ids: seq<int>, now: int)
    requires forall id :: id in ids <==> id in res && Due(res[id], now)
    ensures CompleteAll(res, ids) == CompleteSweep(res, now)
  {
    assert forall id :: id in res ==> CompleteAll(res, ids)[id] == CompleteSweep(res, now)[id];
  }
}
