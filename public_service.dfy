/** The public, unauthenticated queries: availability of a room type in a
    branch for a stay, and the room-type catalogue with per-branch counts. */
module PublicService {
  import opened Js
  import opened AppErrors
  import opened Ordering
  import opened Schema

  // ---------------------------------------------------------------- availability

  datatype AvailabilityQuery = AvailabilityQuery(
    branch_id: Option<int>,
    room_type_id: Option<int>,
    check_in_date: DateArg,
    check_out_date: DateArg)

  datatype Availability = Availability(total_rooms: int, available_rooms: int)

  /** No blocked booking overlapping the stay holds the room. */
  predicate Unblocked(blocks: map<int, BlockedBooking>, blockedRooms: map<int, BlockedRoom>, room: int, checkIn: int, checkOut: int)
  {
    !exists k :: k in blockedRooms && blockedRooms[k].room_id == room && blockedRooms[k].blocked_booking_id in blocks
                 && blocks[blockedRooms[k].blocked_booking_id].start_date < checkOut
                 && blocks[blockedRooms[k].blocked_booking_id].end_date > checkIn
  }

  /** Rooms held by an overlapping non-Cancelled reservation or an
      overlapping blocked booking. */
  function Unavailable(res: map<int, Reservation>, links: map<int, BookedRoom>,
                       blocks: map<int, BlockedBooking>, blockedRooms: map<int, BlockedRoom>,
                       checkIn: int, checkOut: int): (u: set<int>)
    ensures forall room :: room in u <==> !FreeFor(res, links, room, checkIn, checkOut) || !Unblocked(blocks, blockedRooms, room, checkIn, checkOut)
  {
    (set l | l in links && links[l].reservation_id in res && Holds(res[links[l].reservation_id])
             && Overlaps(res[links[l].reservation_id].check_in, res[links[l].reservation_id].check_out, checkIn, checkOut)
           :: links[l].room_id)
    + (set k | k in blockedRooms && blockedRooms[k].blocked_booking_id in blocks
               && blocks[blockedRooms[k].blocked_booking_id].start_date < checkOut
               && blocks[blockedRooms[k].blocked_booking_id].end_date > checkIn
             :: blockedRooms[k].room_id)
  }

  /** The availability query. `ValidationError` is not in scope in this
      service, so both input checks end in a ReferenceError, reported as an
      unexpected error. An unparsable date passes the comparison (NaN
      compares false); the candidate query does not use the dates, so with
      no candidate the answer is {0, 0}, and otherwise the database rejects
      the invalid date in the conflict query. */
  function GetRoomAvailability(rooms: map<int, Room>, bound: int, res: map<int, Reservation>, links: map<int, BookedRoom>,
                               blocks: map<int, BlockedBooking>, blockedRooms: map<int, BlockedRoom>,
                               q: AvailabilityQuery): (r: Result<Availability>)
    requires Below(rooms, bound)
    ensures r.Fail? ==> r.error.Unexpected?
    ensures r.Ok? <==> TruthyNum(q.branch_id) && TruthyNum(q.room_type_id) && !q.check_in_date.Absent? && !q.check_out_date.Absent?
                       && !(q.check_in_date.At? && q.check_out_date.At? && q.check_in_date.time >= q.check_out_date.time)
                       && ((q.check_in_date.At? && q.check_out_date.At?)
                           || |Candidates(rooms, bound, q.branch_id.value, q.room_type_id.value)| == 0)
    ensures r.Ok? ==> 0 <= r.value.available_rooms <= r.value.total_rooms
    ensures r.Ok? && !(q.check_in_date.At? && q.check_out_date.At?) ==> r.value == Availability(0, 0)
  {
    if !TruthyNum(q.branch_id) || !TruthyNum(q.room_type_id) || q.check_in_date.Absent? || q.check_out_date.Absent? then
      Fail(Unexpected("ValidationError is not defined"))
    else if q.check_in_date.At? && q.check_out_date.At? && q.check_in_date.time >= q.check_out_date.time then
      Fail(Unexpected("ValidationError is not defined"))
    else
      var cands := Candidates(rooms, bound, q.branch_id.value, q.room_type_id.value);
      if |cands| == 0 then Ok(Availability(0, 0))
      else if !q.check_in_date.At? || !q.check_out_date.At? then
        Fail(Unexpected(INVALID_DATE))
      else
        var checkIn, checkOut := q.check_in_date.time, q.check_out_date.time;
        var unavailable := Unavailable(res, links, blocks, blockedRooms, checkIn, checkOut);
        Ok(Availability(|cands|, |Select(cands, (id: int) => id !in unavailable)|))
  }

  /** An Available room of the branch and type. */
  predicate Candidate(rooms: map<int, Room>, b: int, t: int, id: int)
  {
    id in rooms && rooms[id].branch_id == Some(b) && rooms[id].room_type_id == t && rooms[id].status == Available
  }

  lemma CandidateCount(rooms: map<int, Room>, bound: int, b: int, t: int)
    requires Below(rooms, bound)
    ensures |Candidates(rooms, bound, b, t)| == |set id | id in rooms && Candidate(rooms, b, t, id)|
  {
    var cands := Candidates(rooms, bound, b, t);
    DistinctCount(cands);
    assert (set id | id in rooms && Candidate(rooms, b, t, id)) == (set x | x in cands);
  }

  lemma FreeCount(rooms: map<int, Room>, bound: int, b: int, t: int, unavailable: set<int>)
    requires Below(rooms, bound)
    ensures |Select(Candidates(rooms, bound, b, t), (id: int) => id !in unavailable)|
            == |set id | id in rooms && Candidate(rooms, b, t, id) && id !in unavailable|
  {
    var free := Select(Candidates(rooms, bound, b, t), (id: int) => id !in unavailable);
    DistinctCount(free);
    assert (set id | id in rooms && Candidate(rooms, b, t, id) && id !in unavailable) == (set x | x in free);
  }

  /** A successful query counts the candidates and those not unavailable. */
  lemma AvailabilityValue(rooms: map<int, Room>, bound: int, res: map<int, Reservation>, links: map<int, BookedRoom>,
                          blocks: map<int, BlockedBooking>, blockedRooms: map<int, BlockedRoom>, q: AvailabilityQuery)
    requires Below(rooms, bound)
    ensures var r := GetRoomAvailability(rooms, bound, res, links, blocks, blockedRooms, q);
            r.Ok? && q.check_in_date.At? && q.check_out_date.At? ==>
              var cands := Candidates(rooms, bound, q.branch_id.value, q.room_type_id.value);
              var u := Unavailable(res, links, blocks, blockedRooms, q.check_in_date.time, q.check_out_date.time);
              r.value == Availability(|cands|, |Select(cands, (id: int) => id !in u)|)
  {
    var r := GetRoomAvailability(rooms, bound, res, links, blocks, blockedRooms, q);
    if r.Ok? && q.check_in_date.At? && q.check_out_date.At? {
      var cands := Candidates(rooms, bound, q.branch_id.value, q.room_type_id.value);
      var u := Unavailable(res, links, blocks, blockedRooms, q.check_in_date.time, q.check_out_date.time);
      if |cands| == 0 {
        assert Select(cands, (id: int) => id !in u) == [];
      }
    }
  }

  /** The rooms outside the unavailable set are the free, unblocked ones. */
  lemma UnavailableComplement(rooms: map<int, Room>, b: int, t: int, res: map<int, Reservation>, links: map<int, BookedRoom>,
                              blocks: map<int, BlockedBooking>, blockedRooms: map<int, BlockedRoom>, i: int, o: int)
    ensures var u := Unavailable(res, links, blocks, blockedRooms, i, o);
            (set id | id in rooms && Candidate(rooms, b, t, id) && id !in u)
            == (set id | id in rooms && Candidate(rooms, b, t, id) && FreeFor(res, links, id, i, o) && Unblocked(blocks, blockedRooms, id, i, o))
  {
  }

  /** The two counts: every Available room of the branch and type, and those
      of them that neither an overlapping non-Cancelled reservation nor an
      overlapping blocked booking holds. */
  lemma AvailabilityCounts(rooms: map<int, Room>, bound: int, res: map<int, Reservation>, links: map<int, BookedRoom>,
                           blocks: map<int, BlockedBooking>, blockedRooms: map<int, BlockedRoom>, q: AvailabilityQuery)
    requires Below(rooms, bound)
    ensures var r := GetRoomAvailability(rooms, bound, res, links, blocks, blockedRooms, q);
            r.Ok? ==> r.value.total_rooms == |set id | id in rooms && Candidate(rooms, q.branch_id.value, q.room_type_id.value, id)|
    ensures var r := GetRoomAvailability(rooms, bound, res, links, blocks, blockedRooms, q);
            r.Ok? && q.check_in_date.At? && q.check_out_date.At? ==>
              var b, t, i, o := q.branch_id.value, q.room_type_id.value, q.check_in_date.time, q.check_out_date.time;
              r.value.available_rooms
              == |set id | id in rooms && Candidate(rooms, b, t, id) && FreeFor(res, links, id, i, o) && Unblocked(blocks, blockedRooms, id, i, o)|
  {
    var r := GetRoomAvailability(rooms, bound, res, links, blocks, blockedRooms, q);
    if r.Ok? && !(q.check_in_date.At? && q.check_out_date.At?) {
      CandidateCount(rooms, bound, q.branch_id.value, q.room_type_id.value);
    }
    if r.Ok? && q.check_in_date.At? && q.check_out_date.At? {
      var b, t, i, o := q.branch_id.value, q.room_type_id.value, q.check_in_date.time, q.check_out_date.time;
      AvailabilityValue(rooms, bound, res, links, blocks, blockedRooms, q);
      CandidateCount(rooms, bound, b, t);
      FreeCount(rooms, bound, b, t, Unavailable(res, links, blocks, blockedRooms, i, o));
      UnavailableComplement(rooms, b, t, res, links, blocks, blockedRooms, i, o);
    }
  }

  // ---------------------------------------------------------------- catalogue

  datatype BranchTally = BranchTally(branch_id: int, branch_name: string, available_rooms: int)

  datatype TypeSummary = TypeSummary(
    room_type_id: int,
    type_name: string,
    description: Option<string>,
    base_price: real,
    total_rooms: int,
    branches: seq<BranchTally>)

  /** The room is in an existing branch (`room.branch` is not null). */
  predicate HasBranch(rooms: map<int, Room>, branches: map<int, Branch>, id: int)
  {
    id in rooms && rooms[id].branch_id.Some? && rooms[id].branch_id.value in branches
  }

  /** The rooms among `ids` in existing branch `b` with status Available. */
  function CountAvailable(rooms: map<int, Room>, ids: seq<int>, b: int): (n: nat)
    ensures n <= |ids|
  {
    if ids == [] then 0
    else
      var last := ids[|ids| - 1];
      CountAvailable(rooms, ids[..|ids| - 1], b)
      + (if last in rooms && rooms[last].branch_id == Some(b) && rooms[last].status == Available then 1 else 0)
  }

  /** Some room among `ids` lies in branch `b`. */
  predicate SomeRoomIn(rooms: map<int, Room>, ids: seq<int>, b: int)
  {
    exists x :: x in ids && x in rooms && rooms[x].branch_id == Some(b)
  }

  lemma {:induction false} CountAvailableNone(rooms: map<int, Room>, ids: seq<int>, b: int)
    requires !SomeRoomIn(rooms, ids, b)
    ensures CountAvailable(rooms, ids, b) == 0
  {
    if ids != [] {
      assert forall x :: x in ids[..|ids| - 1] ==> x in ids;
      CountAvailableNone(rooms, ids[..|ids| - 1], b);
    }
  }

  /** The rooms of a type, in id order (`include: { room: ... }`). */
  function RoomsOfType(rooms: map<int, Room>, bound: int, t: int): (s: seq<int>)
    requires Below(rooms, bound)
    ensures Increasing(s)
    ensures forall id :: id in s <==> id in rooms && rooms[id].room_type_id == t
  {
    Select(RowOrder(rooms, bound), (id: int) => id in rooms && rooms[id].room_type_id == t)
  }

  /** The per-branch counters the `forEach` over a type's rooms leaves:
      one entry per existing branch holding one of the rooms, counting that
      branch's Available rooms. */
  method TallyBranches(rooms: map<int, Room>, branches: map<int, Branch>, ids: seq<int>) returns (tally: map<int, int>)
    ensures forall b :: b in tally <==> b in branches && SomeRoomIn(rooms, ids, b)
    ensures forall b :: b in tally ==> tally[b] == CountAvailable(rooms, ids, b)
  {
    tally := map[];
    var i := 0;
    while i < |ids|
      invariant 0 <= i <= |ids|
      invariant forall b :: b in tally <==> b in branches && SomeRoomIn(rooms, ids[..i], b)
      invariant forall b :: b in tally ==> tally[b] == CountAvailable(rooms, ids[..i], b)
    {
      var id := ids[i];
      TallyPrefixStep(rooms, ids, i);
      if HasBranch(rooms, branches, id) {
        var b := rooms[id].branch_id.value;
        if b !in tally {
          CountAvailableNone(rooms, ids[..i], b);
          tally := tally[b := 0];
        }
        if rooms[id].status == Available {
          tally := tally[b := tally[b] + 1];
        }
      }
      i := i + 1;
    }
    assert ids[..i] == ids;
  }

  /** Extending the prefix by one room adds that room to the count and to
      the branches holding a room, and changes nothing else. */
  lemma TallyPrefixStep(rooms: map<int, Room>, ids: seq<int>, i: int)
    requires 0 <= i < |ids|
    ensures forall b :: CountAvailable(rooms, ids[..i + 1], b)
                        == CountAvailable(rooms, ids[..i], b)
                           + (if ids[i] in rooms && rooms[ids[i]].branch_id == Some(b) && rooms[ids[i]].status == Available then 1 else 0)
    ensures forall b :: SomeRoomIn(rooms, ids[..i + 1], b)
                        <==> SomeRoomIn(rooms, ids[..i], b) || (ids[i] in rooms && rooms[ids[i]].branch_id == Some(b))
  {
    assert ids[..i + 1][..i] == ids[..i];
    assert forall x :: x in ids[..i + 1] <==> x in ids[..i] || x == ids[i];
  }

  /** The tallies of the branches in `keys`, in that order. */
  function Tallies(branches: map<int, Branch>, rooms: map<int, Room>, ids: seq<int>, keys: seq<int>): (t: seq<BranchTally>)
    requires forall k :: 0 <= k < |keys| ==> keys[k] in branches
    ensures |t| == |keys|
    ensures forall k :: 0 <= k < |keys| ==> t[k] == BranchTally(keys[k], branches[keys[k]].name, CountAvailable(rooms, ids, keys[k]))
  {
    if keys == [] then []
    else [BranchTally(keys[0], branches[keys[0]].name, CountAvailable(rooms, ids, keys[0]))] + Tallies(branches, rooms, ids, keys[1..])
  }

  /** The entry of one room type: all its rooms counted, and one tally per
      branch holding any of them, in ascending branch id (the order
      `Object.values` lists integer keys in). */
  function Summary(roomTypes: map<int, RoomType>, rooms: map<int, Room>, branches: map<int, Branch>, bound: int, t: int): TypeSummary
    requires Below(rooms, bound) && Below(branches, bound) && t in roomTypes
  {
    var ids := RoomsOfType(rooms, bound, t);
    var keys := SortedIds((set b | b in branches && SomeRoomIn(rooms, ids, b)), bound);
    assert forall k :: 0 <= k < |keys| ==> keys[k] in keys;
    TypeSummary(t, roomTypes[t].type_name, roomTypes[t].description, roomTypes[t].base_price, |ids|,
                Tallies(branches, rooms, ids, keys))
  }

  /** One entry of the catalogue, tallied room by room. */
  method SummarizeType(roomTypes: map<int, RoomType>, rooms: map<int, Room>, branches: map<int, Branch>, bound: int, t: int)
    returns (entry: TypeSummary)
    requires Below(rooms, bound) && Below(branches, bound) && t in roomTypes
    ensures entry == Summary(roomTypes, rooms, branches, bound, t)
  {
    var ids := RoomsOfType(rooms, bound, t);
    var tally := TallyBranches(rooms, branches, ids);
    var held := set b | b in branches && SomeRoomIn(rooms, ids, b);
    forall b | b in held ensures b in tally {}
    forall b | b in tally ensures b in held {}
    assert tally.Keys == held;
    var keys := SortedIds(tally.Keys, bound);
    assert forall k :: 0 <= k < |keys| ==> keys[k] in keys;
    entry := TypeSummary(t, roomTypes[t].type_name, roomTypes[t].description, roomTypes[t].base_price, |ids|,
                         Tallies(branches, rooms, ids, keys));
  }

  /** The catalogue: one entry per room type, in id order. */
  method GetRooms(db: Db) returns (result: seq<TypeSummary>)
    requires db.Valid()
    ensures var types := RowOrder(db.roomTypes, db.nextId);
            |result| == |types|
            && forall k :: 0 <= k < |types| ==> result[k] == Summary(db.roomTypes, db.rooms, db.branches, db.nextId, types[k])
  {
    result := Catalogue(db.roomTypes, db.rooms, db.branches, db.nextId);
  }

  /** The `roomTypes.map` over the room types of a store. */
  method Catalogue(roomTypes: map<int, RoomType>, rooms: map<int, Room>, branches: map<int, Branch>, bound: int)
    returns (result: seq<TypeSummary>)
    requires Below(roomTypes, bound) && Below(rooms, bound) && Below(branches, bound)
    ensures var types := RowOrder(roomTypes, bound);
            |result| == |types|
            && forall k :: 0 <= k < |types| ==> result[k] == Summary(roomTypes, rooms, branches, bound, types[k])
  {
    var types := RowOrder(roomTypes, bound);
    assert forall j :: 0 <= j < |types| ==> types[j] in roomTypes by {
      forall j | 0 <= j < |types| ensures types[j] in roomTypes { assert types[j] in types; }
    }
    result := [];
    var k := 0;
    while k < |types|
      invariant 0 <= k <= |types| && |result| == k
      invariant forall j :: 0 <= j < k ==> result[j] == Summary(roomTypes, rooms, branches, bound, types[j])
    {
      var entry := SummarizeType(roomTypes, rooms, branches, bound, types[k]);
      var before := result;
      result := result + [entry];
      assert forall j :: 0 <= j < k ==> result[j] == before[j];
      k := k + 1;
    }
  }

  /** The sum of the tallies of an entry. */
  function TallySum(t: seq<BranchTally>): int
  {
    if t == [] then 0 else t[0].available_rooms + TallySum(t[1..])
  }

  /** The counts of distinct branches over the same rooms. */
  function CountSum(rooms: map<int, Room>, ids: seq<int>, keys: seq<int>): int
  {
    if keys == [] then 0 else CountAvailable(rooms, ids, keys[0]) + CountSum(rooms, ids, keys[1..])
  }

  /** One more room adds at most one to the counts of distinct branches. */
  lemma {:induction false} CountSumSnoc(rooms: map<int, Room>, ids: seq<int>, x: int, keys: seq<int>)
    requires Distinct(keys)
    ensures CountSum(rooms, ids + [x], keys) <= CountSum(rooms, ids, keys) + 1
    ensures (x !in rooms || rooms[x].status != Available) ==> CountSum(rooms, ids + [x], keys) == CountSum(rooms, ids, keys)
    ensures x in rooms && rooms[x].branch_id.Some? && rooms[x].branch_id.value !in keys
            ==> CountSum(rooms, ids + [x], keys) == CountSum(rooms, ids, keys)
  {
    if keys != [] {
      assert (ids + [x])[..|ids + [x]| - 1] == ids;
      assert Distinct(keys[1..]) by {
        forall i, j | 0 <= i < j < |keys[1..]| ensures keys[1..][i] != keys[1..][j] {
          assert keys[1..][i] == keys[i + 1] && keys[1..][j] == keys[j + 1];
        }
      }
      CountSumSnoc(rooms, ids, x, keys[1..]);
      if x in rooms && rooms[x].branch_id == Some(keys[0]) {
        assert keys[0] !in keys[1..] by {
          forall k | 0 <= k < |keys[1..]| ensures keys[1..][k] != keys[0] { assert keys[1..][k] == keys[k + 1]; }
        }
      }
    }
  }

  /** Over distinct branches the counts add up to at most the number of rooms. */
  lemma {:induction false} CountSumBound(rooms: map<int, Room>, ids: seq<int>, keys: seq<int>)
    requires Distinct(keys)
    ensures CountSum(rooms, ids, keys) <= |ids|
    decreases |ids|
  {
    if ids == [] {
      CountSumEmpty(rooms, keys);
    } else {
      var front := ids[..|ids| - 1];
      assert ids == front + [ids[|ids| - 1]];
      CountSumBound(rooms, front, keys);
      CountSumSnoc(rooms, front, ids[|ids| - 1], keys);
    }
  }

  lemma {:induction false} CountSumEmpty(rooms: map<int, Room>, keys: seq<int>)
    ensures CountSum(rooms, [], keys) == 0
  {
    if keys != [] {
      CountSumEmpty(rooms, keys[1..]);
    }
  }

  lemma {:induction false} TallySumIsCountSum(branches: map<int, Branch>, rooms: map<int, Room>, ids: seq<int>, keys: seq<int>)
    requires forall k :: 0 <= k < |keys| ==> keys[k] in branches
    ensures TallySum(Tallies(branches, rooms, ids, keys)) == CountSum(rooms, ids, keys)
  {
    if keys != [] {
      assert Tallies(branches, rooms, ids, keys)[1..] == Tallies(branches, rooms, ids, keys[1..]);
      TallySumIsCountSum(branches, rooms, ids, keys[1..]);
    }
  }

  /** The branch tallies of a room type add up to at most its room count:
      each room is counted in at most one branch, and rooms without a
      branch or not Available in none. */
  lemma TalliesWithinTotal(roomTypes: map<int, RoomType>, rooms: map<int, Room>, branches: map<int, Branch>, bound: int, t: int)
    requires Below(rooms, bound) && Below(branches, bound) && t in roomTypes
    ensures var s := Summary(roomTypes, rooms, branches, bound, t);
            TallySum(s.branches) <= s.total_rooms
  {
    var ids := RoomsOfType(rooms, bound, t);
    var keys := SortedIds((set b | b in branches && SomeRoomIn(rooms, ids, b)), bound);
    assert forall k :: 0 <= k < |keys| ==> keys[k] in keys;
    TallySumIsCountSum(branches, rooms, ids, keys);
    CountSumBound(rooms, ids, keys);
  }
}
