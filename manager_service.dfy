/** The manager's reports: occupancy on one day and over a range of days,
    revenue over a billing-date range (overall or per day / month), and the
    list of no-show reservations. */
module ManagerService {
  import opened Js
  import opened AppErrors
  import opened Ordering
  import opened Calendar
  import opened Schema

  // ---------------------------------------------------------------- occupancy

  /** A reservation occupies its rooms at instant `t`: its stay contains `t`
      (check-in inclusive, check-out exclusive), it is neither Cancelled nor
      a no-show, and it is in the requested branch when one is given. */
  predicate Occupies(r: Reservation, t: int, branch: Option<int>)
  {
    r.check_in <= t < r.check_out && r.status != Cancelled && r.status != NoShow
    && (TruthyNum(branch) ==> r.branch_id == branch.value)
  }

  /** The `bookedrooms` rows counted as occupied at `t`. */
  function OccupiedLinks(res: map<int, Reservation>, links: map<int, BookedRoom>, t: int, branch: Option<int>): set<int>
  {
    set l | l in links && links[l].reservation_id in res && Occupies(res[links[l].reservation_id], t, branch)
  }

  /** The rooms counted under the branch filter. */
  function RoomsUnder(rooms: map<int, Room>, branch: Option<int>): (s: set<int>)
    ensures s <= rooms.Keys
  {
    set id | id in rooms && (TruthyNum(branch) ==> rooms[id].branch_id == Some(branch.value))
  }

  lemma SubsetCard<T>(a: set<T>, b: set<T>)
    requires a <= b
    ensures |a| <= |b|
  {
    assert b == a + (b - a);
  }

  datatype DailyOccupancy = DailyOccupancy(day: int, total_rooms: int, occupied_rooms: int)

  /** The occupancy report for one instant (`now` when no date is given); the
      `day` is the UTC calendar day the report prints. */
  function GetDailyOccupancyReport(rooms: map<int, Room>, res: map<int, Reservation>, links: map<int, BookedRoom>,
                                   now: int, date: DateArg, branch: Option<int>): (r: Result<DailyOccupancy>)
    ensures r.Fail? <==> date.Unparsable?
    ensures r.Fail? ==> r.error == Validation("Invalid date format")
    ensures r.Ok? ==> 0 <= r.value.occupied_rooms <= |links| && 0 <= r.value.total_rooms <= |rooms|
    ensures r.Ok? ==>
              var t := if date.At? then date.time else now;
              DAY_MS * r.value.day <= t < DAY_MS * (r.value.day + 1)
              && r.value.total_rooms == |RoomsUnder(rooms, branch)|
              && r.value.occupied_rooms == |OccupiedLinks(res, links, t, branch)|
  {
    if date.Unparsable? then Fail(Validation("Invalid date format"))
    else
      var t := if date.At? then date.time else now;
      SubsetCard(OccupiedLinks(res, links, t, branch), links.Keys);
      SubsetCard(RoomsUnder(rooms, branch), rooms.Keys);
      Ok(DailyOccupancy(DayOf(t), |RoomsUnder(rooms, branch)|, |OccupiedLinks(res, links, t, branch)|))
  }

  /** A row of a reservation that is neither Cancelled nor a no-show, in the
      branch asked for, is counted exactly on the instants of its stay: from
      check-in up to but excluding check-out, so the check-out day is free. */
  lemma CountedDuringStay(res: map<int, Reservation>, links: map<int, BookedRoom>, l: int, t: int, branch: Option<int>)
    requires l in links && links[l].reservation_id in res
    requires var r := res[links[l].reservation_id];
             r.status != Cancelled && r.status != NoShow && (TruthyNum(branch) ==> r.branch_id == branch.value)
    ensures var r := res[links[l].reservation_id];
            l in OccupiedLinks(res, links, t, branch) <==> r.check_in <= t < r.check_out
    ensures l !in OccupiedLinks(res, links, res[links[l].reservation_id].check_out, branch)
  {
  }

  /** Cancelled and no-show reservations are never counted. */
  lemma NeverCountedUnlessStaying(res: map<int, Reservation>, links: map<int, BookedRoom>, l: int, t: int, branch: Option<int>)
    requires l in links && links[l].reservation_id in res
    requires res[links[l].reservation_id].status in {Cancelled, NoShow}
    ensures l !in OccupiedLinks(res, links, t, branch)
  {
  }

  /** Without a branch filter, and with no room booked twice for
      overlapping stays, no more rooms are occupied than exist: the rows
      counted at one instant hold pairwise different rooms. */
  lemma {:induction false} OccupancyWithinRooms(rooms: map<int, Room>, res: map<int, Reservation>, links: map<int, BookedRoom>,
                                                bound: int, t: int, branch: Option<int>)
    requires Below(links, bound) && NoDoubleBooking(res, links)
    requires forall l :: l in links ==> links[l].room_id in rooms
    requires !TruthyNum(branch)
    ensures |OccupiedLinks(res, links, t, branch)| <= |RoomsUnder(rooms, branch)|
  {
    var occ := OccupiedLinks(res, links, t, branch);
    var s := SortedIds(occ, bound);
    DistinctCount(s);
    assert (set x | x in s) == occ;
    forall i | 0 <= i < |s| ensures s[i] in links { assert s[i] in s; }
    var held := seq(|s|, i requires 0 <= i < |s| => links[s[i]].room_id);
    forall i, j | 0 <= i < j < |held| ensures held[i] != held[j] {
      assert s[i] in s && s[j] in s && s[i] != s[j];
      var a, b := links[s[i]].reservation_id, links[s[j]].reservation_id;
      assert res[a].check_in <= t < res[a].check_out && res[b].check_in <= t < res[b].check_out;
      assert Overlaps(res[a].check_in, res[a].check_out, res[b].check_in, res[b].check_out);
    }
    DistinctSetCount(held);
    SubsetCard((set x | x in held), RoomsUnder(rooms, branch));
  }

  /** The daily report of a store with no double booking, without a branch
      filter, never shows more occupied rooms than rooms. */
  lemma DailyOccupancyWithinRooms(rooms: map<int, Room>, res: map<int, Reservation>, links: map<int, BookedRoom>,
                                  bound: int, now: int, date: DateArg, branch: Option<int>)
    requires Below(links, bound) && NoDoubleBooking(res, links)
    requires forall l :: l in links ==> links[l].room_id in rooms
    requires !TruthyNum(branch)
    ensures var r := GetDailyOccupancyReport(rooms, res, links, now, date, branch);
            r.Ok? ==> r.value.occupied_rooms <= r.value.total_rooms
  {
    var t := if date.At? then date.time else now;
    OccupancyWithinRooms(rooms, res, links, bound, t, branch);
  }

  datatype DayEntry = DayEntry(day: int, occupied_rooms: int, available_rooms: int)

  /** The entry for instant `t`: the rows occupied then, and the rooms left. */
  function DayEntryAt(rooms: map<int, Room>, res: map<int, Reservation>, links: map<int, BookedRoom>,
                      branch: Option<int>, t: int): DayEntry
  {
    var occupied := |OccupiedLinks(res, links, t, branch)|;
    DayEntry(DayOf(t), occupied, |RoomsUnder(rooms, branch)| - occupied)
  }

  /** The number of days from `start` to `end`, both included. */
  function DayCount(start: int, end: int): (n: nat)
    requires start <= end
    ensures start + (n - 1) * DAY_MS <= end < start + n * DAY_MS
  {
    (end - start) / DAY_MS + 1
  }

  /** The projected report: one entry per day from `from_date` to `to_date`,
      both included, stepping one day at a time. */
  method GetProjectedOccupancyReport(rooms: map<int, Room>, res: map<int, Reservation>, links: map<int, BookedRoom>,
                                     fromDate: DateArg, toDate: DateArg, branch: Option<int>)
    returns (r: Result<seq<DayEntry>>)
    ensures fromDate.Absent? || toDate.Absent? ==> r == Fail(Validation("from_date and to_date are required"))
    ensures !fromDate.Absent? && !toDate.Absent? && (fromDate.Unparsable? || toDate.Unparsable?)
            ==> r == Fail(Validation("Invalid date format"))
    ensures fromDate.At? && toDate.At? && fromDate.time > toDate.time ==> r == Fail(Validation("from_date must be before to_date"))
    ensures r.Ok? <==> fromDate.At? && toDate.At? && fromDate.time <= toDate.time
    ensures r.Ok? ==> |r.value| == DayCount(fromDate.time, toDate.time)
    ensures r.Ok? ==> forall k :: 0 <= k < |r.value| ==> r.value[k] == DayEntryAt(rooms, res, links, branch, fromDate.time + k * DAY_MS)
  {
    if fromDate.Absent? || toDate.Absent? {
      return Fail(Validation("from_date and to_date are required"));
    }
    if fromDate.Unparsable? || toDate.Unparsable? {
      return Fail(Validation("Invalid date format"));
    }
    var start, end := fromDate.time, toDate.time;
    if start > end {
      return Fail(Validation("from_date must be before to_date"));
    }
    var results: seq<DayEntry> := [];
    var d := start;
    while d <= end
      invariant d == start + |results| * DAY_MS
      invariant d <= end + DAY_MS
      invariant forall k :: 0 <= k < |results| ==> results[k] == DayEntryAt(rooms, res, links, branch, start + k * DAY_MS)
      decreases end - d
    {
      results := results + [DayEntryAt(rooms, res, links, branch, d)];
      d := d + DAY_MS;
    }
    DayCountUnique(start, end, |results|);
    r := Ok(results);
  }

  /** The day count is the only n with n - 1 whole days within the range
      and n whole days beyond it. */
  lemma DayCountUnique(start: int, end: int, n: int)
    requires start <= end && start + (n - 1) * DAY_MS <= end < start + n * DAY_MS
    ensures n == DayCount(start, end)
  {
  }

  /** Consecutive entries are consecutive calendar days, and each agrees
      with the daily report for that instant. */
  lemma ProjectedIsDaily(rooms: map<int, Room>, res: map<int, Reservation>, links: map<int, BookedRoom>,
                         branch: Option<int>, t: int)
    ensures DayEntryAt(rooms, res, links, branch, t + DAY_MS).day == DayEntryAt(rooms, res, links, branch, t).day + 1
    ensures var daily := GetDailyOccupancyReport(rooms, res, links, t, At(t), branch);
            var e := DayEntryAt(rooms, res, links, branch, t);
            daily.Ok? && daily.value.day == e.day && daily.value.occupied_rooms == e.occupied_rooms
            && e.occupied_rooms + e.available_rooms == daily.value.total_rooms
  {
    DayOfNext(t);
  }

  // ---------------------------------------------------------------- revenue

  /** A billing row inside the report's filter: billed within
      [start, end] inclusive, and for a reservation of the branch when one
      is given. */
  predicate InRevenueRange(res: map<int, Reservation>, b: Billing, start: int, end: int, branch: Option<int>)
  {
    start <= b.billing_date <= end
    && (TruthyNum(branch) ==> b.reservation_id in res && res[b.reservation_id].branch_id == branch.value)
  }

  /** The billing rows in the filter, in the order the database lists them. */
  function RevenueRows(billings: map<int, Billing>, bound: int, res: map<int, Reservation>,
                       start: int, end: int, branch: Option<int>): (s: seq<int>)
    requires Below(billings, bound)
    ensures Increasing(s)
    ensures forall id :: id in s <==> id in billings && InRevenueRange(res, billings[id], start, end, branch)
  {
    Select(RowOrder(billings, bound), (id: int) => id in billings && InRevenueRange(res, billings[id], start, end, branch))
  }

  /** The three amounts a billing row carries. */
  datatype Field = TotalAmount | TaxAmount | OtherCharges

  function Amount(b: Billing, f: Field): real
  {
    match f
    case TotalAmount => b.total_amount
    case TaxAmount => b.tax_amount
    case OtherCharges => b.other_charges
  }

  /** The sum of one amount over the rows `ids` (`_sum`; 0 over no rows). */
  function SumOf(billings: map<int, Billing>, ids: seq<int>, f: Field): real
  {
    if ids == [] then 0.0
    else
      var last := ids[|ids| - 1];
      SumOf(billings, ids[..|ids| - 1], f) + (if last in billings then Amount(billings[last], f) else 0.0)
  }

  /** The number of rows among `ids` with the billing status. */
  function CountStatus(billings: map<int, Billing>, ids: seq<int>, st: BillingStatus): (n: nat)
    ensures n <= |ids|
  {
    if ids == [] then 0
    else
      var last := ids[|ids| - 1];
      CountStatus(billings, ids[..|ids| - 1], st) + (if last in billings && billings[last].status == st then 1 else 0)
  }

  /** Every billing row is Paid or Unpaid, so the two counts add up to the
      number of rows in the filter. */
  lemma {:induction false} PaidPlusUnpaid(billings: map<int, Billing>, ids: seq<int>)
    requires forall id :: id in ids ==> id in billings
    ensures CountStatus(billings, ids, Paid) + CountStatus(billings, ids, Unpaid) == |ids|
  {
    if ids != [] {
      assert forall id :: id in ids[..|ids| - 1] ==> id in ids;
      PaidPlusUnpaid(billings, ids[..|ids| - 1]);
      assert ids[|ids| - 1] in ids;
    }
  }

  /** The period a billing row falls in: its UTC day, or its local year and
      month. */
  datatype Period = Day(day: int) | Month(month: YearMonth)

  function PeriodOf(b: Billing, monthly: bool, localOffset: int): Period
  {
    if monthly then Month(MonthOf(b.billing_date, localOffset)) else Day(DayOf(b.billing_date))
  }

  datatype Bucket = Bucket(period: Period, total_revenue: real, tax: real, other_charges: real)

  function BucketAmount(k: Bucket, f: Field): real
  {
    match f
    case TotalAmount => k.total_revenue
    case TaxAmount => k.tax
    case OtherCharges => k.other_charges
  }

  /** A row's amounts added to a bucket. */
  function Add(k: Bucket, b: Billing): (r: Bucket)
    ensures r.period == k.period && forall f :: BucketAmount(r, f) == BucketAmount(k, f) + Amount(b, f)
  {
    Bucket(k.period, k.total_revenue + b.total_amount, k.tax + b.tax_amount, k.other_charges + b.other_charges)
  }

  /** The bucket list after one more row of period `p`: the first bucket of
      that period gains its amounts, or a new bucket goes at the end. */
  function AddTo(bs: seq<Bucket>, p: Period, b: Billing): seq<Bucket>
  {
    if bs == [] then [Bucket(p, b.total_amount, b.tax_amount, b.other_charges)]
    else if bs[0].period == p then [Add(bs[0], b)] + bs[1..]
    else [bs[0]] + AddTo(bs[1..], p, b)
  }

  /** The buckets of the rows `ids`, in the order their periods first occur
      (the insertion order `Object.values` keeps for these string keys). */
  function Grouped(billings: map<int, Billing>, ids: seq<int>, monthly: bool, localOffset: int): seq<Bucket>
  {
    if ids == [] then []
    else
      var last := ids[|ids| - 1];
      var g := Grouped(billings, ids[..|ids| - 1], monthly, localOffset);
      if last in billings then AddTo(g, PeriodOf(billings[last], monthly, localOffset), billings[last]) else g
  }

  /** The amount of period `p` in a bucket list: its first bucket's, or 0. */
  function AmountAt(bs: seq<Bucket>, p: Period, f: Field): real
  {
    if bs == [] then 0.0
    else if bs[0].period == p then BucketAmount(bs[0], f)
    else AmountAt(bs[1..], p, f)
  }

  /** The sum of one amount over all buckets. */
  function BucketSum(bs: seq<Bucket>, f: Field): real
  {
    if bs == [] then 0.0 else BucketAmount(bs[0], f) + BucketSum(bs[1..], f)
  }

  /** The periods that have a bucket. */
  function Periods(bs: seq<Bucket>): set<Period>
  {
    if bs == [] then {} else {bs[0].period} + Periods(bs[1..])
  }

  /** No period has two buckets: each bucket's period occurs in no later one. */
  predicate DistinctPeriods(bs: seq<Bucket>)
  {
    bs == [] || (bs[0].period !in Periods(bs[1..]) && DistinctPeriods(bs[1..]))
  }

  /** The sum of one amount over the rows of period `p`. */
  function SumWhere(billings: map<int, Billing>, ids: seq<int>, f: Field, p: Period, monthly: bool, localOffset: int): real
  {
    if ids == [] then 0.0
    else
      var last := ids[|ids| - 1];
      SumWhere(billings, ids[..|ids| - 1], f, p, monthly, localOffset)
      + (if last in billings && PeriodOf(billings[last], monthly, localOffset) == p then Amount(billings[last], f) else 0.0)
  }

  lemma {:induction false} AddToAmountAt(bs: seq<Bucket>, p: Period, b: Billing, q: Period, f: Field)
    ensures AmountAt(AddTo(bs, p, b), q, f) == AmountAt(bs, q, f) + (if q == p then Amount(b, f) else 0.0)
  {
    if bs != [] && bs[0].period != p {
      AddToAmountAt(bs[1..], p, b, q, f);
    }
  }

  lemma {:induction false} AddToSum(bs: seq<Bucket>, p: Period, b: Billing, f: Field)
    ensures BucketSum(AddTo(bs, p, b), f) == BucketSum(bs, f) + Amount(b, f)
  {
    if bs != [] {
      if bs[0].period == p {
        assert AddTo(bs, p, b)[1..] == bs[1..];
      } else {
        assert AddTo(bs, p, b)[1..] == AddTo(bs[1..], p, b);
        AddToSum(bs[1..], p, b, f);
      }
    }
  }

  lemma {:induction false} AddToPeriods(bs: seq<Bucket>, p: Period, b: Billing)
    ensures Periods(AddTo(bs, p, b)) == Periods(bs) + {p}
    ensures DistinctPeriods(bs) ==> DistinctPeriods(AddTo(bs, p, b))
  {
    if bs != [] {
      var r := AddTo(bs, p, b);
      if bs[0].period == p {
        assert r[1..] == bs[1..];
      } else {
        assert r[1..] == AddTo(bs[1..], p, b);
        AddToPeriods(bs[1..], p, b);
      }
    }
  }

  /** Each bucket holds the sum of its period's rows, for every amount. */
  lemma {:induction false} GroupedAmounts(billings: map<int, Billing>, ids: seq<int>, monthly: bool, localOffset: int, p: Period, f: Field)
    ensures AmountAt(Grouped(billings, ids, monthly, localOffset), p, f) == SumWhere(billings, ids, f, p, monthly, localOffset)
  {
    if ids != [] {
      var last := ids[|ids| - 1];
      GroupedAmounts(billings, ids[..|ids| - 1], monthly, localOffset, p, f);
      if last in billings {
        AddToAmountAt(Grouped(billings, ids[..|ids| - 1], monthly, localOffset), PeriodOf(billings[last], monthly, localOffset), billings[last], p, f);
      }
    }
  }

  /** The buckets add up to the overall sums of the same rows. */
  lemma {:induction false} GroupedTotals(billings: map<int, Billing>, ids: seq<int>, monthly: bool, localOffset: int, f: Field)
    ensures BucketSum(Grouped(billings, ids, monthly, localOffset), f) == SumOf(billings, ids, f)
  {
    if ids != [] {
      var last := ids[|ids| - 1];
      GroupedTotals(billings, ids[..|ids| - 1], monthly, localOffset, f);
      if last in billings {
        AddToSum(Grouped(billings, ids[..|ids| - 1], monthly, localOffset), PeriodOf(billings[last], monthly, localOffset), billings[last], f);
      }
    }
  }

  /** One bucket per period, and a bucket exactly for the periods some row
      falls in. */
  lemma {:induction false} GroupedPeriods(billings: map<int, Billing>, ids: seq<int>, monthly: bool, localOffset: int)
    ensures var g := Grouped(billings, ids, monthly, localOffset);
            DistinctPeriods(g)
            && Periods(g) == set x | x in ids && x in billings :: PeriodOf(billings[x], monthly, localOffset)
  {
    if ids != [] {
      var front := ids[..|ids| - 1];
      var last := ids[|ids| - 1];
      GroupedPeriods(billings, front, monthly, localOffset);
      assert forall x :: x in ids <==> x in front || x == last;
      if last in billings {
        AddToPeriods(Grouped(billings, front, monthly, localOffset), PeriodOf(billings[last], monthly, localOffset), billings[last]);
      }
    }
  }

  /** With `j` the first bucket of period `p`, adding a row updates it in
      place. */
  lemma {:induction false} AddToAt(bs: seq<Bucket>, p: Period, b: Billing, j: int)
    requires 0 <= j < |bs| && bs[j].period == p && forall k :: 0 <= k < j ==> bs[k].period != p
    ensures AddTo(bs, p, b) == bs[j := Add(bs[j], b)]
  {
    if j > 0 {
      AddToAt(bs[1..], p, b, j - 1);
      assert bs[j := Add(bs[j], b)] == [bs[0]] + bs[1..][j - 1 := Add(bs[j], b)];
    }
  }

  /** Without a bucket of period `p`, adding a row appends one. */
  lemma {:induction false} AddToNew(bs: seq<Bucket>, p: Period, b: Billing)
    requires forall k :: 0 <= k < |bs| ==> bs[k].period != p
    ensures AddTo(bs, p, b) == bs + [Bucket(p, b.total_amount, b.tax_amount, b.other_charges)]
  {
    if bs != [] {
      AddToNew(bs[1..], p, b);
      assert bs + [Bucket(p, b.total_amount, b.tax_amount, b.other_charges)]
             == [bs[0]] + (bs[1..] + [Bucket(p, b.total_amount, b.tax_amount, b.other_charges)]);
    }
  }

  /** The `forEach` over the rows: look the period up among the buckets made
      so far, open a bucket for it when there is none, and add the amounts. */
  method GroupRevenue(billings: map<int, Billing>, ids: seq<int>, monthly: bool, localOffset: int) returns (buckets: seq<Bucket>)
    requires forall id :: id in ids ==> id in billings
    ensures buckets == Grouped(billings, ids, monthly, localOffset)
  {
    buckets := [];
    var i := 0;
    while i < |ids|
      invariant 0 <= i <= |ids|
      invariant buckets == Grouped(billings, ids[..i], monthly, localOffset)
    {
      var id := ids[i];
      assert id in ids;
      assert id in billings;
      var bill := billings[id];
      var key := PeriodOf(bill, monthly, localOffset);
      var j := 0;
      while j < |buckets| && buckets[j].period != key
        invariant 0 <= j <= |buckets|
        invariant forall k :: 0 <= k < j ==> buckets[k].period != key
      {
        j := j + 1;
      }
      assert ids[..i + 1][..i] == ids[..i];
      if j == |buckets| {
        AddToNew(buckets, key, bill);
        buckets := buckets + [Bucket(key, 0.0, 0.0, 0.0)];
        buckets := buckets[j := Add(buckets[j], bill)];
      } else {
        AddToAt(buckets, key, bill, j);
        buckets := buckets[j := Add(buckets[j], bill)];
      }
      i := i + 1;
    }
    assert ids[..i] == ids;
  }

  datatype RevenueSummary = RevenueSummary(
    total_revenue: real,
    tax: real,
    other_charges: real,
    paid_reservations: int,
    unpaid_reservations: int)

  datatype RevenueReport = Overall(summary: RevenueSummary) | ByPeriod(buckets: seq<Bucket>)

  /** The ungrouped report over the rows `ids`. */
  function OverallOf(billings: map<int, Billing>, ids: seq<int>): RevenueSummary
  {
    RevenueSummary(SumOf(billings, ids, TotalAmount), SumOf(billings, ids, TaxAmount), SumOf(billings, ids, OtherCharges),
                   CountStatus(billings, ids, Paid), CountStatus(billings, ids, Unpaid))
  }

  /** The revenue report. An empty or missing `groupBy` gives the overall
      summary, `'monthly'` buckets by local year and month, and any other
      value by UTC day. */
  method GetRevenueReport(billings: map<int, Billing>, bound: int, res: map<int, Reservation>,
                          fromDate: DateArg, toDate: DateArg, branch: Option<int>, groupBy: Option<string>, localOffset: int)
    returns (r: Result<RevenueReport>)
    requires Below(billings, bound)
    ensures fromDate.Absent? || toDate.Absent? ==> r == Fail(Validation("from_date and to_date are required"))
    ensures !fromDate.Absent? && !toDate.Absent? && (fromDate.Unparsable? || toDate.Unparsable?)
            ==> r == Fail(Validation("Invalid date format"))
    ensures r.Ok? <==> fromDate.At? && toDate.At?
    ensures r.Ok? ==>
              var rows := RevenueRows(billings, bound, res, fromDate.time, toDate.time, branch);
              if !TruthyStr(groupBy) then r.value == Overall(OverallOf(billings, rows))
              else r.value == ByPeriod(Grouped(billings, rows, groupBy.value == "monthly", localOffset))
  {
    if fromDate.Absent? || toDate.Absent? {
      return Fail(Validation("from_date and to_date are required"));
    }
    if fromDate.Unparsable? || toDate.Unparsable? {
      return Fail(Validation("Invalid date format"));
    }
    var rows := RevenueRows(billings, bound, res, fromDate.time, toDate.time, branch);
    if !TruthyStr(groupBy) {
      return Ok(Overall(OverallOf(billings, rows)));
    }
    var buckets := GroupRevenue(billings, rows, groupBy.value == "monthly", localOffset);
    r := Ok(ByPeriod(buckets));
  }

  /** The grouped and the overall report of the same query agree: for every
      amount the buckets add up to the overall sum, and the overall counts
      split the rows into Paid and Unpaid. */
  lemma GroupedMatchesOverall(billings: map<int, Billing>, bound: int, res: map<int, Reservation>,
                              start: int, end: int, branch: Option<int>, monthly: bool, localOffset: int)
    requires Below(billings, bound)
    ensures var rows := RevenueRows(billings, bound, res, start, end, branch);
            var o := OverallOf(billings, rows);
            var g := Grouped(billings, rows, monthly, localOffset);
            BucketSum(g, TotalAmount) == o.total_revenue && BucketSum(g, TaxAmount) == o.tax
            && BucketSum(g, OtherCharges) == o.other_charges
            && o.paid_reservations + o.unpaid_reservations == |rows|
  {
    var rows := RevenueRows(billings, bound, res, start, end, branch);
    GroupedTotals(billings, rows, monthly, localOffset, TotalAmount);
    GroupedTotals(billings, rows, monthly, localOffset, TaxAmount);
    GroupedTotals(billings, rows, monthly, localOffset, OtherCharges);
    PaidPlusUnpaid(billings, rows);
  }

  // ---------------------------------------------------------------- no-shows

  /** A no-show reservation of the branch (when given) whose check-in lies
      within the optional inclusive bounds. */
  predicate NoShowMatch(r: Reservation, from: Option<int>, to: Option<int>, branch: Option<int>)
  {
    r.status == NoShow && (TruthyNum(branch) ==> r.branch_id == branch.value)
    && (from.Some? ==> from.value <= r.check_in) && (to.Some? ==> r.check_in <= to.value)
  }

  datatype NoShowRow = NoShowRow(reservation_id: int, customer: string, check_in: int, rooms: int, branch: string)

  /** The `bookedrooms` rows of a reservation. */
  function LinkCount(links: map<int, BookedRoom>, id: int): int
  {
    |set l | l in links && links[l].reservation_id == id|
  }

  /** A report row: the customer's and branch's names, `'N/A'` when missing
      or empty. */
  function NoShowRowOf(customers: map<int, Customer>, branches: map<int, Branch>, res: map<int, Reservation>,
                       links: map<int, BookedRoom>, id: int): NoShowRow
    requires id in res
  {
    var r := res[id];
    NoShowRow(id,
              if r.customer_id in customers && customers[r.customer_id].full_name != "" then customers[r.customer_id].full_name else "N/A",
              r.check_in,
              LinkCount(links, id),
              if r.branch_id in branches && branches[r.branch_id].name != "" then branches[r.branch_id].name else "N/A")
  }

  /** The bound a date argument sets: none when absent, else its instant. */
  function BoundOf(d: DateArg): Option<int>
  {
    if d.At? then Some(d.time) else None
  }

  /** The matching reservations, latest check-in first. */
  function NoShowOrder(res: map<int, Reservation>, bound: int, from: Option<int>, to: Option<int>, branch: Option<int>): (s: seq<int>)
    requires Below(res, bound)
    ensures Distinct(s)
    ensures forall id :: id in s <==> id in res && NoShowMatch(res[id], from, to, branch)
    ensures forall i :: 0 <= i < |s| ==> s[i] in res
    ensures forall i :: 0 <= i < |s| - 1 ==> res[s[i]].check_in >= res[s[i + 1]].check_in
  {
    LatestFirst(res, Select(RowOrder(res, bound), (id: int) => id in res && NoShowMatch(res[id], from, to, branch)))
  }

  /** The no-show report. An unparsable bound reaches the database as an
      invalid date, which it rejects. */
  function GetNoShowReport(customers: map<int, Customer>, branches: map<int, Branch>, res: map<int, Reservation>, bound: int,
                           links: map<int, BookedRoom>, fromDate: DateArg, toDate: DateArg, branch: Option<int>): (r: Result<seq<NoShowRow>>)
    requires Below(res, bound)
    ensures r.Fail? <==> fromDate.Unparsable? || toDate.Unparsable?
    ensures r.Fail? ==> r.error.Unexpected?
  {
    if fromDate.Unparsable? || toDate.Unparsable? then Fail(Unexpected(INVALID_DATE))
    else
      var ids := NoShowOrder(res, bound, BoundOf(fromDate), BoundOf(toDate), branch);
      Ok(NoShowRows(customers, branches, res, links, ids))
  }

  /** One report row per reservation id, in the same order. */
  function NoShowRows(customers: map<int, Customer>, branches: map<int, Branch>, res: map<int, Reservation>,
                      links: map<int, BookedRoom>, ids: seq<int>): (rows: seq<NoShowRow>)
    requires forall i :: 0 <= i < |ids| ==> ids[i] in res
    ensures |rows| == |ids|
    ensures forall k :: 0 <= k < |rows| ==>
              rows[k].reservation_id == ids[k] && rows[k].check_in == res[ids[k]].check_in
              && rows[k].rooms == LinkCount(links, ids[k])
  {
    seq(|ids|, i requires 0 <= i < |ids| => NoShowRowOf(customers, branches, res, links, ids[i]))
  }

  /** The report lists each matching no-show reservation exactly once and
      nothing else, latest check-in first, with its number of booked rooms. */
  lemma NoShowReportRows(customers: map<int, Customer>, branches: map<int, Branch>, res: map<int, Reservation>, bound: int,
                         links: map<int, BookedRoom>, fromDate: DateArg, toDate: DateArg, branch: Option<int>)
    requires Below(res, bound)
    ensures var r := GetNoShowReport(customers, branches, res, bound, links, fromDate, toDate, branch);
            r.Ok? ==>
              var rows := r.value;
              (forall id :: (exists k :: 0 <= k < |rows| && rows[k].reservation_id == id)
                            <==> id in res && NoShowMatch(res[id], BoundOf(fromDate), BoundOf(toDate), branch))
              && (forall i, j :: 0 <= i < j < |rows| ==> rows[i].reservation_id != rows[j].reservation_id)
              && (forall i :: 0 <= i < |rows| - 1 ==> rows[i].check_in >= rows[i + 1].check_in)
              && (forall i :: 0 <= i < |rows| ==> rows[i].rooms == LinkCount(links, rows[i].reservation_id))
  {
    var r := GetNoShowReport(customers, branches, res, bound, links, fromDate, toDate, branch);
    if r.Ok? {
      var ids := NoShowOrder(res, bound, BoundOf(fromDate), BoundOf(toDate), branch);
      assert r.value == NoShowRows(customers, branches, res, links, ids);
      RowsFollowIds(r.value, ids, res);
    }
  }

  /** Rows that carry the ids of a list, one per position, carry each of its
      ids, no id twice, and check-in dates in the list's order. */
  lemma RowsFollowIds(rows: seq<NoShowRow>, ids: seq<int>, res: map<int, Reservation>)
    requires |rows| == |ids| && Distinct(ids)
    requires forall i :: 0 <= i < |ids| ==> ids[i] in res
    requires forall i :: 0 <= i < |ids| - 1 ==> res[ids[i]].check_in >= res[ids[i + 1]].check_in
    requires forall k :: 0 <= k < |rows| ==> rows[k].reservation_id == ids[k] && rows[k].check_in == res[ids[k]].check_in
    ensures forall id :: (exists k :: 0 <= k < |rows| && rows[k].reservation_id == id) <==> id in ids
    ensures forall i, j :: 0 <= i < j < |rows| ==> rows[i].reservation_id != rows[j].reservation_id
    ensures forall i :: 0 <= i < |rows| - 1 ==> rows[i].check_in >= rows[i + 1].check_in
  {
    forall id ensures (exists k :: 0 <= k < |rows| && rows[k].reservation_id == id) <==> id in ids {
      if id in ids {
        var k :| 0 <= k < |ids| && ids[k] == id;
        assert rows[k].reservation_id == id;
      }
    }
  }
}
