/** The input guards of the customer controller, checked before any service
    call. Its private copies of the e-mail and phone checks are the same
    regular expressions as the shared ones, so they are `Validations`'
    predicates here. */
module CustomerController {
  import opened Js
  import opened AppErrors
  import opened Numerals
  import opened Validations
  import opened Schema
  import CustomerService

  // ---------------------------------------------------------------- sign in / sign up

  datatype SignInBody = SignInBody(email: Option<string>, password: Option<string>)

  function SignInGuard(b: SignInBody): (o: Outcome)
    ensures o == Pass <==> TruthyStr(b.email) && TruthyStr(b.password) && IsValidEmail(b.email.value)
    ensures (!TruthyStr(b.email) || !TruthyStr(b.password)) ==> o == Reject(New(ValidationError, Some("Email and password are required")))
    ensures TruthyStr(b.email) && TruthyStr(b.password) && !IsValidEmail(b.email.value)
            ==> o == Reject(New(ValidationError, Some("Invalid email format")))
  {
    if !TruthyStr(b.email) || !TruthyStr(b.password) then Reject(New(ValidationError, Some("Email and password are required")))
    else if !IsValidEmail(b.email.value) then Reject(New(ValidationError, Some("Invalid email format")))
    else Pass
  }

  datatype SignUpBody = SignUpBody(
    full_name: Option<string>,
    email: Option<string>,
    phone: Option<string>,
    address: Option<string>,
    password: Option<string>)

  predicate AllSignUpFields(b: SignUpBody)
  {
    TruthyStr(b.full_name) && TruthyStr(b.email) && TruthyStr(b.password) && TruthyStr(b.phone) && TruthyStr(b.address)
  }

  function SignUpGuard(b: SignUpBody): (o: Outcome)
    ensures o == Pass <==> AllSignUpFields(b) && IsValidEmail(b.email.value) && IsValidPhoneNumber(b.phone.value)
    ensures !AllSignUpFields(b) ==> o == Reject(New(ValidationError, Some("Full name, email, and password are required")))
    ensures AllSignUpFields(b) && !IsValidEmail(b.email.value) ==> o == Reject(New(ValidationError, Some("Invalid email format")))
    ensures AllSignUpFields(b) && IsValidEmail(b.email.value) && !IsValidPhoneNumber(b.phone.value)
            ==> o == Reject(New(ValidationError, Some("Invalid phone number format")))
  {
    if !AllSignUpFields(b) then Reject(New(ValidationError, Some("Full name, email, and password are required")))
    else if !IsValidEmail(b.email.value) then Reject(New(ValidationError, Some("Invalid email format")))
    else if !IsValidPhoneNumber(b.phone.value) then Reject(New(ValidationError, Some("Invalid phone number format")))
    else Pass
  }

  /** A sign-up body that passes has a well-formed address and a ten-digit
      phone number starting with 0. */
  lemma SignUpPassShape(b: SignUpBody)
    requires SignUpGuard(b) == Pass
    ensures IsAddressShape(b.email.value)
    ensures |b.phone.value| == 10 && b.phone.value[0] == '0' && AllDigits(b.phone.value)
  {
    EmailShape(b.email.value);
    PhoneShape(b.phone.value);
  }

  // ---------------------------------------------------------------- create reservation

  /** `room_ids` as the body carries it: anything but an array, or an array. */
  datatype RoomIdsArg = NotArray | Array(ids: seq<int>)

  datatype ReservationBody = ReservationBody(
    branch_id: Option<int>,
    check_in_date: DateArg,
    check_out_date: DateArg,
    number_of_occupants: Option<int>,
    number_of_rooms: Option<int>,
    room_ids: RoomIdsArg)

  predicate AllReservationFields(b: ReservationBody)
  {
    TruthyNum(b.branch_id) && !b.check_in_date.Absent? && !b.check_out_date.Absent?
    && TruthyNum(b.number_of_occupants) && TruthyNum(b.number_of_rooms)
    && b.room_ids.Array? && |b.room_ids.ids| > 0
  }

  /** The guards in order; a body that passes becomes the service's request. */
  function ReservationGuard(b: ReservationBody): (r: Result<CustomerService.BookingRequest>)
    ensures !AllReservationFields(b)
            ==> r == Fail(Validation("All fields including a non-empty list of room_ids are required"))
    ensures AllReservationFields(b) && (b.check_in_date.Unparsable? || b.check_out_date.Unparsable?)
            ==> r == Fail(Validation("Invalid check-in or check-out date format"))
    ensures AllReservationFields(b) && b.check_in_date.At? && b.check_out_date.At?
            && b.check_out_date.time <= b.check_in_date.time
            ==> r == Fail(Validation("Check-out date must be after check-in date"))
    ensures r.Ok? <==> AllReservationFields(b) && b.check_in_date.At? && b.check_out_date.At?
                       && b.check_in_date.time < b.check_out_date.time
                       && b.number_of_occupants.value > 0 && b.number_of_rooms.value > 0
    ensures r.Ok? ==> r.value.check_in < r.value.check_out && r.value.number_of_rooms > 0
                      && r.value.occupants.Some? && r.value.occupants.value > 0 && |r.value.room_ids| > 0
                      && r.value == CustomerService.BookingRequest(b.branch_id.value, b.check_in_date.time, b.check_out_date.time,
                                                                   b.number_of_occupants, b.number_of_rooms.value, b.room_ids.ids)
  {
    if !AllReservationFields(b) then Fail(Validation("All fields including a non-empty list of room_ids are required"))
    else if b.check_in_date.Unparsable? || b.check_out_date.Unparsable? then
      Fail(Validation("Invalid check-in or check-out date format"))
    else if b.check_out_date.time <= b.check_in_date.time then Fail(Validation("Check-out date must be after check-in date"))
    else if b.number_of_occupants.value <= 0 || b.number_of_rooms.value <= 0 then
      Fail(Validation("Number of occupants and rooms must be greater than zero"))
    else
      Ok(CustomerService.BookingRequest(b.branch_id.value, b.check_in_date.time, b.check_out_date.time,
                                        b.number_of_occupants, b.number_of_rooms.value, b.room_ids.ids))
  }

  /** The route: guards, then the service. A rejected body changes nothing;
      a body that passes is booked exactly as the service books its request,
      and since it has check-in before check-out, the booking never creates a
      double booking. */
  method CreateReservationRoute(db: Db, customerId: int, b: ReservationBody, now: int) returns (result: Result<int>)
    requires db.Valid()
    modifies db
    ensures db.Valid()
    ensures ReservationGuard(b).Fail? ==> result == Fail(ReservationGuard(b).error) && unchanged(db)
    ensures ReservationGuard(b).Ok? ==>
              var q := ReservationGuard(b).value;
              var o := CustomerService.BookingCheck(old(db.branches), old(db.rooms), old(db.nextId), old(db.reservations), old(db.bookedRooms), q);
              (o.Reject? ==> result == Fail(Raised(o.error)) && unchanged(db))
              && (o == Pass ==>
                    result.Ok? && result.value == old(db.nextId) && result.value !in old(db.reservations)
                    && db.reservations == old(db.reservations)[result.value := Reservation(
                         customerId, q.branch_id, q.check_in, q.check_out, q.occupants, q.number_of_rooms, PaymentPending, NoShow, now)]
                    && LinkedAfter(old(db.bookedRooms), db.bookedRooms, result.value, q.room_ids)
                    && db.rooms == SetStatus(old(db.rooms), (set x | x in q.room_ids), Occupied))
    ensures NoDoubleBooking(old(db.reservations), old(db.bookedRooms)) ==> NoDoubleBooking(db.reservations, db.bookedRooms)
    ensures db.customers == old(db.customers) && db.billings == old(db.billings) && db.branches == old(db.branches)
    ensures db.roomTypes == old(db.roomTypes) && db.paymentDetails == old(db.paymentDetails)
    ensures db.blockedBookings == old(db.blockedBookings) && db.blockedRooms == old(db.blockedRooms)
  {
    var g := ReservationGuard(b);
    if g.Fail? {
      return Fail(g.error);
    }
    result := CustomerService.CreateReservation(db, customerId, g.value, now);
  }

  // ---------------------------------------------------------------- complete reservation

  predicate IsHexDigit(c: char)
  {
    IsDigit(c) || 'a' <= c <= 'f' || 'A' <= c <= 'F'
  }

  function HexDigitValue(c: char): (d: nat)
    requires IsHexDigit(c)
    ensures d < 16
  {
    if IsDigit(c) then DigitValue(c)
    else if 'a' <= c <= 'f' then c as int - 'a' as int + 10
    else c as int - 'A' as int + 10
  }

  /** The longest prefix of `s` whose characters satisfy the digit class. */
  function DecimalPrefix(s: string): (p: string)
    ensures AllDigits(p) && p <= s
    ensures |p| < |s| ==> !IsDigit(s[|p|])
  {
    if s == [] || !IsDigit(s[0]) then [] else [s[0]] + DecimalPrefix(s[1..])
  }

  function HexPrefix(s: string): (p: string)
    ensures (forall k :: 0 <= k < |p| ==> IsHexDigit(p[k])) && p <= s
  {
    if s == [] || !IsHexDigit(s[0]) then [] else [s[0]] + HexPrefix(s[1..])
  }

  function HexValue(s: string): nat
    requires forall k :: 0 <= k < |s| ==> IsHexDigit(s[k])
  {
    if s == [] then 0 else HexValue(s[..|s| - 1]) * 16 + HexDigitValue(s[|s| - 1])
  }

  /** `s` without its leading white space. */
  function TrimStart(s: string): (t: string)
    ensures |t| <= |s| && t == s[|s| - |t|..]
    ensures t != [] ==> !IsWhitespace(t[0])
  {
    if s != [] && IsWhitespace(s[0]) then TrimStart(s[1..]) else s
  }

  /** `parseInt(s)` without a radix: leading white space and one sign are
      skipped, `0x` or `0X` selects hexadecimal, and the longest run of
      digits that follows is read; no digit at all is NaN (None). */
  function ParseInt(s: string): (r: Option<int>)
  {
    ParseSigned(TrimStart(s))
  }

  /** An optional sign, then the magnitude. */
  function ParseSigned(t: string): Option<int>
  {
    var negative := t != [] && t[0] == '-';
    var u := if t != [] && (t[0] == '-' || t[0] == '+') then t[1..] else t;
    var m := ParseMagnitude(u);
    if m.None? then None else Some(if negative then -(m.value as int) else m.value as int)
  }

  /** A hexadecimal number after `0x`/`0X`, otherwise a decimal one. */
  function ParseMagnitude(u: string): Option<nat>
  {
    if |u| >= 2 && u[0] == '0' && (u[1] == 'x' || u[1] == 'X') then
      var h := HexPrefix(u[2..]);
      if h == [] then None else Some(HexValue(h))
    else
      var d := DecimalPrefix(u);
      if d == [] then None else Some(DigitsValue(d))
  }

  lemma {:induction false} DecimalPrefixOfDigits(s: string, rest: string)
    requires AllDigits(s)
    requires rest == [] || !IsDigit(rest[0])
    ensures DecimalPrefix(s + rest) == s
  {
    if s != [] {
      assert (s + rest)[1..] == s[1..] + rest;
      DecimalPrefixOfDigits(s[1..], rest);
    } else {
      assert s + rest == rest;
    }
  }

  /** A decimal text followed by a non-digit (and no `x` after a lone 0)
      reads back as its value. */
  lemma MagnitudeOfText(m: nat, rest: string)
    requires rest == [] || (!IsDigit(rest[0]) && (m == 0 ==> rest[0] != 'x' && rest[0] != 'X'))
    ensures ParseMagnitude(DecimalText(m) + rest) == Some(m)
  {
    var d := DecimalText(m);
    DecimalTextValue(m);
    DecimalPrefixOfDigits(d, rest);
    if d[0] == '0' {
      assert m == 0 && d == "0";
      if rest != [] {
        assert (d + rest)[1] == rest[0];
      }
    }
  }

  /** `parseInt` reads back the decimal text of any integer, and stops at
      the first character that is not a digit, except that "0x" or "0X"
      switches to hexadecimal. */
  lemma ParseIntText(n: int, rest: string)
    requires rest == [] || (!IsDigit(rest[0]) && (n == 0 ==> rest[0] != 'x' && rest[0] != 'X'))
    ensures ParseInt(IntText(n) + rest) == Some(n)
  {
    if n < 0 {
      ParseNegativeText(-n, rest);
      assert IntText(n) == "-" + DecimalText(-n);
    } else {
      ParseNaturalText(n, rest);
    }
  }

  lemma ParseNaturalText(m: nat, rest: string)
    requires rest == [] || (!IsDigit(rest[0]) && (m == 0 ==> rest[0] != 'x' && rest[0] != 'X'))
    ensures ParseInt(DecimalText(m) + rest) == Some(m)
  {
    var d := DecimalText(m) + rest;
    MagnitudeOfText(m, rest);
    assert IsDigit(d[0]);
    NoLeadingSpace(d);
    NoSign(d);
  }

  lemma ParseNegativeText(m: nat, rest: string)
    requires m > 0
    requires rest == [] || !IsDigit(rest[0])
    ensures ParseInt("-" + DecimalText(m) + rest) == Some(-(m as int))
  {
    var d := DecimalText(m) + rest;
    var t := "-" + d;
    assert "-" + DecimalText(m) + rest == t;
    MagnitudeOfText(m, rest);
    NoLeadingSpace(t);
    MinusSign(d);
  }

  lemma NoLeadingSpace(t: string)
    requires t != [] && (t[0] == '-' || IsDigit(t[0]))
    ensures TrimStart(t) == t
  {
  }

  lemma MinusSign(u: string)
    ensures ParseSigned("-" + u) == if ParseMagnitude(u).None? then None else Some(-(ParseMagnitude(u).value as int))
  {
    assert ("-" + u)[1..] == u;
  }

  lemma NoSign(u: string)
    requires u != [] && IsDigit(u[0])
    ensures ParseSigned(u) == if ParseMagnitude(u).None? then None else Some(ParseMagnitude(u).value as int)
  {
  }

  /** A text with no digit after the white space and sign is NaN. */
  lemma ParseIntNaN(s: string)
    requires forall k :: 0 <= k < |s| ==> !IsDigit(s[k])
    ensures ParseInt(s) == None
  {
    var t := TrimStart(s);
    var u := if t != [] && (t[0] == '-' || t[0] == '+') then t[1..] else t;
    assert forall k :: 0 <= k < |u| ==> u[k] in s;
    if u != [] {
      assert u[0] in s;
    }
  }

  /** Trailing text after the digits is ignored. */
  lemma ParseIntTrailing()
    ensures ParseInt("12abc") == Some(12)
  {
    var s := "12abc";
    assert !IsWhitespace(s[0]);
    assert TrimStart(s) == s;
    assert DecimalPrefix(s[2..]) == [];
    assert DecimalPrefix(s) == "12";
    assert DigitsValue("12") == DigitsValue("1") * 10 + 2;
  }

  /** No digit at all is NaN. */
  lemma ParseIntLetters()
    ensures ParseInt("abc") == None
  {
    ParseIntNaN("abc");
  }

  /** What the completion route answers. */
  datatype Response = BadRequestResponse(message: string) | Forwarded(result: Result<Reservation>)

  /** The route: a path id `parseInt` cannot read is answered with 400
      before the store is touched; otherwise the service decides. */
  method CompleteReservationRoute(db: Db, idText: string) returns (resp: Response)
    requires db.Valid()
    modifies db
    ensures db.Valid()
    ensures ParseInt(idText).None? ==> resp == BadRequestResponse("Invalid reservation ID") && unchanged(db)
    ensures ParseInt(idText).Some? ==> resp.Forwarded?
    ensures NoDoubleBooking(old(db.reservations), old(db.bookedRooms)) ==> NoDoubleBooking(db.reservations, db.bookedRooms)
  {
    var id := ParseInt(idText);
    if id.None? {
      return BadRequestResponse("Invalid reservation ID");
    }
    var r := CustomerService.CompleteReservation(db, id.value);
    resp := Forwarded(r);
  }
}
