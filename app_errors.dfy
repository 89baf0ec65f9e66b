/** The error classes of the service layer: AppError and its four
    subclasses, each fixing a status code and a `status` word derived from
    it, plus the failures that come from outside that hierarchy. */
module AppErrors {
  import opened Js
  import opened Numerals

  datatype ErrorClass = AppErrorClass | NotFoundError | BadRequestError | UnauthorizedError | ValidationError

  datatype AppError = AppError(cls: ErrorClass, message: string, statusCode: int, status: string)

  /** What an operation throws: an AppError, or a JavaScript or database error
      outside that hierarchy, which the error middleware answers with 500. */
  datatype Error = Raised(error: AppError) | Unexpected(message: string)

  datatype Result<T> = Ok(value: T) | Fail(error: Error)

  /** The outcome of a request guard that either lets the request through or throws. */
  datatype Outcome = Pass | Reject(error: AppError)

  /** `status`: 'fail' when the decimal text of the code starts with '4', else 'error'. */
  function StatusFor(statusCode: int): string
  {
    if IntText(statusCode)[0] == '4' then "fail" else "error"
  }

  /** new AppError(message, statusCode): the code defaults to 406 and
      `Error` turns an undefined message into the empty string. */
  function NewAppError(message: Option<string>, statusCode: Option<int>): (e: AppError)
    ensures e.cls == AppErrorClass
    ensures statusCode.None? ==> e.statusCode == 406 && e.status == "fail"
    ensures statusCode.Some? ==> e.statusCode == statusCode.value
    ensures e.status == "fail" || e.status == "error"
  {
    var code := if statusCode.Some? then statusCode.value else 406;
    AppError(AppErrorClass, if message.Some? then message.value else "", code, StatusFor(code))
  }

  /** The code each subclass passes to the AppError constructor. */
  function ClassCode(cls: ErrorClass): int
  {
    match cls
    case AppErrorClass => 406
    case NotFoundError => 404
    case BadRequestError => 400
    case UnauthorizedError => 401
    case ValidationError => 406
  }

  /** The default message of each subclass; AppError itself has none. */
  function DefaultMessage(cls: ErrorClass): string
  {
    match cls
    case AppErrorClass => ""
    case NotFoundError => "Not Found"
    case BadRequestError => "Bad Request"
    case UnauthorizedError => "Unauthorized"
    case ValidationError => "Validation Error"
  }

  /** new NotFoundError(message) and its siblings: the subclass constructor
      supplies its default message and its code to the AppError constructor. */
  function New(cls: ErrorClass, message: Option<string>): (e: AppError)
    ensures e.cls == cls && e.statusCode == ClassCode(cls)
    ensures e.message == if message.Some? then message.value else DefaultMessage(cls)
  {
    var m := if message.Some? then message.value else DefaultMessage(cls);
    NewAppError(Some(m), Some(ClassCode(cls))).(cls := cls)
  }

  function NotFound(message: string): Error { Raised(New(NotFoundError, Some(message))) }
  function BadRequest(message: string): Error { Raised(New(BadRequestError, Some(message))) }
  function Validation(message: string): Error { Raised(New(ValidationError, Some(message))) }

  /** The `status` word is 'fail' exactly for the codes whose leading decimal
      digit is 4 (400..499, 4000..4999, ...), and 'error' otherwise. */
  lemma StatusFailIff(statusCode: int)
    ensures StatusFor(statusCode) == "fail" <==> exists k: nat :: 4 * Pow10(k) <= statusCode < 5 * Pow10(k)
    ensures StatusFor(statusCode) != "fail" ==> StatusFor(statusCode) == "error"
  {
    if statusCode < 0 {
      assert IntText(statusCode)[0] == '-';
      forall k: nat ensures !(4 * Pow10(k) <= statusCode) {}
    } else {
      LeadingFour(statusCode);
    }
  }

  /** Every subclass error, whatever its message, carries its class's code and
      the status 'fail'; the default message is used when none is given. */
  lemma {:induction false} SubclassCodes(cls: ErrorClass, message: Option<string>)
    requires cls != AppErrorClass
    ensures New(cls, message).cls == cls
    ensures New(cls, message).statusCode == ClassCode(cls)
    ensures New(cls, message).status == "fail"
    ensures message.None? ==> New(cls, message).message == DefaultMessage(cls)
    ensures message.Some? ==> New(cls, message).message == message.value
  {
    var code := ClassCode(cls);
    var m := if message.Some? then message.value else DefaultMessage(cls);
    var e := NewAppError(Some(m), Some(code));
    assert e.statusCode == code && e.message == m && e.status == StatusFor(code);
    assert New(cls, message) == e.(cls := cls);
    assert 400 <= code < 500;
    assert 4 * Pow10(2) <= code < 5 * Pow10(2) by {
      assert Pow10(2) == 100 by { assert Pow10(1) == 10; }
    }
    StatusFailIff(code);
  }

  /** The five classes and their codes as the source lists them. */
  lemma ClassTable()
    ensures ClassCode(NotFoundError) == 404 && DefaultMessage(NotFoundError) == "Not Found"
    ensures ClassCode(BadRequestError) == 400 && DefaultMessage(BadRequestError) == "Bad Request"
    ensures ClassCode(UnauthorizedError) == 401 && DefaultMessage(UnauthorizedError) == "Unauthorized"
    ensures ClassCode(ValidationError) == 406 && DefaultMessage(ValidationError) == "Validation Error"
    ensures NewAppError(None, None).statusCode == 406 && NewAppError(None, None).message == ""
    ensures StatusFor(500) == "error" && StatusFor(302) == "error"
  {
    StatusFailIff(500);
    StatusFailIff(302);
    assert Pow10(2) == 100 by { assert Pow10(1) == 10; }
    forall k: nat ensures !(4 * Pow10(k) <= 500 < 5 * Pow10(k)) && !(4 * Pow10(k) <= 302 < 5 * Pow10(k)) {
      PowCases(k);
    }
  }

  lemma {:induction false} PowCases(k: nat)
    ensures k == 0 ==> Pow10(k) == 1
    ensures k == 1 ==> Pow10(k) == 10
    ensures k == 2 ==> Pow10(k) == 100
    ensures k >= 3 ==> Pow10(k) >= 1000
  {
    if k >= 1 { PowCases(k - 1); }
  }
}
