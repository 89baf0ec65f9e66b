/** JavaScript value conventions the services rely on: an optional value
    (undefined or null is None) and the truthiness tests written as `!x`. */
module Js {

  datatype Option<T> = None | Some(value: T)

  /** A request field holding a number is truthy when present and not 0. */
  predicate TruthyNum(x: Option<int>)
  {
    x.Some? && x.value != 0
  }

  /** A request field holding a string is truthy when present and not empty. */
  predicate TruthyStr(x: Option<string>)
  {
    x.Some? && x.value != ""
  }

  /** A date argument as `new Date(text)` sees it: not given (or empty),
      given but unparsable (`isNaN(date)`), or a timestamp in milliseconds. */
  datatype DateArg = Absent | Unparsable | At(time: int)

  /** The database client's message when a query carries an invalid `Date`. */
  const INVALID_DATE := "Invalid value for argument: Provided Date object is invalid"
}
