/** `ErrorUtils.getErrorMessage`: a first-match classification of whatever
    was thrown. */
module ErrorUtils {
  import opened Wrappers

  /** A primitive that can sit in an object's `message` property. */
  datatype Primitive = PNull | PUndefined | PBool(b: bool) | PNumber(n: int) | PString(s: string)

  /** The shapes a thrown value can take. An `Error` instance always carries a
      string `message`; any other non-null object may or may not have one. */
  datatype Thrown =
    | ErrorInstance(message: string)
    | StringValue(s: string)
    | ObjectValue(messageProperty: Option<Primitive>)
    | NullValue
    | UndefinedValue
    | NumberValue(n: int)
    | BooleanValue(b: bool)

  const DefaultFallback: string := "Unknown error"

  /** `typeof e === 'object' && e !== null && 'message' in e`: true of `Error`
      instances as well as of plain objects with a message. */
  predicate IsObjectWithMessage(e: Thrown) {
    e.ErrorInstance? || (e.ObjectValue? && e.messageProperty.Some?)
  }

  function DigitChar(d: int): char
    requires 0 <= d < 10
  {
    "0123456789"[d]
  }

  function NatToDecimal(n: nat): (r: string)
    ensures |r| > 0
  {
    if n < 10 then [DigitChar(n)] else NatToDecimal(n / 10) + [DigitChar(n % 10)]
  }

  /** `String(x)` for a primitive. */
  function PrimitiveToString(x: Primitive): string {
    match x
    case PNull => "null"
    case PUndefined => "undefined"
    case PBool(b) => if b then "true" else "false"
    case PNumber(n) => if n < 0 then "-" + NatToDecimal(-n) else NatToDecimal(n)
    case PString(s) => s
  }

  /** `getErrorMessage(error, fallback = 'Unknown error')`. The checks apply in
      order: an `Error` gives its message as is (the object-with-message test
      would also accept it), a string gives itself (the empty string too),
      another object with a `message` gives `String(message)`, and everything
      else gives the fallback. */
  function GetErrorMessage(error: Thrown, fallback: Option<string>): (r: string)
    ensures error.ErrorInstance? ==> IsObjectWithMessage(error) && r == error.message
    ensures error.StringValue? ==> r == error.s
    ensures error.ObjectValue? && error.messageProperty.Some? ==> r == PrimitiveToString(error.messageProperty.value)
    ensures !IsObjectWithMessage(error) && !error.StringValue? ==> r == fallback.GetOr(DefaultFallback)
  {
    match error
    case ErrorInstance(message) => message
    case StringValue(s) => s
    case ObjectValue(Some(message)) => PrimitiveToString(message)
    case _ => fallback.GetOr(DefaultFallback)
  }

  /** The fallback matters only when nothing in the value carries a message. */
  lemma FallbackOnlyWithoutMessage(error: Thrown, f1: Option<string>, f2: Option<string>)
    requires IsObjectWithMessage(error) || error.StringValue?
    ensures GetErrorMessage(error, f1) == GetErrorMessage(error, f2)
  {
  }

  /** A string message in a plain object is reported exactly as an `Error`
      with that message would be. */
  lemma PlainObjectLikeError(m: string, fallback: Option<string>)
    ensures GetErrorMessage(ObjectValue(Some(PString(m))), fallback)
            == GetErrorMessage(ErrorInstance(m), fallback)
  {
  }
}
