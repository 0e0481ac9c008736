/** Failure values of the rent-accounting engine and the optional/result wrappers
    used to model Java's nullable references and thrown exceptions. */
module Errors {

  /** A Java reference that may be null. */
  datatype Option<+T> = None | Some(value: T) {
    function GetOr(default: T): T {
      match this
      case Some(v) => v
      case None => default
    }
  }

  /** The exceptions the services throw. `NotFound` is ResourceNotFoundException,
      `Validation` is ValidationException, `BusinessRule` is BusinessLogicException and
      `Runtime` is a plain RuntimeException (including an implicit NullPointerException
      and a database constraint violation). The optional request path these exceptions
      carry is always null on the paths modelled here and is not represented. */
  datatype Error =
    | NotFound(message: string)
    | Validation(message: string)
    | BusinessRule(message: string)
    | Runtime(message: string)

  /** A call that either returns a value or throws. */
  datatype Result<+T> = Ok(value: T) | Err(error: Error)

  /** A void call that either completes or throws. */
  datatype Outcome = Done | Fail(error: Error)

  /** The character of a decimal digit. */
  function DigitChar(d: nat): (c: char)
    requires d < 10
    ensures '0' <= c <= '9'
    ensures DigitValue(c) == d
  {
    ((('0' as int) + d) as char)
  }

  /** The value of a decimal digit character. */
  function DigitValue(c: char): (d: nat)
    requires '0' <= c <= '9'
    ensures d < 10
  {
    (c as int) - ('0' as int)
  }

  predicate AllDigits(s: string) {
    forall i :: 0 <= i < |s| ==> '0' <= s[i] <= '9'
  }

  /** The number a string of decimal digits denotes, most significant digit first. */
  function DecimalValue(s: string): (n: nat)
    requires AllDigits(s)
  {
    if s == [] then 0 else 10 * DecimalValue(s[..|s| - 1]) + DigitValue(s[|s| - 1])
  }

  /** Decimal rendering of a natural number, most significant digit first. */
  function NatToString(n: nat): (s: string)
    ensures |s| >= 1 && AllDigits(s)
    ensures n >= 10 ==> s[0] != '0'
  {
    if n < 10 then [DigitChar(n)] else NatToString(n / 10) + [DigitChar(n % 10)]
  }

  /** Reading the rendering back gives the number: the rendering is its decimal numeral. */
  lemma {:induction false} NatToStringValue(n: nat)
    ensures DecimalValue(NatToString(n)) == n
  {
    var s := NatToString(n);
    if n >= 10 {
      NatToStringValue(n / 10);
      assert s[..|s| - 1] == NatToString(n / 10);
    }
  }

  /** Long.toString: a leading minus sign for negative values. */
  function IntToString(n: int): (s: string)
    ensures |s| >= 1
    ensures (s[0] == '-') <==> n < 0
  {
    if n < 0 then "-" + NatToString(-n) else NatToString(n)
  }

  /** Long.toString is the decimal numeral of the value, after a '-' when it is negative. */
  lemma IntToStringValue(n: int)
    ensures n >= 0 ==> AllDigits(IntToString(n)) && DecimalValue(IntToString(n)) == n
    ensures n < 0 ==> AllDigits(IntToString(n)[1..]) && DecimalValue(IntToString(n)[1..]) == -n
  {
    if n >= 0 {
      NatToStringValue(n);
    } else {
      assert IntToString(n)[1..] == NatToString(-n);
      NatToStringValue(-n);
    }
  }
}
