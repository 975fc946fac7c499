/** Shared building blocks of the group module: results, error kinds,
    exact decimals, bytes and fixed-width integers. */
module Base {

  /** An optional value. */
  datatype Option<+T> = None | Some(value: T)

  /** The error kinds the group module reports to its callers. */
  datatype Error =
    | InvalidInput      // a decimal string is empty or does not parse / is out of range
    | InvalidState      // a tally already holds a negative counter
    | Underflow         // a subtraction would drive a counter negative
    | InvalidChoice     // the vote choice is unspecified
    | InvalidPolicy     // a threshold or a timeout fails structural validation
    | ThresholdTooHigh  // the threshold exceeds the group's total weight
    | InvalidEntity     // a group, member or group account fails structural validation

  /** The outcome of an operation that can fail; usable with `:-`. */
  datatype Result<+T> = Ok(value: T) | Err(error: Error) {
    predicate IsFailure() { Err? }

    function PropagateFailure<U>(): Result<U>
      requires Err?
    {
      Err(error)
    }

    function Extract(): T
      requires Ok?
    {
      value
    }
  }

  type byte = x: int | 0 <= x < 256

  type uint64 = x: int | 0 <= x < 0x1_0000_0000_0000_0000

  /** An exact decimal as held in a string field: None stands for the empty
      ("unset") or unparsable string, Some(v) for the exact value it denotes. */
  type Dec = Option<real>

  /** Parses a decimal field. */
  function ParseDec(d: Dec): (r: Result<real>)
    ensures r.Ok? <==> d.Some?
    ensures r.Ok? ==> r.value == d.value
    ensures r.Err? ==> r.error == InvalidInput
  {
    match d
    case None => Err(InvalidInput)
    case Some(v) => Ok(v)
  }

  /** Parses a decimal field that must be strictly positive. */
  function ParsePositive(d: Dec): (r: Result<real>)
    ensures r.Ok? <==> d.Some? && d.value > 0.0
    ensures r.Ok? ==> r.value == d.value
    ensures r.Err? ==> r.error == InvalidInput
  {
    var v :- ParseDec(d);
    if v > 0.0 then Ok(v) else Err(InvalidInput)
  }

  /** The byte length of a well-formed account address. */
  const ADDRESS_LENGTH: nat := 20

  /** Whether a byte string is a well-formed account address. */
  predicate ValidAddress(a: seq<byte>) {
    |a| == ADDRESS_LENGTH
  }
}
