/** `validate_bigdecimal` of src/validators.rs: amounts must be strictly positive. */
module Validators {
  import opened Wrappers

  /** `validator::ValidationError`, identified by its code. */
  datatype ValidationError = ValidationError(code: string)

  /** `num_bigint::Sign` of a decimal. */
  datatype Sign = Minus | NoSign | Plus

  /** `BigDecimal::sign`. Only the sign of an amount matters, so it is an exact real here. */
  function SignOf(value: real): (s: Sign)
    ensures s == Plus <==> value > 0.0
    ensures s == Minus <==> value < 0.0
    ensures s == NoSign <==> value == 0.0
  {
    if value < 0.0 then Minus else if value == 0.0 then NoSign else Plus
  }

  const NonPositiveCode: string := "Negative / zero value"

  /** Accepts exactly the strictly positive amounts; zero and negative amounts are rejected with `NonPositiveCode`. */
  function ValidateBigDecimal(value: real): (r: Result<(), ValidationError>)
    ensures r.Success? <==> value > 0.0
    ensures r.Failure? ==> r.error == ValidationError("Negative / zero value")
  {
    if SignOf(value) != Plus then Failure(ValidationError(NonPositiveCode)) else Success(())
  }
}
