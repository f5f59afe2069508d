/**
 * The range form's schema (frontend/src/lib/validator.ts): both fields are
 * coerced to numbers and must be integers, and the minimum must be below
 * the maximum.
 *
 * The coercion itself is abstracted: a field arrives either as something
 * that is not a number, or as the number it coerces to. Following the schema
 * library, a field that is not a number stops validation before the
 * cross-field check, while a number that merely fails the integer check
 * does not.
 */
module Validator {
  import opened Wrappers

  /** A form field after coercion to a number. */
  datatype Coerced = NotANumber | Number(value: real)

  /** Where an issue is reported: on one field, or on the form as a whole. */
  datatype Path = MinField | MaxField | Root

  datatype Issue = Issue(path: Path, message: string)

  /** A validated range, as the submit handler receives it. */
  datatype Range = Range(min: int, max: int)

  const ExpectedNumber: string := "Expected a number."
  const MustBeInteger: string := "Must be an integer."
  const MaxAboveMin: string := "The maximum value must be greater than the minimum value."

  predicate IsInteger(v: real) {
    v.Floor as real == v
  }

  /** The issues of one field on its own. */
  function FieldIssues(path: Path, c: Coerced): seq<Issue>
  {
    match c
    case NotANumber => [Issue(path, ExpectedNumber)]
    case Number(v) => if IsInteger(v) then [] else [Issue(path, MustBeInteger)]
  }

  /** Validates a `(min, max)` pair, collecting every issue in order. */
  function Validate(min: Coerced, max: Coerced): (r: Result<Range, seq<Issue>>)
    ensures r.Success? <==>
      min.Number? && max.Number? && IsInteger(min.value) && IsInteger(max.value) && min.value < max.value
    ensures r.Success? ==>
      r.value.min as real == min.value && r.value.max as real == max.value && r.value.min < r.value.max
    ensures r.Failure? ==> r.error != []
  {
    var fields := FieldIssues(MinField, min) + FieldIssues(MaxField, max);
    if min.NotANumber? || max.NotANumber? then Failure(fields)
    else
      var issues := fields + (if min.value < max.value then [] else [Issue(Root, MaxAboveMin)]);
      if issues == [] then Success(Range(min.value.Floor, max.value.Floor)) else Failure(issues)
  }

  /** A field that is not a number is reported as such, and the order of the two is not checked. */
  lemma NotANumberReported(min: Coerced, max: Coerced)
    requires min.NotANumber? || max.NotANumber?
    ensures Validate(min, max).Failure?
    ensures min.NotANumber? ==> Issue(MinField, ExpectedNumber) in Validate(min, max).error
    ensures max.NotANumber? ==> Issue(MaxField, ExpectedNumber) in Validate(min, max).error
    ensures Issue(Root, MaxAboveMin) !in Validate(min, max).error
  {
  }

  /** A number with a fractional part is reported as not an integer; the order is still checked. */
  lemma FractionReported(min: Coerced, max: Coerced)
    requires min.Number? && max.Number?
    requires !IsInteger(min.value) || !IsInteger(max.value)
    ensures Validate(min, max).Failure?
    ensures !IsInteger(min.value) ==> Issue(MinField, MustBeInteger) in Validate(min, max).error
    ensures !IsInteger(max.value) ==> Issue(MaxField, MustBeInteger) in Validate(min, max).error
    ensures (Issue(Root, MaxAboveMin) in Validate(min, max).error) <==> min.value >= max.value
  {
  }

  /** Two integers with the minimum not below the maximum, equal ones included, get exactly one message. */
  lemma OrderReported(min: int, max: int)
    requires min >= max
    ensures Validate(Number(min as real), Number(max as real)) == Failure([Issue(Root, MaxAboveMin)])
  {
    assert (min as real).Floor == min && (max as real).Floor == max;
    assert FieldIssues(MinField, Number(min as real)) == [];
    assert FieldIssues(MaxField, Number(max as real)) == [];
    assert [] + [] + [Issue(Root, MaxAboveMin)] == [Issue(Root, MaxAboveMin)];
  }

  /** The form starts at (0, 0), which cannot be submitted as it is. */
  lemma DefaultValuesRejected()
    ensures Validate(Number(0.0), Number(0.0)) == Failure([Issue(Root, MaxAboveMin)])
  {
    OrderReported(0, 0);
  }
}
