/**
 * The validation step of the form that edits a consent agreement: the
 * agreement's start date must come strictly before its end date.
 */
module AgreementForm {

  /** The field that carries the date-order error. */
  const EndDateField: string := "enddate"

  /**
   * `validation($data, $files)`: starts from the errors the parent form
   * class reports (`parentErrors`) and, when the start date is not before
   * the end date, sets the `enddate` error to `message` (the localised
   * "end date must be after start date" text). Dates are the integer
   * timestamps the date selectors submit.
   */
  function Validation(parentErrors: map<string, string>, startdate: int, enddate: int, message: string)
    : (errors: map<string, string>)
    // an `enddate` error is reported whenever the dates are out of order,
    // equal dates included, and then it is the custom message
    ensures startdate >= enddate ==> EndDateField in errors && errors[EndDateField] == message
    // dates in order: the parent's errors come back unchanged
    ensures startdate < enddate ==> errors == parentErrors
    // no key appears or disappears except `enddate`, and no other key changes
    ensures errors.Keys == parentErrors.Keys + (if startdate >= enddate then {EndDateField} else {})
    ensures forall k :: k in parentErrors && k != EndDateField ==> errors[k] == parentErrors[k]
  {
    if startdate >= enddate then parentErrors[EndDateField := message] else parentErrors
  }

  /** The form reports a date error exactly when the dates are not strictly
      increasing, whatever the parent class reported about `enddate`. */
  lemma DateErrorIffOutOfOrder(parentErrors: map<string, string>, startdate: int, enddate: int, message: string)
    requires EndDateField !in parentErrors || parentErrors[EndDateField] != message
    ensures var errors := Validation(parentErrors, startdate, enddate, message);
      (EndDateField in errors && errors[EndDateField] == message) <==> startdate >= enddate
  {
  }

  /** Validating the result again with the same dates changes nothing. */
  lemma ValidationIdempotent(parentErrors: map<string, string>, startdate: int, enddate: int, message: string)
    ensures var errors := Validation(parentErrors, startdate, enddate, message);
      Validation(errors, startdate, enddate, message) == errors
  {
  }
}
