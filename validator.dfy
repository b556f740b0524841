/** Stateless guard functions shared by entities and request records. */
module Validator {
  import opened Errors

  /** An id is valid when it is present and at least 1. */
  predicate IsValidId(id: Option<int>) {
    id.Some? && id.value >= 1
  }

  /** The message of a missing or non-positive id. */
  function MustBePositive(fieldName: string): string {
    fieldName + " must be positive"
  }

  /** The message of a range whose start is not before its end. */
  function MustBeBefore(fieldNameStart: string, fieldNameEnd: string): string {
    fieldNameStart + " must be before " + fieldNameEnd
  }

  /** The message of a missing or blank text field. */
  function MustNotBeBlank(fieldName: string): string {
    fieldName + " must not be null or blank"
  }

  function ValidateValidId(id: Option<int>, fieldName: string): (r: Outcome)
    ensures r.Fail? <==> id.None? || id.value < 1
    ensures r.Pass? <==> IsValidId(id)
    ensures r.Fail? ==> r.error == IllegalArgument(MustBePositive(fieldName))
  {
    if id.None? || id.value < 1 then
      Fail(IllegalArgument(MustBePositive(fieldName)))
    else
      Pass
  }

  /** Null dates are reported before the order of the dates is looked at. */
  function ValidateValidRange(startDate: Option<int>, endDate: Option<int>,
                              fieldNameStart: string, fieldNameEnd: string): (r: Outcome)
    ensures (startDate.None? || endDate.None?) ==> r == Fail(IllegalArgument("Dates cannot be null"))
    ensures startDate.Some? && endDate.Some? ==>
              (r.Fail? <==> startDate.value >= endDate.value)
    ensures startDate.Some? && endDate.Some? && r.Fail? ==>
              r.error == TimeRangeInvalidException(MustBeBefore(fieldNameStart, fieldNameEnd))
  {
    if startDate.None? || endDate.None? then
      Fail(IllegalArgument("Dates cannot be null"))
    else if !(startDate.value < endDate.value) then
      Fail(TimeRangeInvalidException(MustBeBefore(fieldNameStart, fieldNameEnd)))
    else
      Pass
  }

  /**
    * Java's Character.isWhitespace: the Unicode space, line and paragraph separators
    * except the three non-breaking spaces, plus the ASCII controls tab, line feed,
    * vertical tab, form feed, carriage return and the four information separators.
    */
  predicate IsWhitespace(c: char) {
    c == ' ' || c == '\U{1680}' || ('\U{2000}' <= c <= '\U{2006}') || ('\U{2008}' <= c <= '\U{200A}')
    || c == '\U{205F}' || c == '\U{3000}' || c == '\U{2028}' || c == '\U{2029}'
    || ('\U{9}' <= c <= '\U{D}') || ('\U{1C}' <= c <= '\U{1F}')
  }

  /** String.isBlank: empty or only whitespace code points. */
  predicate IsBlank(s: string) {
    forall i :: 0 <= i < |s| ==> IsWhitespace(s[i])
  }

  function ValidateNotBlank(value: Option<string>, fieldName: string): (r: Outcome)
    ensures r.Fail? <==> value.None? || IsBlank(value.value)
    ensures r.Fail? ==> r.error == IllegalArgument(MustNotBeBlank(fieldName))
  {
    if value.None? || IsBlank(value.value) then
      Fail(IllegalArgument(MustNotBeBlank(fieldName)))
    else
      Pass
  }

  /**
    * A value holding a non-whitespace character (the no-break space U+00A0 is one) passes;
    * an empty or all-whitespace value (the em space U+2003 is whitespace) does not.
    */
  lemma NotBlankExamples(fieldName: string)
    ensures ValidateNotBlank(Some("Dr Who"), fieldName) == Pass
    ensures ValidateNotBlank(Some(" \t\U{A0}x"), fieldName) == Pass
    ensures ValidateNotBlank(Some(""), fieldName).Fail?
    ensures ValidateNotBlank(Some(" \t\n\U{2003}"), fieldName).Fail?
    ensures ValidateNotBlank(None, fieldName).Fail?
  {
    assert !IsWhitespace("Dr Who"[0]);
    assert !IsWhitespace(" \t\U{A0}x"[2]);
  }
}
