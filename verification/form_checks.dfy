/** The numeric-field check the parameter and material tables share
    (`validateNumericInput`: `parseFloat` gives a number greater than 0) and
    the field-by-field order in which a form reports the first bad field. */
module FormChecks {
  import opened Outcomes
  import opened Text
  import opened JsNumbers

  predicate ValidNumericInput(text: string)
  {
    Positive(ParseFloat(text))
  }

  /** A labelled text field of a form. */
  datatype Field = Field(name: string, text: string)

  /** The first element, in form order, that fails the check `ok`. */
  function FirstFailing<T>(xs: seq<T>, ok: T -> bool): (r: Option<nat>)
    ensures r.None? <==> forall i :: 0 <= i < |xs| ==> ok(xs[i])
    ensures r.Some? ==> r.value < |xs| && !ok(xs[r.value]) && forall j :: 0 <= j < r.value ==> ok(xs[j])
  {
    if |xs| == 0 then None
    else if !ok(xs[0]) then Some(0)
    else
      var r := FirstFailing(xs[1..], ok);
      assert forall j :: 1 <= j < |xs| ==> xs[j] == xs[1..][j - 1];
      if r.None? then None else Some(r.value + 1)
  }

  function FieldValid(f: Field): bool
  {
    ValidNumericInput(f.text)
  }

  /** The first field whose text fails `validateNumericInput`. */
  function FirstInvalid(fields: seq<Field>): (r: Option<nat>)
    ensures r.None? <==> forall i :: 0 <= i < |fields| ==> FieldValid(fields[i])
    ensures r.Some? ==> r.value < |fields| && !FieldValid(fields[r.value])
                        && forall j :: 0 <= j < r.value ==> FieldValid(fields[j])
  {
    FirstFailing(fields, FieldValid)
  }

  /** The check reads only a leading number: a whole number followed by a
      unit passes exactly when the number is positive, so "0" and "0 mm"
      fail and "12 mm" passes. */
  lemma NumericInputIsPrefixBased(digits: string, unit: string)
    requires |digits| > 0 && AllDigits(digits)
    requires |unit| > 0 ==> !IsDigit(unit[0]) && unit[0] != '.' && unit[0] != 'e' && unit[0] != 'E'
    ensures ValidNumericInput(digits + unit) <==> DigitsValue(digits) > 0
  {
    ParseFloatDigitsThen(digits, unit);
  }

  /** An empty field, or one that starts with a character that cannot begin
      a number (anything but white space, a sign, a digit, '.' or the 'I' of
      Infinity), does not pass. */
  lemma NumericInputRejects(text: string)
    requires |text| > 0 ==> !IsJsSpace(text[0]) && !IsDigit(text[0])
                            && text[0] !in {'+', '-', '.', 'I'}
    ensures !ValidNumericInput(text)
  {
    if |text| > 0 {
      assert JsTrimStart(text) == text;
      assert !StartsInfinity(text) by {
        if |text| >= 8 { assert text[..8][0] == text[0]; }
      }
    }
  }

  /** A negative number never passes. */
  lemma NegativeRejected(digits: string)
    requires |digits| > 0 && AllDigits(digits)
    ensures !ValidNumericInput("-" + digits)
  {
    var s := "-" + digits;
    assert JsTrimStart(s) == s;
    assert s[1..] == digits;
    UnsignedDigits(digits, true);
  }
}
