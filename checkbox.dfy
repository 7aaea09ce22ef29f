/**
 * The check-box translator: a two-valued encoder/decoder between the
 * selection state of a check box and a pair of property values.
 */
module CheckBox {
  import opened Base

  /** The four final fields of a `CheckBoxTranslator`. */
  datatype CheckBoxTranslator = CheckBoxTranslator(trueValue: Value, falseValue: Value, trueString: string, falseString: string)

  /** The two-argument constructor: the strings are the values' `toString()`. */
  function FromValues(trueValue: Value, falseValue: Value): (t: CheckBoxTranslator)
    ensures t.trueValue == trueValue && t.falseValue == falseValue
    ensures t.trueString == ToString(trueValue) && t.falseString == ToString(falseValue)
  {
    CheckBoxTranslator(trueValue, falseValue, ToString(trueValue), ToString(falseValue))
  }

  /** The shared instance over `Boolean.TRUE` and `Boolean.FALSE`. */
  function DefaultInstance(): (t: CheckBoxTranslator)
    ensures t == CheckBoxTranslator(Bool(true), Bool(false), "true", "false")
  {
    FromValues(Bool(true), Bool(false))
  }

  /** `readValue`: the true value exactly when the box is selected. */
  function ReadValue(t: CheckBoxTranslator, selected: bool): Value
  {
    if selected then t.trueValue else t.falseValue
  }

  /** `readString`: the true string exactly when the box is selected. */
  function ReadString(t: CheckBoxTranslator, selected: bool): string
  {
    if selected then t.trueString else t.falseString
  }

  /** `x.equals(value)` for a translator value, or a string, against the written object. */
  predicate Denotes(value: Option<Value>, v: Value, s: string)
  {
    value == Some(v) || value == Some(Str(s))
  }

  /**
   * `writeValue`: the selection of the box afterwards, or the exception.
   * The true test runs first; a rejected value leaves the selection as it was
   * (the caller keeps `selected`).
   */
  function WriteValue(t: CheckBoxTranslator, value: Option<Value>): (r: Result<bool>)
    ensures r == Success(true) <==> Denotes(value, t.trueValue, t.trueString)
    ensures r == Success(false) <==> !Denotes(value, t.trueValue, t.trueString) && Denotes(value, t.falseValue, t.falseString)
    ensures r.Failure? <==> !Denotes(value, t.trueValue, t.trueString) && !Denotes(value, t.falseValue, t.falseString)
    ensures r.Failure? ==> r.error == TranslatorFailure
  {
    if Denotes(value, t.trueValue, t.trueString) then Success(true)
    else if Denotes(value, t.falseValue, t.falseString) then Success(false)
    else Failure(TranslatorFailure)
  }

  /** The selection a box shows after `writeValue`, with a rejected write changing nothing. */
  function SelectionAfter(t: CheckBoxTranslator, value: Option<Value>, selected: bool): (r: bool)
    ensures WriteValue(t, value).Failure? ==> r == selected
    ensures WriteValue(t, value).Success? ==> r == WriteValue(t, value).value
  {
    match WriteValue(t, value)
    case Success(b) => b
    case Failure(_) => selected
  }

  /** The true and false sides cannot be confused by `writeValue`. */
  predicate Distinct(t: CheckBoxTranslator)
  {
    && t.trueValue != t.falseValue
    && t.trueString != t.falseString
    && t.falseValue != Str(t.trueString)
    && t.trueValue != Str(t.falseString)
  }

  /**
   * The translator contract: whatever `readValue` or `readString` returned may
   * be written back without an exception, whatever the translator.
   */
  lemma ReadBackAccepted(t: CheckBoxTranslator, selected: bool)
    ensures WriteValue(t, Some(ReadValue(t, selected))).Success?
    ensures WriteValue(t, Some(Str(ReadString(t, selected)))).Success?
  {
  }

  /**
   * Writing back what was read restores the selection, for both the value and
   * the string form and for both selection states, exactly when the
   * translator's true and false sides are distinct.
   */
  lemma RoundTrip(t: CheckBoxTranslator)
    ensures Distinct(t) <==>
      forall selected: bool ::
        && WriteValue(t, Some(ReadValue(t, selected))) == Success(selected)
        && WriteValue(t, Some(Str(ReadString(t, selected)))) == Success(selected)
  {
    if !Distinct(t) {
      if t.trueValue == t.falseValue || t.falseValue == Str(t.trueString) {
        assert WriteValue(t, Some(ReadValue(t, false))) == Success(true);
      } else {
        assert WriteValue(t, Some(Str(ReadString(t, false)))) == Success(true);
      }
    }
  }

  /** The shared Boolean instance round-trips. */
  lemma DefaultInstanceRoundTrips(selected: bool)
    ensures WriteValue(DefaultInstance(), Some(ReadValue(DefaultInstance(), selected))) == Success(selected)
    ensures WriteValue(DefaultInstance(), Some(Str(ReadString(DefaultInstance(), selected)))) == Success(selected)
  {
    RoundTrip(DefaultInstance());
    assert Distinct(DefaultInstance()) by {
      assert "true" != "false" by { assert "true"[0] != "false"[0]; }
    }
  }
}
