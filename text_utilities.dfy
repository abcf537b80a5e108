/**
 * The bounded-value check of the parameter fields: the text of a field is
 * taken when it is a number within [min, max], and otherwise the field is
 * reset to a default text whose value is taken instead.  Doubles are reals
 * here; the parser of Double.valueOf is a parameter, None standing for a
 * NumberFormatException.
 */
module TextUtilities {
  import opened Wrappers

  /** A text field whose text the check may replace. */
  class TextField {
    var text: string

    constructor (text: string)
      ensures this.text == text
    {
      this.text := text;
    }
  }

  /** A value within [min, max], both bounds included. */
  predicate Within(min: real, max: real, v: real)
  {
    !(v < min || v > max)
  }

  /**
   * What the check returns and the text the field is left with.  A value
   * of None is the NumberFormatException thrown when the default does not
   * parse either; the check lets it propagate.
   */
  function Tested(min: real, max: real, text: string, default: string, parse: string -> Option<real>)
    : (Option<real>, string)
  {
    var entered := parse(text);
    if entered.Some? && Within(min, max, entered.value) then (entered, text)
    else (parse(default), default)
  }

  /** An entered value within the bounds is returned and the field keeps its text. */
  lemma AcceptsWithin(min: real, max: real, text: string, default: string, parse: string -> Option<real>)
    requires parse(text).Some? && min <= parse(text).value <= max
    ensures Tested(min, max, text, default, parse) == (parse(text), text)
  {
  }

  /** Text that is not a number, or a number outside the bounds, is replaced by the default, whose value is returned. */
  lemma RejectsOtherwise(min: real, max: real, text: string, default: string, parse: string -> Option<real>)
    requires parse(text).None? || parse(text).value < min || parse(text).value > max
    ensures Tested(min, max, text, default, parse) == (parse(default), default)
  {
  }

  /** The result is the entered value within the bounds or the value of the default, which is not range-checked. */
  lemma TestedResult(min: real, max: real, text: string, default: string, parse: string -> Option<real>)
    ensures var (v, t) := Tested(min, max, text, default, parse);
      (t == text && v == parse(text) && v.Some? && min <= v.value <= max)
      || (t == default && v == parse(default))
  {
  }

  /** Checking a field a second time gives the same value and leaves the same text. */
  lemma TestedIdempotent(min: real, max: real, text: string, default: string, parse: string -> Option<real>)
    ensures var (v, t) := Tested(min, max, text, default, parse);
      Tested(min, max, t, default, parse) == (v, t)
  {
    var (v, t) := Tested(min, max, text, default, parse);
    if t != text {
      assert t == default;
    }
  }

  /** testValue: the entered value when it is a number within [min, max], else the default, written back to the field. */
  method TestValue(min: real, max: real, field: TextField, default: string, parse: string -> Option<real>)
    returns (value: Option<real>)
    modifies field
    ensures (value, field.text) == Tested(min, max, old(field.text), default, parse)
  {
    value := parse(field.text);
    if value.None? {
      field.text := default;
      value := parse(default);
      return;
    }
    if value.value < min || value.value > max {
      field.text := default;
      value := parse(default);
      return;
    }
  }
}
