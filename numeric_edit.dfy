/** The numeric line edit (numericedit.h) instantiated with `int`: a text field whose value is the
    parse of its text, kept between a lower and an upper bound when stepped, with a callback that
    is told every value the edit changes to. The display multiplier is fixed at 1. */
module NumericEdit {
  import opened Wrappers
  import opened Text

  /** The value that stands for "no value": it is also the initial text. */
  const InvalidValue: int := 0

  // ---------------------------------------------------------------------------------------------
  // Parsing (std::istringstream >> int and NumericEdit::parse)

  /** The text after its leading C whitespace. */
  function SkipSpaces(s: string): (r: string)
    ensures |r| <= |s| && r == s[|s| - |r|..]
    ensures r != [] ==> !IsCSpace(r[0])
  {
    if s != [] && IsCSpace(s[0]) then SkipSpaces(s[1..]) else s
  }

  /** Extraction of an `int` from a stream over `s`: leading whitespace is skipped, then an
      optional sign and the longest run of digits is read; no digit, or a value outside the
      32-bit range, sets the fail bit. What follows the digits is not looked at. */
  function StreamInt(s: string): (r: Option<int>)
    ensures r.Some? ==> InInt32(r.value)
  {
    SignedRun(SkipSpaces(s))
  }

  /** The integer read from `t`, which starts after the whitespace: an optional sign, then digits. */
  function SignedRun(t: string): (r: Option<int>)
    ensures r.Some? ==> InInt32(r.value)
  {
    var negative := t != [] && t[0] == '-';
    DigitsRun(negative, if t != [] && (t[0] == '-' || t[0] == '+') then t[1..] else t)
  }

  /** The integer read from the digits at the start of `body`, negated after a minus sign;
      none when there is no digit or the value does not fit. */
  function DigitsRun(negative: bool, body: string): (r: Option<int>)
    ensures r.Some? ==> InInt32(r.value)
  {
    var k := DigitRun(body);
    if k == 0 then None
    else
      var v := Signed(negative, DigitsValue(body[..k]));
      if InInt32(v) then Some(v) else None
  }

  /** NumericEdit::parse: `inf` and `-inf` are the extreme values, a readable integer is itself,
      and anything else falls back to 0 when 0 lies between the bounds, else to the lower bound. */
  function Parse(text: string, min: int, max: int): (r: int)
    requires InInt32(min)
    ensures InInt32(r)
    ensures text == "inf" ==> r == IntMax
    ensures text == "-inf" ==> r == IntMin
    ensures text != "inf" && text != "-inf" && StreamInt(text).Some? ==> r == StreamInt(text).value
    ensures text != "inf" && text != "-inf" && StreamInt(text).None? ==>
      r == (if min <= 0 <= max then 0 else min)
  {
    if text == "inf" then IntMax
    else if text == "-inf" then IntMin
    else match StreamInt(text)
      case Some(v) => v
      case None => if min <= 0 <= max then 0 else min
  }

  /** The text the edit shows for a value reads back as that value, whatever the bounds. */
  lemma ParseOfIntToString(v: int, min: int, max: int)
    requires InInt32(v) && InInt32(min)
    ensures Parse(IntToString(v), min, max) == v
  {
    var n: nat := if v < 0 then -v else v;
    IntToStringShape(v);
    ParseSigned(NatToString(n), v < 0, min, max);
  }

  /** Digits with an optional minus sign parse as their value, negated after the sign. */
  lemma ParseSigned(digits: string, negative: bool, min: int, max: int)
    requires |digits| >= 1 && AllDigits(digits) && InInt32(min)
    requires InInt32(Signed(negative, DigitsValue(digits)))
    ensures Parse(if negative then "-" + digits else digits, min, max) == Signed(negative, DigitsValue(digits))
  {
    var s := if negative then "-" + digits else digits;
    assert IsDigit(digits[0]);
    SignedTextStart(digits, negative);
    assert DigitRun(digits) == |digits|;
    assert digits[..|digits|] == digits;
    StreamSigned(s, digits, negative);
  }

  /** Digits with an optional minus sign are neither `inf` nor `-inf`, start without whitespace,
      and hold the digits after the sign. */
  lemma SignedTextStart(digits: string, negative: bool)
    requires |digits| >= 1 && IsDigit(digits[0])
    ensures var s := if negative then "-" + digits else digits;
      && s != "inf" && s != "-inf" && SkipSpaces(s) == s && |s| >= 1 && (s[0] == '-' <==> negative)
      && (if s[0] == '-' || s[0] == '+' then s[1..] else s) == digits
  {
    var s := if negative then "-" + digits else digits;
    SignOrDigitNotSpace(s[0]);
    assert SkipSpaces(s) == s;
    if negative {
      assert s[1] == digits[0] && s[1..] == digits;
      assert s[1] != "-inf"[1];
    } else {
      assert s[0] != "inf"[0] && s[0] != "-inf"[0];
    }
  }

  lemma StreamSigned(s: string, digits: string, negative: bool)
    requires SkipSpaces(s) == s && |s| >= 1 && (s[0] == '-' <==> negative)
    requires (if s[0] == '-' || s[0] == '+' then s[1..] else s) == digits
    requires |digits| >= 1 && AllDigits(digits) && DigitRun(digits) == |digits| && digits[..|digits|] == digits
    requires InInt32(Signed(negative, DigitsValue(digits)))
    ensures StreamInt(s) == Some(Signed(negative, DigitsValue(digits)))
  {
    assert SignedRun(s) == DigitsRun(negative, digits);
    assert DigitsRun(negative, digits) == Some(Signed(negative, DigitsValue(digits))) by {
      assert DigitRun(digits) == |digits| && digits[..|digits|] == digits;
    }
  }

  /** Text that does not start with an integer falls back to 0 or the lower bound. */
  lemma ParseFallback(text: string, min: int, max: int)
    requires InInt32(min) && min <= max
    requires text != "inf" && text != "-inf" && StreamInt(text).None?
    ensures min <= Parse(text, min, max) <= max
  {
  }

  /** `v` brought into `[min, max]`. */
  function Clamp(v: int, min: int, max: int): (r: int)
    requires min <= max
    ensures min <= r <= max
    ensures min <= v <= max ==> r == v
    ensures v > max ==> r == max
    ensures v < min ==> r == min
  {
    if v > max then max else if v < min then min else v
  }

  /** Which edit of a min/max pair was edited. */
  datatype MasterBound = Upper | Lower

  /** The bounds a min/max pair reports after one of its edits was changed: when they cross, the
      edited bound wins and the other is set to it. */
  function ReconcileBounds(min: int, max: int, master: MasterBound): (r: (int, int))
    ensures r.0 <= r.1
    ensures min <= max ==> r == (min, max)
    ensures max < min && master == Upper ==> r == (max, max)
    ensures max < min && master == Lower ==> r == (min, min)
  {
    if max < min then
      match master
      case Upper => (max, max)
      case Lower => (min, min)
    else (min, max)
  }

  class NumericEdit {
    var text: string
    var min: int
    var max: int
    var step: int
    /** The values handed to the value-changed callback, oldest first. */
    var notified: seq<int>

    /** The bounds are ordered 32-bit values and the step is positive. */
    ghost predicate Valid()
      reads this
    {
      InInt32(min) && InInt32(max) && min <= max && step > 0
    }

    /** NumericEdit::value: the parse of the current text. */
    function Value(): int
      reads this
      requires InInt32(min)
    {
      Parse(text, min, max)
    }

    /** A new edit shows the invalid value and has the widest bounds and step 1. */
    constructor ()
      ensures text == IntToString(InvalidValue) && min == IntMin && max == IntMax && step == 1
      ensures notified == [] && Valid() && Value() == InvalidValue
    {
      text := IntToString(InvalidValue);
      min := IntMin;
      max := IntMax;
      step := 1;
      notified := [];
      ParseOfIntToString(InvalidValue, IntMin, IntMax);
    }

    /** set_range: crossed bounds both become `lo`. */
    method SetRange(lo: int, hi: int)
      requires InInt32(lo) && InInt32(hi)
      modifies this`min, this`max
      ensures min == lo && max == (if lo > hi then lo else hi)
      ensures min <= max
      ensures old(step) > 0 ==> Valid()
    {
      if lo > hi {
        min := lo;
        max := lo;
      } else {
        min := lo;
        max := hi;
      }
    }

    /** set_lower: refused when it would exceed the upper bound. */
    method SetLower(lo: int)
      requires InInt32(lo)
      modifies this`min
      ensures lo > max ==> min == old(min)
      ensures lo <= max ==> min == lo
      ensures old(Valid()) ==> Valid()
    {
      if lo > max {
      } else {
        min := lo;
      }
    }

    /** set_upper: refused when it would fall below the lower bound. */
    method SetUpper(hi: int)
      requires InInt32(hi)
      modifies this`max
      ensures min > hi ==> max == old(max)
      ensures min <= hi ==> max == hi
      ensures old(Valid()) ==> Valid()
    {
      if min > hi {
      } else {
        max := hi;
      }
    }

    /** set_step: the step must be positive. */
    method SetStep(s: int)
      requires s > 0
      modifies this`step
      ensures step == s
      ensures old(Valid()) ==> Valid()
    {
      step := s;
    }

    /** set_value: a different value is shown and reported to the callback; the same value
        changes nothing, except that the invalid value rewrites the text. Afterwards the edit's
        value is `v`. */
    method SetValue(v: int)
      requires InInt32(v) && InInt32(min)
      modifies this`text, this`notified
      ensures v != old(Value()) ==> text == IntToString(v) && notified == old(notified) + [v]
      ensures v == old(Value()) ==> notified == old(notified)
      ensures v == old(Value()) && v == InvalidValue ==> text == IntToString(InvalidValue)
      ensures v == old(Value()) && v != InvalidValue ==> text == old(text)
      ensures Value() == v
    {
      if v != Value() {
        text := IntToString(v);
        notified := notified + [v];
        ParseOfIntToString(v, min, max);
      } else if v == InvalidValue {
        text := IntToString(InvalidValue);
        ParseOfIntToString(InvalidValue, min, max);
      }
    }

    /** The `textEdited` handler: the edited text's value is reported to the callback. */
    method EditText(t: string)
      requires InInt32(min)
      modifies this`text, this`notified
      ensures text == t && notified == old(notified) + [Value()]
    {
      text := t;
      notified := notified + [Value()];
    }

    /** increment: the value moves by `factor` steps and is clamped into the bounds; through
        set_value a changed value is shown and reported once, an unchanged one reports nothing. */
    method Increment(factor: int)
      requires Valid()
      modifies this`text, this`notified
      ensures Valid()
      ensures Value() == Clamp(old(Value()) + factor * step, min, max)
      ensures min <= Value() <= max
      ensures Value() != old(Value()) ==> text == IntToString(Value()) && notified == old(notified) + [Value()]
      ensures Value() == old(Value()) ==> notified == old(notified)
    {
      var newValue := Value() + factor * step;
      if newValue > max {
        newValue := max;
      } else if newValue < min {
        newValue := min;
      }
      SetValue(newValue);
    }
  }

  /** The editingFinished handler of a min/max pair: when the two values cross, the edit that was
      not edited takes the edited one's value; the pair reported to the caller is then ordered. */
  method OnBoundChanged(minEdit: NumericEdit, maxEdit: NumericEdit, master: MasterBound) returns (bounds: (int, int))
    requires minEdit != maxEdit && minEdit.Valid() && maxEdit.Valid()
    modifies minEdit`text, minEdit`notified, maxEdit`text, maxEdit`notified
    ensures bounds == ReconcileBounds(old(minEdit.Value()), old(maxEdit.Value()), master)
    ensures bounds.0 <= bounds.1
    ensures minEdit.Value() == bounds.0 && maxEdit.Value() == bounds.1
  {
    var hi := maxEdit.Value();
    var lo := minEdit.Value();
    if hi < lo {
      match master
      case Upper =>
        lo := hi;
        minEdit.SetValue(lo);
      case Lower =>
        hi := lo;
        maxEdit.SetValue(hi);
    }
    bounds := (lo, hi);
  }
}
