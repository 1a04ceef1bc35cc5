/** The command-line renderer (maincli.cpp): option values are read as integers, as a `WxH` size
    or as required text, the output file name template has its run of `#` replaced by the frame
    number, and the start frame plus `sequence-length` further frames are rendered. Every
    `exit(EXIT_FAILURE)` becomes an `Err` carrying the logged message; option values are given as
    text, and whether a file exists is given as the set of existing file names. */
module MainCli {
  import opened Wrappers
  import opened Text

  const FramenumberPlaceholder: char := '#'
  const ResolutionSeparator: char := 'x'

  const PlaceholderMessage: string := "Framenumber placeholder must be contiguous."

  // ---------------------------------------------------------------------------------------------
  // Integers (QString::toInt)

  /** The digits after an optional sign. */
  function Unsigned(t: string): string
  {
    if t != [] && (t[0] == '-' || t[0] == '+') then t[1..] else t
  }

  /** QString::toInt in base 10: surrounding whitespace is ignored, then an optional sign and at
      least one digit; a value outside the 32-bit range is rejected. */
  function ToInt(s: string): (r: Option<int>)
    ensures r.Some? ==> InInt32(r.value)
  {
    SignedValue(Trim(s))
  }

  /** Trimmed text as an integer: an optional sign and at least one digit, in the 32-bit range. */
  function SignedValue(t: string): (r: Option<int>)
    ensures r.Some? ==> InInt32(r.value)
  {
    var digits := Unsigned(t);
    if digits == [] || !AllDigits(digits) then None
    else
      var n: int := DigitsValue(digits);
      var v := if t[0] == '-' then -n else n;
      if InInt32(v) then Some(v) else None
  }

  /** Every 32-bit integer's decimal text reads back as that integer. */
  lemma ToIntOfIntToString(i: int)
    requires InInt32(i)
    ensures ToInt(IntToString(i)) == Some(i)
  {
    var n: nat := if i < 0 then -i else i;
    IntToStringShape(i);
    ToIntSigned(NatToString(n), i < 0);
  }

  /** Digits with an optional minus sign read as their value, negated after the sign. */
  lemma ToIntSigned(digits: string, negative: bool)
    requires |digits| >= 1 && AllDigits(digits)
    requires InInt32(Signed(negative, DigitsValue(digits)))
    ensures ToInt(if negative then "-" + digits else digits) == Some(Signed(negative, DigitsValue(digits)))
  {
    var s := if negative then "-" + digits else digits;
    assert IsDigit(digits[0]) && IsDigit(digits[|digits| - 1]);
    SignedTextEnds(digits, negative);
    SignOrDigitNotSpace(s[0]);
    SignOrDigitNotSpace(s[|s| - 1]);
    assert Trim(s) == s;
    SignedTextValue(s, digits, negative);
  }

  /** Digits with an optional minus sign start with the sign or a digit and end with a digit, so
      neither end is whitespace, and the digits follow the sign. */
  lemma SignedTextEnds(digits: string, negative: bool)
    requires |digits| >= 1 && IsDigit(digits[0]) && IsDigit(digits[|digits| - 1])
    ensures var s := if negative then "-" + digits else digits;
      && |s| >= 1 && (s[0] == '-' <==> negative) && (s[0] == '-' || IsDigit(s[0]))
      && IsDigit(s[|s| - 1]) && Unsigned(s) == digits
  {
    if negative {
      var s := "-" + digits;
      assert s[1..] == digits;
    }
  }

  lemma SignedTextValue(t: string, digits: string, negative: bool)
    requires |digits| >= 1 && AllDigits(digits) && Unsigned(t) == digits
    requires |t| >= 1 && (t[0] == '-' <==> negative)
    requires InInt32(Signed(negative, DigitsValue(digits)))
    ensures SignedValue(t) == Some(Signed(negative, DigitsValue(digits)))
  {
  }

  /** Text that is not a sign followed by digits (after trimming) is rejected. */
  lemma ToIntRejects(s: string)
    requires !AllDigits(Unsigned(Trim(s))) || Unsigned(Trim(s)) == []
    ensures ToInt(s) == None
  {
  }

  /** get_int: the option's value as an integer, or the error the program exits with. */
  function GetInt(name: string, value: string): (r: Result<int>)
    ensures r.Ok? <==> ToInt(value).Some?
    ensures r.Ok? ==> r.value == ToInt(value).value
    ensures r.Err? ==> r.message == "Expected integer argument for '" + name + "', but got '" + value + "'."
  {
    match ToInt(value)
    case Some(v) => Ok(v)
    case None => Err("Expected integer argument for '" + name + "', but got '" + value + "'.")
  }

  // ---------------------------------------------------------------------------------------------
  // Sizes (get_size)

  /** The message get_size logs: the translated text has three markers but only one `arg` call,
      so the value lands in the separator's place and the last two markers stay literal. */
  function SizeMessageAsWritten(name: string, value: string): string
  {
    "Expected two integers, separated by '" + value + "' for '%2', but got '%3'."
  }

  /** The message with all three markers filled: the separator, the option name and the value. */
  function SizeMessage(name: string, value: string): string
  {
    "Expected two integers, separated by '" + [ResolutionSeparator] + "' for '" + name + "', but got '" + value + "'."
  }

  /** get_size: exactly two `x`-separated tokens, both integers, give width and height. */
  function GetSize(name: string, value: string): (r: Result<(int, int)>)
    ensures r.Ok? <==>
      var tokens := Split(value, ResolutionSeparator);
      |tokens| == 2 && ToInt(tokens[0]).Some? && ToInt(tokens[1]).Some?
    ensures r.Ok? ==> r.value == (ToInt(Split(value, ResolutionSeparator)[0]).value, ToInt(Split(value, ResolutionSeparator)[1]).value)
    ensures r.Err? ==> r.message == SizeMessage(name, value)
  {
    var tokens := Split(value, ResolutionSeparator);
    if |tokens| != 2 || ToInt(tokens[0]).None? || ToInt(tokens[1]).None? then Err(SizeMessage(name, value))
    else Ok((ToInt(tokens[0]).value, ToInt(tokens[1]).value))
  }

  /** get_size as written: the same decision with the message of one `arg` call. */
  function GetSizeAsWritten(name: string, value: string): (r: Result<(int, int)>)
    ensures r.Ok? <==> GetSize(name, value).Ok?
    ensures r.Ok? ==> r.value == GetSize(name, value).value
    ensures r.Err? ==> r.message == SizeMessageAsWritten(name, value)
  {
    match GetSize(name, value)
    case Ok(size) => Ok(size)
    case Err(_) => Err(SizeMessageAsWritten(name, value))
  }

  /** A value without a separator is refused, and the message as written names neither the
      option nor the separator: the value stands where the separator belongs. */
  lemma SizeMessageAsWrittenLosesValue(name: string)
    ensures GetSize(name, "100") == Err(SizeMessage(name, "100"))
    ensures GetSizeAsWritten(name, "100") == Err(SizeMessageAsWritten(name, "100"))
  {
    assert IndexOf("100", ResolutionSeparator) == None;
    assert |Split("100", ResolutionSeparator)| == 1;
  }

  /** The text of that message. */
  lemma SizeMessageAsWrittenText(name: string)
    ensures SizeMessageAsWritten(name, "100") == "Expected two integers, separated by '100' for '%2', but got '%3'."
  {
  }

  /** The message as written is the same whichever option was given, whereas the intended
      message tells the options apart. */
  lemma SizeMessageIgnoresName(n1: string, n2: string, value: string)
    requires n1 != n2
    ensures SizeMessageAsWritten(n1, value) == SizeMessageAsWritten(n2, value)
    ensures SizeMessage(n1, value) != SizeMessage(n2, value)
  {
    var p := "Expected two integers, separated by '" + [ResolutionSeparator] + "' for '";
    var m1 := SizeMessage(n1, value);
    var m2 := SizeMessage(n2, value);
    assert m1 == p + (n1 + ("', but got '" + value + "'."));
    assert m2 == p + (n2 + ("', but got '" + value + "'."));
    if |n1| == |n2| {
      var k :| 0 <= k < |n1| && n1[k] != n2[k];
      assert m1[|p| + k] == n1[k];
      assert m2[|p| + k] == n2[k];
    } else {
      assert |m1| != |m2|;
    }
  }

  /** Splitting text made of two parts around a separator they do not contain gives the parts. */
  lemma SplitTwo(a: string, b: string, sep: char)
    requires sep !in a && sep !in b
    ensures Split(a + [sep] + b, sep) == [a, b]
  {
    var s := a + [sep] + b;
    assert s[|a|] == sep;
    assert forall k :: 0 <= k < |a| ==> s[k] == a[k];
    assert IndexOf(s, sep) == Some(|a|) by {
      assert sep !in s[..|a|] by { assert s[..|a|] == a; }
    }
    assert s[..|a|] == a && s[|a| + 1..] == b;
  }

  lemma NatToStringNoSeparator(n: nat)
    ensures ResolutionSeparator !in NatToString(n)
  {
    var s := NatToString(n);
    NatToStringDigits(n);
    forall k | 0 <= k < |s| ensures s[k] != ResolutionSeparator {
      assert IsDigit(s[k]);
    }
  }

  lemma IntToStringNoSeparator(i: int)
    ensures ResolutionSeparator !in IntToString(i)
  {
    if i < 0 {
      NatToStringNoSeparator(-i);
      assert IntToString(i) == "-" + NatToString(-i);
    } else {
      NatToStringNoSeparator(i);
    }
  }

  /** A size written as `<w>x<h>` reads back as that size. */
  lemma GetSizeRoundTrip(name: string, w: int, h: int)
    requires InInt32(w) && InInt32(h)
    ensures GetSize(name, IntToString(w) + [ResolutionSeparator] + IntToString(h)) == Ok((w, h))
  {
    var sw, sh := IntToString(w), IntToString(h);
    IntToStringNoSeparator(w);
    IntToStringNoSeparator(h);
    SplitTwo(sw, sh, ResolutionSeparator);
    ToIntOfIntToString(w);
    ToIntOfIntToString(h);
    GetSizeOfTokens(name, sw + [ResolutionSeparator] + sh, sw, sh);
  }

  /** A value that splits into two integer tokens is the size they give. */
  lemma GetSizeOfTokens(name: string, value: string, a: string, b: string)
    requires Split(value, ResolutionSeparator) == [a, b] && ToInt(a).Some? && ToInt(b).Some?
    ensures GetSize(name, value) == Ok((ToInt(a).value, ToInt(b).value))
  {
  }

  // ---------------------------------------------------------------------------------------------
  // Required options

  /** require: an empty option value is an error. */
  function Require(name: string, value: string): (r: Result<string>)
    ensures r.Ok? <==> value != ""
    ensures r.Ok? ==> r.value == value
    ensures r.Err? ==> r.message == "<" + name + "> must be specified."
  {
    if value == "" then Err("<" + name + "> must be specified.") else Ok(value)
  }

  // ---------------------------------------------------------------------------------------------
  // File name templates (interpolate_filename)

  /** The template with the span from the first to the last `#` replaced by the frame number,
      zero-padded to the span's length. */
  function InterpolateFilename(template: string, frame: int): (r: Result<string>)
  {
    match IndexOf(template, FramenumberPlaceholder)
    case None => Ok(template)
    case Some(first) => FillPlaceholder(template, first, LastIndexOf(template, FramenumberPlaceholder).value, frame)
  }

  /** The span from `first` to `last` must hold only `#`; it is replaced by the padded number. */
  function FillPlaceholder(template: string, first: nat, last: nat, frame: int): Result<string>
    requires first <= last < |template|
  {
    if Count(template[first..last + 1], FramenumberPlaceholder) != last - first + 1 then Err(PlaceholderMessage)
    else Ok(template[..first] + ZeroPadded(frame, last - first + 1) + template[last + 1..])
  }

  lemma {:induction false} CountAll(s: string, c: char)
    ensures Count(s, c) <= |s|
    ensures Count(s, c) == |s| <==> forall k :: 0 <= k < |s| ==> s[k] == c
  {
    if s != [] {
      CountAll(s[1..], c);
      if forall k :: 0 <= k < |s[1..]| ==> s[1..][k] == c {
        assert forall k :: 1 <= k < |s| ==> s[k] == s[1..][k - 1];
      }
    }
  }

  /** A template without `#` is returned unchanged. */
  lemma InterpolateWithout(template: string, frame: int)
    requires FramenumberPlaceholder !in template
    ensures InterpolateFilename(template, frame) == Ok(template)
  {
  }

  /** With a `#`, the template is accepted exactly when its `#` characters form one run; then the
      text before and after the run is kept and the run becomes the frame number, padded with `0`
      to the run's length. */
  lemma InterpolateSpec(template: string, frame: int, first: nat, last: nat)
    requires first <= last < |template|
    requires template[first] == FramenumberPlaceholder && template[last] == FramenumberPlaceholder
    requires FramenumberPlaceholder !in template[..first] && FramenumberPlaceholder !in template[last + 1..]
    ensures InterpolateFilename(template, frame).Ok? <==>
      forall k :: first <= k <= last ==> template[k] == FramenumberPlaceholder
    ensures InterpolateFilename(template, frame).Err? ==> InterpolateFilename(template, frame).message == PlaceholderMessage
    ensures InterpolateFilename(template, frame).Ok? ==>
      InterpolateFilename(template, frame).value
        == template[..first] + ZeroPadded(frame, last - first + 1) + template[last + 1..]
  {
    PlaceholderSpan(template, first, last);
    RunAll(template, first, last, FramenumberPlaceholder);
    assert InterpolateFilename(template, frame) == FillPlaceholder(template, first, last, frame);
  }

  /** The span from `first` to `last` is made of `c` alone iff it counts as many `c` as it is long. */
  lemma RunAll(s: string, first: nat, last: nat, c: char)
    requires first <= last < |s|
    ensures (Count(s[first..last + 1], c) == last - first + 1) <==> forall k :: first <= k <= last ==> s[k] == c
  {
    var span := s[first..last + 1];
    CountAll(span, c);
    if forall j :: 0 <= j < |span| ==> span[j] == c {
      forall k | first <= k <= last ensures s[k] == c {
        assert s[k] == span[k - first];
      }
    }
    if forall k :: first <= k <= last ==> s[k] == c {
      forall j | 0 <= j < |span| ensures span[j] == c {
        assert span[j] == s[first + j];
      }
    }
  }

  /** The first and the last `#` of the template. */
  lemma PlaceholderSpan(template: string, first: nat, last: nat)
    requires first <= last < |template|
    requires template[first] == FramenumberPlaceholder && template[last] == FramenumberPlaceholder
    requires FramenumberPlaceholder !in template[..first] && FramenumberPlaceholder !in template[last + 1..]
    ensures IndexOf(template, FramenumberPlaceholder) == Some(first)
    ensures LastIndexOf(template, FramenumberPlaceholder) == Some(last)
  {
    var i := IndexOf(template, FramenumberPlaceholder);
    assert i.Some?;
    assert template[..first][..i.value] == template[..i.value];
    var j := LastIndexOf(template, FramenumberPlaceholder);
    assert j.Some?;
  }

  /** Leading zeros do not change the value of a run of digits. */
  lemma {:induction false} LeadingZeros(z: nat, s: string)
    requires AllDigits(s)
    ensures AllDigits(seq(z, _ => '0') + s) && DigitsValue(seq(z, _ => '0') + s) == DigitsValue(s)
    decreases |s|
  {
    var p := seq(z, _ => '0') + s;
    if s == [] {
      assert p == seq(z, _ => '0');
      ZerosValue(z);
    } else {
      LeadingZeros(z, s[..|s| - 1]);
      assert p[..|p| - 1] == seq(z, _ => '0') + s[..|s| - 1];
    }
  }

  lemma {:induction false} ZerosValue(z: nat)
    ensures AllDigits(seq(z, _ => '0')) && DigitsValue(seq(z, _ => '0')) == 0
  {
    if z > 0 {
      ZerosValue(z - 1);
      assert seq(z, _ => '0')[..z - 1] == seq(z - 1, _ => '0');
    }
  }

  /** The placeholder's replacement is at least as long as the run; it is an optional minus
      followed by digits whose value is the frame's magnitude, so it reads back as the frame. */
  lemma FrameNumberReadsBack(frame: int, width: nat)
    ensures var r := ZeroPadded(frame, width);
      && |r| >= width
      && (frame < 0 ==> |r| >= 2 && r[0] == '-' && AllDigits(r[1..]) && DigitsValue(r[1..]) == -frame)
      && (frame >= 0 ==> |r| >= 1 && AllDigits(r) && DigitsValue(r) == frame)
      && (InInt32(frame) ==> ToInt(r) == Some(frame))
  {
    var n: nat := if frame < 0 then -frame else frame;
    var w: nat := if frame < 0 && width > 0 then width - 1 else width;
    var digits := PadLeft(NatToString(n), w, '0');
    PaddedDigits(n, w);
    if frame < 0 {
      assert ZeroPadded(frame, width) == "-" + digits;
      assert Signed(true, DigitsValue(digits)) == frame;
      if InInt32(frame) {
        ToIntSigned(digits, true);
      }
    } else {
      assert ZeroPadded(frame, width) == digits;
      assert Signed(false, DigitsValue(digits)) == frame;
      if InInt32(frame) {
        ToIntSigned(digits, false);
      }
    }
  }

  /** Zero-padding the decimal text of `n` keeps it a digit string of value `n`. */
  lemma PaddedDigits(n: nat, width: nat)
    ensures var r := PadLeft(NatToString(n), width, '0');
      |r| >= 1 && |r| >= width && AllDigits(r) && DigitsValue(r) == n
  {
    var s := NatToString(n);
    NatToStringDigits(n);
    NatToStringValue(n);
    if width > |s| {
      LeadingZeros(width - |s|, s);
    }
  }

  // ---------------------------------------------------------------------------------------------
  // The render loop of main

  /** The frame the animator shows after `k` calls of `advance` (Animator::advance is not part of
      this model and is given as a function). */
  function FrameAt(start: int, advance: int -> int, k: nat): int
  {
    if k == 0 then start else advance(FrameAt(start, advance, k - 1))
  }

  /** One render: the file name, refused when it exists (before the run, or written by an
      earlier render of the run) and `overwrite` is not set. */
  function RenderFile(name: Result<string>, existing: set<string>, written: seq<string>, force: bool): (r: Result<string>)
    ensures r.Ok? ==> name == Ok(r.value) && (force || (r.value !in existing && r.value !in written))
    ensures name.Err? ==> r == name
  {
    match name
    case Err(e) => Err(e)
    case Ok(filename) =>
      if (filename in existing || filename in written) && !force then Err("Refuse to overwrite existing file '" + filename + "'.")
      else Ok(filename)
  }

  /** The file name of the render after `k` advances. */
  function FrameFile(template: string, start: int, advance: int -> int, k: nat): Result<string>
  {
    InterpolateFilename(template, FrameAt(start, advance, k))
  }

  /** The file names of the first `count` renders. */
  function FrameFiles(template: string, start: int, advance: int -> int, count: nat): (r: seq<Result<string>>)
    ensures |r| == count
    ensures forall k :: 0 <= k < count ==> r[k] == FrameFile(template, start, advance, k)
  {
    seq(count, k requires 0 <= k < count => FrameFile(template, start, advance, k))
  }

  /** The files written by renders with the given names, or the error of the first render that
      fails. */
  function RenderNames(names: seq<Result<string>>, existing: set<string>, force: bool): Result<seq<string>>
  {
    if names == [] then Ok([])
    else match RenderNames(names[..|names| - 1], existing, force)
      case Err(e) => Err(e)
      case Ok(files) =>
        match RenderFile(names[|names| - 1], existing, files, force)
        case Err(e) => Err(e)
        case Ok(f) => Ok(files + [f])
  }

  /** The files written by the first `count` renders of main, or the error it exits with. */
  function RenderAll(template: string, start: int, advance: int -> int, count: nat, existing: set<string>, force: bool): Result<seq<string>>
  {
    RenderNames(FrameFiles(template, start, advance, count), existing, force)
  }

  /** The renders of main: the start frame, then one more per `sequence-length`. */
  function RenderCount(nFrames: int): nat
  {
    if nFrames > 0 then nFrames + 1 else 1
  }

  /** When the renders succeed there is one file per name, each render's file is its name, and
      (without `overwrite`) no two renders write the same file and none overwrites a file that
      existed. */
  lemma {:induction false} RenderNamesFiles(names: seq<Result<string>>, existing: set<string>, force: bool)
    requires RenderNames(names, existing, force).Ok?
    ensures var files := RenderNames(names, existing, force).value;
      && |files| == |names|
      && (forall k :: 0 <= k < |names| ==> names[k] == Ok(files[k]))
      && (!force ==> forall k :: 0 <= k < |files| ==> files[k] !in existing)
      && (!force ==> forall j, k :: 0 <= j < k < |files| ==> files[j] != files[k])
  {
    if names != [] {
      var front := names[..|names| - 1];
      RenderNamesFiles(front, existing, force);
      var files := RenderNames(front, existing, force).value;
      var f := RenderFile(names[|names| - 1], existing, files, force).value;
      assert RenderNames(names, existing, force).value == files + [f];
      assert forall k :: 0 <= k < |front| ==> names[k] == front[k];
    }
  }

  /** The frame loop's outcome in the terms of main: file k is the template filled with the frame
      shown after k advances. */
  lemma RenderAllFiles(template: string, start: int, advance: int -> int, count: nat, existing: set<string>, force: bool)
    requires RenderAll(template, start, advance, count, existing, force).Ok?
    ensures var files := RenderAll(template, start, advance, count, existing, force).value;
      && |files| == count
      && (forall k :: 0 <= k < count ==> InterpolateFilename(template, FrameAt(start, advance, k)) == Ok(files[k]))
      && (!force ==> forall k :: 0 <= k < count ==> files[k] !in existing)
      && (!force ==> forall j, k :: 0 <= j < k < count ==> files[j] != files[k])
  {
    var names := FrameFiles(template, start, advance, count);
    RenderNamesFiles(names, existing, force);
  }

  /** Once a render fails, later renders do not change the outcome. */
  lemma {:induction false} RenderNamesStopped(names: seq<Result<string>>, k: nat, existing: set<string>, force: bool)
    requires k <= |names| && RenderNames(names[..k], existing, force).Err?
    ensures RenderNames(names, existing, force) == RenderNames(names[..k], existing, force)
    decreases |names| - k
  {
    if k < |names| {
      var front := names[..|names| - 1];
      assert front[..k] == names[..k];
      RenderNamesStopped(front, k, existing, force);
    } else {
      assert names[..k] == names;
    }
  }

  /** Without a placeholder and without `overwrite`, a sequence of more than one frame stops at
      the second render, which would overwrite the first. */
  lemma RenderWithoutPlaceholder(template: string, start: int, advance: int -> int, existing: set<string>, force: bool)
    requires FramenumberPlaceholder !in template && !force && template !in existing
    ensures RenderAll(template, start, advance, 1, existing, force) == Ok([template])
    ensures RenderAll(template, start, advance, 2, existing, force).Err?
  {
    InterpolateWithout(template, FrameAt(start, advance, 0));
    InterpolateWithout(template, FrameAt(start, advance, 1));
    var names := FrameFiles(template, start, advance, 2);
    assert names[0] == Ok(template) && names[1] == Ok(template);
    var one := names[..1];
    assert one[..|one| - 1] == [];
    assert [] + [template] == [template];
    assert RenderNames(one, existing, force) == Ok([template]);
    assert RenderNames(names[..1], existing, force) == Ok([template]);
  }

  /** The frame loop of main: set the start frame, render, then advance and render `nFrames`
      times. */
  method RenderSequence(template: string, start: int, nFrames: int, advance: int -> int, existing: set<string>, force: bool)
    returns (r: Result<seq<string>>)
    ensures r == RenderAll(template, start, advance, RenderCount(nFrames), existing, force)
  {
    ghost var names := FrameFiles(template, start, advance, RenderCount(nFrames));
    var current := start;
    var files := [];
    var i := 0;
    while true
      invariant 0 <= i < RenderCount(nFrames)
      invariant current == FrameAt(start, advance, i)
      invariant RenderNames(names[..i], existing, force) == Ok(files)
      decreases RenderCount(nFrames) - i
    {
      assert names[..i + 1][..i] == names[..i];
      var next := RenderFile(InterpolateFilename(template, current), existing, files, force);
      if next.Err? {
        RenderNamesStopped(names, i + 1, existing, force);
        return Err(next.message);
      }
      files := files + [next.value];
      if i + 1 == RenderCount(nFrames) {
        assert names[..i + 1] == names;
        return Ok(files);
      }
      current := advance(current);
      i := i + 1;
    }
  }
}
