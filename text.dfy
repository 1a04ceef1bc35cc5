/** String helpers shared by the model: the parts of QString and std::string that the
    modelled code relies on (trimming, splitting on one character, joining, searching,
    decimal formatting and digit runs). Strings are sequences of characters. */
module Text {
  import opened Wrappers

  /** Bounds of a 32-bit `int`, the width of every `int` in the modelled code. */
  const IntMin: int := -0x8000_0000
  const IntMax: int := 0x7fff_ffff

  predicate InInt32(x: int) { IntMin <= x <= IntMax }

  /** QChar::isSpace restricted to the characters below U+0100: TAB, LF, VT, FF, CR, space, NEL and NBSP. */
  predicate IsQtSpace(c: char)
  {
    c == ' ' || c == '\t' || c == '\n' || c == '\r' || c as int == 0x0B || c as int == 0x0C
    || c as int == 0x85 || c as int == 0xA0
  }

  /** std::isspace in the "C" locale: TAB, LF, VT, FF, CR and space. */
  predicate IsCSpace(c: char)
  {
    c == ' ' || c == '\t' || c == '\n' || c == '\r' || c as int == 0x0B || c as int == 0x0C
  }

  predicate IsDigit(c: char) { '0' <= c <= '9' }

  /** Digits and signs are not whitespace. */
  lemma SignOrDigitNotSpace(c: char)
    requires IsDigit(c) || c == '-' || c == '+'
    ensures !IsQtSpace(c) && !IsCSpace(c)
  {
  }

  predicate AllDigits(s: string) { forall i :: 0 <= i < |s| ==> IsDigit(s[i]) }

  // ---------------------------------------------------------------------------------------------
  // Trimming (QString::trimmed)

  function TrimStart(s: string): (r: string)
    ensures |r| <= |s| && r == s[|s| - |r|..]
    ensures r != [] ==> !IsQtSpace(r[0])
    ensures forall i :: 0 <= i < |s| - |r| ==> IsQtSpace(s[i])
  {
    if s != [] && IsQtSpace(s[0]) then
      var r := TrimStart(s[1..]);
      assert s[1..][|s| - 1 - |r|..] == s[|s| - |r|..];
      assert forall i :: 1 <= i < |s| - |r| ==> s[i] == s[1..][i - 1];
      r
    else s
  }

  function TrimEnd(s: string): (r: string)
    ensures |r| <= |s| && r == s[..|r|]
    ensures r != [] ==> !IsQtSpace(r[|r| - 1])
    ensures forall i :: |r| <= i < |s| ==> IsQtSpace(s[i])
  {
    if s != [] && IsQtSpace(s[|s| - 1]) then
      var r := TrimEnd(s[..|s| - 1]);
      assert s[..|s| - 1][..|r|] == s[..|r|];
      assert forall i :: |r| <= i < |s| - 1 ==> s[i] == s[..|s| - 1][i];
      r
    else s
  }

  /** QString::trimmed: whitespace removed from both ends, the middle untouched. */
  function Trim(s: string): (r: string)
    ensures r != [] ==> !IsQtSpace(r[0]) && !IsQtSpace(r[|r| - 1])
    ensures |r| <= |s|
    ensures (s == [] || (!IsQtSpace(s[0]) && !IsQtSpace(s[|s| - 1]))) ==> r == s
  {
    TrimEnd(TrimStart(s))
  }

  /** An element of a sequence extended by one element at its end. */
  lemma SnocIndex<T>(xs: seq<T>, front: seq<T>, last: T, k: nat)
    requires xs == front + [last] && k <= |front|
    ensures xs[k] == if k < |front| then front[k] else last
  {
  }

  /** Concatenation is associative (stated once for any element type, so that proofs about lines
      of text need not rediscover it character by character). */
  lemma AppendAssoc<T>(a: seq<T>, b: seq<T>, c: seq<T>)
    ensures (a + b) + c == a + (b + c)
  {
  }

  // ---------------------------------------------------------------------------------------------
  // Searching, counting, splitting and joining

  function Count(s: string, c: char): nat
  {
    if s == [] then 0 else (if s[0] == c then 1 else 0) + Count(s[1..], c)
  }

  /** Position of the first occurrence of `c` (QString::indexOf, std::string::find). */
  function IndexOf(s: string, c: char): (r: Option<nat>)
    ensures r.None? <==> c !in s
    ensures r.Some? ==> r.value < |s| && s[r.value] == c && c !in s[..r.value]
  {
    if s == [] then None
    else if s[0] == c then Some(0)
    else match IndexOf(s[1..], c)
      case None => None
      case Some(k) => Some(k + 1)
  }

  /** Position of the last occurrence of `c` (QString::lastIndexOf). */
  function LastIndexOf(s: string, c: char): (r: Option<nat>)
    ensures r.None? <==> c !in s
    ensures r.Some? ==> r.value < |s| && s[r.value] == c && c !in s[r.value + 1..]
  {
    if s == [] then None
    else if s[|s| - 1] == c then Some(|s| - 1)
    else LastIndexOf(s[..|s| - 1], c)
  }

  /** QString::split with a one-character separator, keeping empty parts. */
  function Split(s: string, sep: char): (parts: seq<string>)
    ensures |parts| >= 1
    ensures forall i :: 0 <= i < |parts| ==> sep !in parts[i]
    decreases |s|
  {
    match IndexOf(s, sep)
    case None => [s]
    case Some(k) => [s[..k]] + Split(s[k + 1..], sep)
  }

  /** QStringList::join. */
  function Join(parts: seq<string>, sep: string): string
  {
    if |parts| == 0 then ""
    else if |parts| == 1 then parts[0]
    else parts[0] + sep + Join(parts[1..], sep)
  }

  /** The number of parts is one more than the number of separators. */
  lemma {:induction false} SplitCount(s: string, sep: char)
    ensures |Split(s, sep)| == Count(s, sep) + 1
    decreases |s|
  {
    match IndexOf(s, sep)
    case None =>
      CountAbsent(s, sep);
    case Some(k) =>
      SplitCount(s[k + 1..], sep);
      CountAppend(s[..k], s[k..], sep);
      CountAbsent(s[..k], sep);
      assert s[k..] == [sep] + s[k + 1..];
      CountAppend([sep], s[k + 1..], sep);
      assert s == s[..k] + s[k..];
  }

  /** Joining the parts of a split with the separator gives back the original text. */
  lemma {:induction false} JoinSplit(s: string, sep: char)
    ensures Join(Split(s, sep), [sep]) == s
    decreases |s|
  {
    match IndexOf(s, sep)
    case None =>
    case Some(k) =>
      var rest := Split(s[k + 1..], sep);
      var parts := [s[..k]] + rest;
      assert Split(s, sep) == parts;
      assert parts[1..] == rest;
      JoinSplit(s[k + 1..], sep);
      calc {
        Join(parts, [sep]);
        parts[0] + [sep] + Join(parts[1..], [sep]);
        s[..k] + [sep] + s[k + 1..];
        { assert s == s[..k] + [sep] + s[k + 1..]; }
        s;
      }
  }

  lemma {:induction false} CountAbsent(s: string, c: char)
    requires c !in s
    ensures Count(s, c) == 0
  {
    if s != [] {
      CountAbsent(s[1..], c);
    }
  }

  lemma {:induction false} CountAppend(a: string, b: string, c: char)
    ensures Count(a + b, c) == Count(a, c) + Count(b, c)
  {
    if a != [] {
      assert (a + b)[1..] == a[1..] + b;
      CountAppend(a[1..], b, c);
    } else {
      assert a + b == b;
    }
  }

  // ---------------------------------------------------------------------------------------------
  // Decimal numbers

  function DigitChar(d: nat): (c: char)
    requires d < 10
    ensures IsDigit(c) && DigitValue(c) == d
  {
    (('0' as int) + d) as char
  }

  function DigitValue(c: char): nat
    requires IsDigit(c)
  {
    (c as int) - ('0' as int)
  }

  /** Decimal text of a natural number, without leading zeros. */
  function NatToString(n: nat): string
  {
    if n < 10 then [DigitChar(n)] else NatToString(n / 10) + [DigitChar(n % 10)]
  }

  /** The decimal text is a non-empty run of digits that starts with `0` only for zero. */
  lemma {:induction false} NatToStringDigits(n: nat)
    ensures var r := NatToString(n); |r| >= 1 && AllDigits(r) && (r[0] == '0' ==> n == 0)
  {
    if n >= 10 {
      NatToStringDigits(n / 10);
      var front := NatToString(n / 10);
      assert NatToString(n) == front + [DigitChar(n % 10)];
      assert NatToString(n)[0] == front[0];
    }
  }

  /** QString::number / QString::arg of an integer: a minus sign for negative values. */
  function IntToString(i: int): string
  {
    if i < 0 then "-" + NatToString(-i) else NatToString(i)
  }

  /** The value of a run of decimal digits. */
  function DigitsValue(s: string): nat
    requires AllDigits(s)
  {
    if s == [] then 0 else DigitsValue(s[..|s| - 1]) * 10 + DigitValue(s[|s| - 1])
  }

  /** Reading back the digits written by NatToString gives the number. */
  lemma {:induction false} NatToStringValue(n: nat)
    ensures AllDigits(NatToString(n)) && DigitsValue(NatToString(n)) == n
  {
    NatToStringDigits(n);
    if n >= 10 {
      NatToStringValue(n / 10);
      var s := NatToString(n);
      assert s[..|s| - 1] == NatToString(n / 10);
    }
  }

  /** A magnitude with a sign. */
  function Signed(negative: bool, n: nat): int
  {
    if negative then -(n as int) else n
  }

  /** The decimal text of an integer: a minus sign for a negative one, then the digits of its
      magnitude, which read back as the magnitude. */
  lemma IntToStringShape(i: int)
    ensures var n: nat := if i < 0 then -i else i;
      && (i < 0 ==> IntToString(i) == "-" + NatToString(n))
      && (i >= 0 ==> IntToString(i) == NatToString(n))
      && |NatToString(n)| >= 1 && AllDigits(NatToString(n)) && DigitsValue(NatToString(n)) == n
  {
    var n: nat := if i < 0 then -i else i;
    NatToStringDigits(n);
    NatToStringValue(n);
  }

  /** Different numbers have different decimal texts. */
  lemma NatToStringInjective(m: nat, n: nat)
    requires m != n
    ensures NatToString(m) != NatToString(n)
  {
    NatToStringValue(m);
    NatToStringValue(n);
  }

  /** The length of the run of digits at the start of `s`. */
  function DigitRun(s: string): (k: nat)
    ensures k <= |s| && AllDigits(s[..k])
    ensures k < |s| ==> !IsDigit(s[k])
  {
    if s != [] && IsDigit(s[0]) then
      var k := 1 + DigitRun(s[1..]);
      assert s[..k] == [s[0]] + s[1..][..k - 1];
      k
    else 0
  }

  /** `s` left-padded with `fill` up to `width` characters (QString::arg with a field width). */
  function PadLeft(s: string, width: nat, fill: char): (r: string)
    ensures |r| == if width > |s| then width else |s|
    ensures r[|r| - |s|..] == s
    ensures forall i :: 0 <= i < |r| - |s| ==> r[i] == fill
  {
    if width > |s| then seq(width - |s|, _ => fill) + s else s
  }

  /** The decimal text of `i` padded with `0` to `width` characters as QString::arg does with a
      `0` fill: the minus sign counts toward the width and the zeros go between it and the digits. */
  function ZeroPadded(i: int, width: nat): string
  {
    if i < 0 then "-" + PadLeft(NatToString(-i), if width > 0 then width - 1 else 0, '0')
    else PadLeft(NatToString(i), width, '0')
  }

  // ---------------------------------------------------------------------------------------------
  // Ordering (QString's operator<, the order a std::set<QString> iterates in)

  /** Lexicographic comparison by character code; a proper prefix comes first. QString compares
      UTF-16 code units, which orders the same except above U+FFFF. */
  predicate StrLess(a: string, b: string)
    decreases |a|
  {
    if a == [] then b != []
    else if b == [] then false
    else if a[0] != b[0] then a[0] < b[0]
    else StrLess(a[1..], b[1..])
  }

  lemma {:induction false} StrLessIrreflexive(a: string)
    ensures !StrLess(a, a)
  {
    if a != [] {
      StrLessIrreflexive(a[1..]);
    }
  }

  lemma {:induction false} StrLessTransitive(a: string, b: string, c: string)
    requires StrLess(a, b) && StrLess(b, c)
    ensures StrLess(a, c)
    decreases |a|
  {
    if a != [] && b != [] && c != [] && a[0] == b[0] && b[0] == c[0] {
      StrLessTransitive(a[1..], b[1..], c[1..]);
    }
  }

  lemma {:induction false} StrLessTotal(a: string, b: string)
    requires a != b
    ensures StrLess(a, b) || StrLess(b, a)
    decreases |a|
  {
    if a != [] && b != [] && a[0] == b[0] {
      assert a == [a[0]] + a[1..] && b == [b[0]] + b[1..];
      StrLessTotal(a[1..], b[1..]);
    }
  }

  lemma StrLessAsymmetric()
    ensures forall a: string, b: string :: StrLess(a, b) ==> !StrLess(b, a)
  {
    forall a: string, b: string | StrLess(a, b) ensures !StrLess(b, a) {
      if StrLess(b, a) {
        StrLessTransitive(a, b, a);
        StrLessIrreflexive(a);
      }
    }
  }

  /** A least element exists in every non-empty set of strings. */
  lemma {:induction false} LeastExists(s: set<string>)
    requires s != {}
    ensures exists m :: m in s && forall t :: t in s && t != m ==> StrLess(m, t)
    decreases |s|
  {
    var x :| x in s;
    if s != {x} {
      LeastExists(s - {x});
      var m :| m in s - {x} && forall t :: t in s - {x} && t != m ==> StrLess(m, t);
      if StrLess(x, m) {
        forall t | t in s && t != x ensures StrLess(x, t) {
          if t != m {
            StrLessTransitive(x, m, t);
          }
        }
      } else {
        StrLessTotal(x, m);
        assert forall t :: t in s && t != m ==> StrLess(m, t);
      }
    }
  }

  /** The least string of a non-empty set. */
  function MinString(s: set<string>): (m: string)
    requires s != {}
    ensures m in s
    ensures forall t :: t in s && t != m ==> StrLess(m, t)
  {
    LeastExists(s);
    StrLessAsymmetric();
    var m :| m in s && forall t :: t in s && t != m ==> StrLess(m, t);
    m
  }

  /** The elements of a set of strings in ascending order, each once (iteration over a std::set). */
  function SortedStrings(s: set<string>): (r: seq<string>)
    ensures |r| == |s|
    ensures forall t :: t in r <==> t in s
    ensures forall i, j :: 0 <= i < j < |r| ==> StrLess(r[i], r[j])
    decreases |s|
  {
    if s == {} then []
    else
      var m := MinString(s);
      var rest := SortedStrings(s - {m});
      assert forall j :: 0 <= j < |rest| ==> StrLess(m, rest[j]) by {
        forall j | 0 <= j < |rest| ensures StrLess(m, rest[j]) {
          assert rest[j] in s - {m};
        }
      }
      var r := [m] + rest;
      assert forall i, j :: 0 < i < j < |r| ==> r[i] == rest[i - 1] && r[j] == rest[j - 1];
      r
  }
}
