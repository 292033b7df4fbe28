/** The version coercion `int(value.split('.')[0])`: Python's `int()` on a string and the first
    `.`-separated segment of a string. */
module Coerce {
  import opened Values

  /** The ASCII whitespace `int()` discards around its argument: space, tab, LF, VT, FF, CR. */
  predicate IsSpace(c: char) { c == ' ' || '\t' <= c <= '\r' }

  /** The digit part `int()` accepts, `digit ('_'? digit)*`, read left to right onto `acc`:
      `None` for anything else, including a leading, trailing or doubled underscore. */
  function Digits(s: string, acc: nat): (r: Option<nat>)
    ensures r.Some? ==> |s| > 0 && IsDigit(s[0]) && IsDigit(s[|s| - 1])
    ensures r.Some? ==> r.value >= acc
    decreases |s|
  {
    if |s| == 0 || !IsDigit(s[0]) then None
    else
      var acc' := 10 * acc + (s[0] as int - '0' as int);
      if |s| == 1 then Some(acc')
      else if s[1] == '_' then Digits(s[2..], acc')
      else Digits(s[1..], acc')
  }

  /** The value of a decimal numeral, read from its last digit: the reference reading. */
  function DigitsValue(s: string): nat
    requires AllDigits(s)
  {
    if |s| == 0 then 0 else 10 * DigitsValue(s[..|s| - 1]) + (s[|s| - 1] as int - '0' as int)
  }

  /** `int()` once the surrounding whitespace is gone: an optional sign, then the digit part. */
  function ParseStripped(t: string): (r: Option<int>)
    ensures r.Some? ==> |t| > 0 && IsDigit(t[|t| - 1])
  {
    var signed := |t| > 0 && (t[0] == '-' || t[0] == '+');
    match Digits(if signed then t[1..] else t, 0)
    case None => None
    case Some(n) => Some(if signed && t[0] == '-' then -(n as int) else n)
  }

  /** Python's `int(s)` in base 10: surrounding whitespace is dropped one character at a time,
      then the rest must be a signed digit part. `None` where Python raises `ValueError`. */
  function ParseInt(s: string): (r: Option<int>)
    ensures s == "" ==> r == None
    decreases |s|
  {
    if |s| > 0 && IsSpace(s[0]) then ParseInt(s[1..])
    else if |s| > 0 && IsSpace(s[|s| - 1]) then ParseInt(s[..|s| - 1])
    else ParseStripped(s)
  }

  /** `s.split('.')[0]`: everything before the first `.`, or all of `s` when it has none. */
  function FirstSegment(s: string): (r: string)
    ensures |r| <= |s| && r == s[..|r|]
    ensures '.' !in r
    ensures |r| < |s| ==> s[|r|] == '.'
  {
    if |s| == 0 || s[0] == '.' then "" else [s[0]] + FirstSegment(s[1..])
  }

  /** `int(value.split('.')[0])`, which fails for a value that is not a string (it has no `split`)
      and for a first segment that `int()` rejects. */
  function VersionNumber(v: Json): (r: Option<int>)
    ensures r.Some? ==> v.JStr? && ParseInt(FirstSegment(v.s)) == r
  {
    match v
    case JStr(s) => ParseInt(FirstSegment(s))
    case _ => None
  }

  /** One more digit after a digit part multiplies its value by ten and adds the digit. */
  lemma {:induction false} DigitsAppend(s: string, c: char, acc: nat)
    requires |s| > 0 && AllDigits(s) && IsDigit(c)
    ensures Digits(s, acc).Some?
    ensures Digits(s + [c], acc) == Some(10 * Digits(s, acc).value + (c as int - '0' as int))
  {
    var acc' := 10 * acc + (s[0] as int - '0' as int);
    if |s| > 1 {
      DigitsAppend(s[1..], c, acc');
      assert (s + [c])[1..] == s[1..] + [c];
    } else {
      assert (s + [c])[1..] == [c];
    }
  }

  /** On plain digits the left-to-right scan agrees with the reference reading. */
  lemma {:induction false} DigitsOfPlain(d: string)
    requires |d| > 0 && AllDigits(d)
    ensures Digits(d, 0) == Some(DigitsValue(d))
  {
    if |d| > 1 {
      var init := d[..|d| - 1];
      DigitsOfPlain(init);
      DigitsAppend(init, d[|d| - 1], 0);
      assert init + [d[|d| - 1]] == d;
    }
  }

  lemma {:induction false} DigitsValueOfDecimal(n: nat)
    ensures DigitsValue(Decimal(n)) == n
  {
    if n >= 10 {
      var s := Decimal(n);
      assert s[..|s| - 1] == Decimal(n / 10);
      DigitsValueOfDecimal(n / 10);
    }
  }

  lemma PlainDigitsParse(d: string)
    requires |d| > 0 && AllDigits(d)
    ensures ParseInt(d) == Some(DigitsValue(d))
  {
    DigitsOfPlain(d);
    assert !IsSpace(d[0]) && !IsSpace(d[|d| - 1]);
  }

  lemma PrefixedDigitsParse(c: char, d: string)
    requires c == '+' || c == '-'
    requires |d| > 0 && AllDigits(d)
    ensures ParseInt([c] + d) == Some(if c == '-' then 0 - DigitsValue(d) else DigitsValue(d))
  {
    DigitsOfPlain(d);
    var s := [c] + d;
    assert s[1..] == d;
    assert !IsSpace(s[0]) && !IsSpace(s[|s| - 1]);
  }

  /** `int()` agrees with the plain sign-plus-digits reading: an optional `+` or `-` followed
      by one or more decimal digits parses to the signed value of those digits. */
  lemma SignedDigitsParse(d: string)
    requires |d| > 0 && AllDigits(d)
    ensures ParseInt(d) == Some(DigitsValue(d))
    ensures ParseInt("+" + d) == Some(DigitsValue(d))
    ensures ParseInt("-" + d) == Some(0 - DigitsValue(d))
  {
    PlainDigitsParse(d);
    PrefixedDigitsParse('+', d);
    PrefixedDigitsParse('-', d);
  }

  /** Reading back what `str()` writes for an integer gives the integer. */
  lemma ParseIntRoundTrip(n: int)
    ensures ParseInt(IntToString(n)) == Some(n)
  {
    var m: nat := if n < 0 then -n else n;
    var d := Decimal(m);
    DigitsValueOfDecimal(m);
    if n < 0 {
      PrefixedDigitsParse('-', d);
      assert IntToString(n) == ['-'] + d;
    } else {
      PlainDigitsParse(d);
    }
  }

  /** A digit part never holds a `.`. */
  lemma {:induction false} DigitsRejectDot(s: string, acc: nat, i: nat)
    requires i < |s| && s[i] == '.'
    ensures Digits(s, acc) == None
  {
    if |s| > 1 && IsDigit(s[0]) && i > 0 {
      var acc' := 10 * acc + (s[0] as int - '0' as int);
      if s[1] == '_' {
        if i > 1 {
          DigitsRejectDot(s[2..], acc', i - 2);
        }
      } else {
        DigitsRejectDot(s[1..], acc', i - 1);
      }
    }
  }

  /** A string that holds a `.` is never accepted by `int()`. */
  lemma {:induction false} ParseIntRejectsDot(s: string, i: nat)
    requires i < |s| && s[i] == '.'
    ensures ParseInt(s) == None
  {
    if IsSpace(s[0]) {
      ParseIntRejectsDot(s[1..], i - 1);
    } else if IsSpace(s[|s| - 1]) {
      ParseIntRejectsDot(s[..|s| - 1], i);
    } else if s[0] == '-' || s[0] == '+' {
      DigitsRejectDot(s[1..], 0, i - 1);
    } else {
      DigitsRejectDot(s, 0, i);
    }
  }

  /** A version string `<n>.<anything>` coerces to `n`, and so does `<n>` alone. */
  lemma VersionOfDotted(n: int, rest: string)
    ensures VersionNumber(JStr(IntToString(n) + "." + rest)) == Some(n)
    ensures VersionNumber(JStr(IntToString(n))) == Some(n)
  {
    var num := IntToString(n);
    var s := num + "." + rest;
    assert '.' !in num;
    FirstSegmentAt(s, |num|);
    assert s[..|num|] == num;
    FirstSegmentAt(num, |num|);
    assert num[..|num|] == num;
    ParseIntRoundTrip(n);
  }

  lemma {:induction false} FirstSegmentAt(s: string, k: nat)
    requires k <= |s| && '.' !in s[..k] && (k < |s| ==> s[k] == '.')
    ensures FirstSegment(s) == s[..k]
  {
  }

  /** A dotted release string, "2.13.0": the version is its major number, 2. */
  lemma VersionExampleDotted()
    ensures VersionNumber(JStr("2.13.0")) == Some(2)
  {
  }

  /** A version without a dot, "10": the version is 10. */
  lemma VersionExamplePlain()
    ensures VersionNumber(JStr("10")) == Some(10)
  {
  }

  /** A version that is not a number, "abc": no version, and a JSON number has none either (it has no `split`). */
  lemma VersionExampleRejected()
    ensures VersionNumber(JStr("abc")) == None
    ensures VersionNumber(JInt(2)) == None
  {
  }

  /** Underscores between digits are accepted and dropped, surrounding whitespace is ignored,
      and an underscore that does not sit between two digits is rejected. */
  lemma UnderscoreExamples()
    ensures ParseInt(" 1_000\n") == Some(1000)
    ensures ParseInt("1__0") == None
    ensures ParseInt("_1") == None
    ensures ParseInt("1_") == None
  {
    assert Digits("0", 100) == Some(1000);
    assert Digits("00", 10) == Some(1000);
    assert Digits("1_000", 0) == Digits("000", 1) == Some(1000);
    assert ParseInt("1_000") == Some(1000);
    assert " 1_000\n"[1..] == "1_000\n";
    assert "1_000\n"[..5] == "1_000";
  }
}
