/**
 * Python's `int(s)` on a `str`, base 10, as CPython 3.11 runs it: the white
 * space `int()` recognises is ignored at either end, an optional sign may lead,
 * and the digits may be grouped by single underscores (`1_000`). More than
 * `MaxStrDigits` digits, or anything else, raises `ValueError`, modelled as `None`.
 */
module PyInt {
  import opened Basics
  import opened Text

  /**
   * CPython's default `sys.get_int_max_str_digits()`: `int()` raises
   * `ValueError` on decimal text with more digits than this.
   */
  const MaxStrDigits := 4300

  predicate IsDigit(c: char)
  {
    '0' <= c <= '9'
  }

  function DigitValue(c: char): nat
    requires IsDigit(c)
  {
    (c as int) - ('0' as int)
  }

  function DigitChar(d: nat): (c: char)
    requires d < 10
    ensures IsDigit(c) && DigitValue(c) == d
  {
    ('0' as int + d) as char
  }

  /**
   * The white space `int()` skips around its digits: ASCII space and `'\t'`
   * to `'\r'`, and every non-ASCII character `str.isspace` accepts. The ASCII
   * separators `'\U{1C}'` to `'\U{1F}'` are white space for `str.isspace` but
   * not for `int()`, which rejects them.
   */
  predicate IsIntSpace(c: char)
  {
    IsSpace(c) && !('\U{1C}' <= c <= '\U{1F}')
  }

  /** Empty or made of the white space `int()` skips. */
  predicate IntBlank(s: string)
  {
    forall k :: 0 <= k < |s| ==> IsIntSpace(s[k])
  }

  /** The leading white space `int()` skips, removed. */
  function StripStart(s: string): string
  {
    if s != [] && IsIntSpace(s[0]) then StripStart(s[1..]) else s
  }

  /** The trailing white space `int()` skips, removed. */
  function StripEnd(s: string): string
  {
    if s != [] && IsIntSpace(s[|s| - 1]) then StripEnd(s[..|s| - 1]) else s
  }

  /** The text `int()` reads its literal from. */
  function Strip(s: string): string
  {
    StripStart(StripEnd(s))
  }

  /** Trailing white space goes and the stripping stops at the last other character. */
  lemma {:induction false} StripEndShape(s: string)
    ensures var r := StripEnd(s);
      && |r| <= |s| && r == s[..|r|]
      && IntBlank(s[|r|..])
      && (r == [] || !IsIntSpace(r[|r| - 1]))
    decreases |s|
  {
    if s != [] && IsIntSpace(s[|s| - 1]) {
      var s' := s[..|s| - 1];
      var r := StripEnd(s');
      StripEndShape(s');
      assert StripEnd(s) == r;
      assert r == s[..|r|] by {
        assert s'[..|r|] == s[..|r|];
      }
      assert IntBlank(s[|r|..]) by {
        forall k | 0 <= k < |s| - |r| ensures IsIntSpace(s[|r|..][k]) {
          if k < |s'| - |r| {
            assert s[|r|..][k] == s'[|r|..][k];
          }
        }
      }
    } else {
      assert s[|s|..] == [];
    }
  }

  /** Leading white space never survives. */
  lemma {:induction false} StripStartBlankPrefix(w: string, s: string)
    requires IntBlank(w)
    ensures StripStart(w + s) == StripStart(s)
    decreases |w|
  {
    if w != [] {
      assert (w + s)[1..] == w[1..] + s;
      StripStartBlankPrefix(w[1..], s);
    } else {
      assert w + s == s;
    }
  }

  /** White space behind the text is dropped and the text itself is kept. */
  lemma {:induction false} StripEndBlankSuffix(s: string, w: string)
    requires IntBlank(w)
    requires s == [] || !IsIntSpace(s[|s| - 1])
    ensures StripEnd(s + w) == s
    decreases |w|
  {
    if w == [] {
      assert s + w == s;
    } else {
      var w' := w[..|w| - 1];
      assert (s + w)[..|s + w| - 1] == s + w';
      StripEndBlankSuffix(s, w');
    }
  }

  /** Digits and underscores only. */
  predicate DigitsOrUnderscores(t: string)
  {
    forall k :: 0 <= k < |t| ==> IsDigit(t[k]) || t[k] == '_'
  }

  /** A base-10 literal body: digits, with single underscores only between two digits. */
  predicate WellFormedDigits(t: string)
  {
    && |t| > 0
    && DigitsOrUnderscores(t)
    && IsDigit(t[0]) && IsDigit(t[|t| - 1])
    && forall k :: 0 <= k < |t| - 1 ==> !(t[k] == '_' && t[k + 1] == '_')
  }

  /** The number a digit string denotes, underscores skipped. */
  function DigitsValue(t: string): nat
    requires DigitsOrUnderscores(t)
    decreases |t|
  {
    if t == [] then 0
    else
      var init := t[..|t| - 1];
      var last := t[|t| - 1];
      if last == '_' then DigitsValue(init) else DigitsValue(init) * 10 + DigitValue(last)
  }

  /** How many digits `t` holds, underscores not counted: the length CPython holds against its limit. */
  function DigitCount(t: string): nat
    decreases |t|
  {
    if t == [] then 0
    else DigitCount(t[..|t| - 1]) + (if IsDigit(t[|t| - 1]) then 1 else 0)
  }

  /** What `int()` makes of text that has already been stripped of white space. */
  function ParseStripped(t: string): Option<int>
  {
    if |t| > 0 && (t[0] == '+' || t[0] == '-') then
      if WellFormedDigits(t[1..]) && DigitCount(t[1..]) <= MaxStrDigits then
        var v: int := DigitsValue(t[1..]);
        Some(if t[0] == '-' then -v else v)
      else None
    else if WellFormedDigits(t) && DigitCount(t) <= MaxStrDigits then Some(DigitsValue(t))
    else None
  }

  /** `int(s)`: `Some(n)` when Python returns `n`, `None` when it raises `ValueError`. */
  function ParseInt(s: string): Option<int>
  {
    ParseStripped(Strip(s))
  }

  /** The decimal digits of `n`, most significant first. */
  function Digits(n: nat): (t: string)
    ensures |t| > 0
    ensures forall k :: 0 <= k < |t| ==> IsDigit(t[k])
    decreases n
  {
    if n < 10 then [DigitChar(n)] else Digits(n / 10) + [DigitChar(n % 10)]
  }

  function Magnitude(n: int): nat
  {
    if n < 0 then -n else n
  }

  /**
   * `str(n)`: Python's decimal rendering of an integer. CPython's `str()`
   * raises too beyond `MaxStrDigits` digits; `ParseDecimal` covers both sides.
   */
  function Decimal(n: int): string
  {
    if n < 0 then "-" + Digits(-n) else Digits(n)
  }

  lemma {:induction false} DigitsValueOfDigits(n: nat)
    ensures DigitsOrUnderscores(Digits(n)) && DigitsValue(Digits(n)) == n
    ensures DigitCount(Digits(n)) == |Digits(n)|
    decreases n
  {
    var t := Digits(n);
    if n >= 10 {
      DigitsValueOfDigits(n / 10);
      assert t[..|t| - 1] == Digits(n / 10);
    } else {
      assert t[..|t| - 1] == [];
    }
  }

  /** Text without `int()` white space at either end is left alone by the stripping. */
  lemma StripTrimmed(s: string)
    requires s == [] || (!IsIntSpace(s[0]) && !IsIntSpace(s[|s| - 1]))
    ensures Strip(s) == s
  {
  }

  /** A well-formed digit string is read as the number it denotes, unless it is over the digit limit. */
  lemma ParseUnsigned(t: string, m: nat)
    requires WellFormedDigits(t) && DigitsValue(t) == m
    ensures ParseInt(t) == if DigitCount(t) <= MaxStrDigits then Some(m) else None
  {
    assert !IsIntSpace(t[0]) && !IsIntSpace(t[|t| - 1]);
    StripTrimmed(t);
  }

  lemma ParseNegative(t: string, m: nat)
    requires WellFormedDigits(t) && DigitsValue(t) == m
    ensures ParseInt("-" + t) == if DigitCount(t) <= MaxStrDigits then Some(0 - m) else None
  {
    var u := "-" + t;
    assert u[1..] == t;
    assert !IsIntSpace(u[0]) && !IsIntSpace(u[|u| - 1]) by {
      assert u[|u| - 1] == t[|t| - 1];
    }
    StripTrimmed(u);
  }

  lemma DigitsWellFormed(n: nat)
    ensures WellFormedDigits(Digits(n)) && DigitsValue(Digits(n)) == n
    ensures DigitCount(Digits(n)) == |Digits(n)|
  {
    var d := Digits(n);
    DigitsValueOfDigits(n);
    forall k | 0 <= k < |d| - 1 ensures !(d[k] == '_' && d[k + 1] == '_') {
      assert IsDigit(d[k]);
    }
  }

  /**
   * `int(str(n)) == n` for every integer of at most `MaxStrDigits` digits;
   * for a longer one `int()` raises.
   */
  lemma ParseDecimal(n: int)
    ensures ParseInt(Decimal(n)) == if |Digits(Magnitude(n))| <= MaxStrDigits then Some(n) else None
  {
    if n < 0 {
      DigitsWellFormed(-n);
      ParseNegative(Digits(-n), -n);
    } else {
      DigitsWellFormed(n);
      ParseUnsigned(Digits(n), n);
    }
  }

  /** White space `int()` skips, before the text, does not change what `int()` makes of it. */
  lemma ParseIgnoresLeadingSpace(w: string, s: string)
    requires IntBlank(w)
    ensures ParseInt(w + s) == ParseInt(s)
  {
    var e := StripEnd(s);
    StripEndShape(s);
    if e == [] {
      assert IntBlank(s);
      assert IntBlank(w + s);
      BlankStripsToEmpty(w + s);
      BlankStripsToEmpty(s);
    } else {
      assert s == e + s[|e|..];
      assert w + s == (w + e) + s[|e|..];
      StripEndBlankSuffix(w + e, s[|e|..]);
      StripEndBlankSuffix(e, s[|e|..]);
      StripStartBlankPrefix(w, e);
    }
  }

  /**
   * `int()` does not skip the ASCII separators that `str.isspace` accepts:
   * `int("\x1c5")` and `int("5\x1f")` raise, as does a separator between sign
   * and digits.
   */
  lemma SeparatorsNotSkipped()
    ensures ParseInt("\U{1C}5") == None
    ensures ParseInt("5\U{1F}") == None
    ensures ParseInt("-\U{1C}5") == None
  {
    StripTrimmed("\U{1C}5");
    StripTrimmed("5\U{1F}");
    StripTrimmed("-\U{1C}5");
    assert "-\U{1C}5"[1..] == "\U{1C}5";
  }

  lemma BlankStripsToEmpty(s: string)
    requires IntBlank(s)
    ensures Strip(s) == []
  {
    var e := StripEnd(s);
    StripEndShape(s);
    assert e == s[..|e|];
  }

  /** The score the templates ask for in a no-issue reply, as the regex captures it, is still the integer 0. */
  lemma SpacedZeroIsZero()
    ensures ParseInt(" 0") == Some(0)
    ensures ParseInt("0") == Some(0)
  {
    ParseDecimal(0);
    assert Decimal(0) == "0";
    ParseIgnoresLeadingSpace(" ", "0");
    assert " " + "0" == " 0";
  }
}
