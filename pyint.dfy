/**
 * Python's `int(text)` on the pose-count field, for ASCII text: surrounding
 * whitespace is stripped, an optional sign is read, and the rest must be decimal
 * digits in which single underscores may separate digits. Anything else raises
 * `ValueError`, modelled as `None`. A numeral of more than `MaxStrDigits` digits
 * raises too: CPython's default limit on integer string conversion.
 */
module PyInt {
  import opened Wrappers
  import opened Naming

  /**
   * ASCII whitespace `int()` strips around its argument: \t \n \v \f \r and space.
   * (Unlike `str.isspace()`, it does not strip the separators 0x1C-0x1F.)
   */
  predicate IsSpace(c: char) { 9 <= c as int <= 13 || c == ' ' }

  /** `sys.get_int_max_str_digits()` by default: `int()` and `str()` refuse longer numerals. */
  const MaxStrDigits := 4300

  function StripLeading(s: string): (t: string)
    ensures |t| <= |s| && t == s[|s| - |t|..]
    ensures t == [] || !IsSpace(t[0])
  {
    if s != [] && IsSpace(s[0]) then StripLeading(s[1..]) else s
  }

  function StripTrailing(s: string): (t: string)
    ensures |t| <= |s| && t == s[..|t|]
    ensures t == [] || !IsSpace(t[|t| - 1])
  {
    if s != [] && IsSpace(s[|s| - 1]) then StripTrailing(s[..|s| - 1]) else s
  }

  /** `str.strip()`. */
  function Strip(s: string): string
  {
    StripTrailing(StripLeading(s))
  }

  /** Digits where each underscore stands between two digits (`\d(_?\d)*`). */
  predicate IsDigitGroup(s: string)
  {
    && |s| > 0 && IsDigit(s[0]) && IsDigit(s[|s| - 1])
    && (forall i :: 0 <= i < |s| ==> IsDigit(s[i]) || s[i] == '_')
    && NoDoubleUnderscore(s)
  }

  predicate NoDoubleUnderscore(s: string)
  {
    forall i :: 0 <= i < |s| - 1 ==> !(s[i] == '_' && s[i + 1] == '_')
  }

  function RemoveUnderscores(s: string): (t: string)
    ensures |t| <= |s|
  {
    if s == [] then []
    else (if s[0] == '_' then [] else [s[0]]) + RemoveUnderscores(s[1..])
  }

  /** A digit group `int()` converts: at most `MaxStrDigits` digits, underscores not counted. */
  predicate IsNumeral(s: string)
  {
    IsDigitGroup(s) && |RemoveUnderscores(s)| <= MaxStrDigits
  }

  function GroupValue(s: string): int
    requires IsDigitGroup(s)
  {
    RemoveUnderscoresDigits(s);
    ValueOf(RemoveUnderscores(s))
  }

  /** `int(text)` in base 10: `Some(value)`, or `None` where Python raises `ValueError`. */
  function ParseInt(text: string): (r: Option<int>)
    ensures r.Some? ==>
      var t := Strip(text);
      && |t| > 0 && (IsDigit(t[0]) || t[0] == '+' || t[0] == '-') && IsDigit(t[|t| - 1])
      && (forall i :: 1 <= i < |t| ==> IsDigit(t[i]) || t[i] == '_')
  {
    ParseSigned(Strip(text))
  }

  /** An optional sign followed by a digit group. */
  function ParseSigned(t: string): Option<int>
  {
    if |t| > 0 && (t[0] == '+' || t[0] == '-') then
      if IsNumeral(t[1..]) then
        Some(if t[0] == '-' then -GroupValue(t[1..]) else GroupValue(t[1..]))
      else None
    else if IsNumeral(t) then Some(GroupValue(t))
    else None
  }

  /** `str(n)`: a minus sign for negative numbers, then the decimal digits. */
  function IntText(n: int): string
  {
    if n < 0 then "-" + Digits(-n) else Digits(n)
  }

  // ---------------------------------------------------------------------------

  lemma {:induction false} RemoveUnderscoresDigits(s: string)
    requires forall i :: 0 <= i < |s| ==> IsDigit(s[i]) || s[i] == '_'
    ensures AllDigits(RemoveUnderscores(s))
  {
    if s != [] {
      RemoveUnderscoresDigits(s[1..]);
    }
  }

  lemma {:induction false} RemoveUnderscoresNone(s: string)
    requires AllDigits(s)
    ensures RemoveUnderscores(s) == s
  {
    if s != [] {
      RemoveUnderscoresNone(s[1..]);
    }
  }

  /** Stripping leaves text that neither starts nor ends with whitespace unchanged. */
  lemma StripNoSpace(s: string)
    requires s == [] || (!IsSpace(s[0]) && !IsSpace(s[|s| - 1]))
    ensures Strip(s) == s
  {
  }

  /** Stripping removes any amount of surrounding whitespace around such text. */
  lemma StripSurrounded(a: string, s: string, b: string)
    requires forall i :: 0 <= i < |a| ==> IsSpace(a[i])
    requires forall i :: 0 <= i < |b| ==> IsSpace(b[i])
    requires s != [] && !IsSpace(s[0]) && !IsSpace(s[|s| - 1])
    ensures Strip(a + s + b) == s
  {
    assert a + s + b == a + (s + b);
    StripLeadingSpaces(a, s + b);
    StripTrailingSpaces(s, b);
  }

  lemma {:induction false} StripLeadingSpaces(a: string, s: string)
    requires forall i :: 0 <= i < |a| ==> IsSpace(a[i])
    requires s != [] && !IsSpace(s[0])
    ensures StripLeading(a + s) == s
    decreases |a|
  {
    if a != [] {
      assert (a + s)[0] == a[0] && IsSpace(a[0]);
      assert (a + s)[1..] == a[1..] + s;
      assert StripLeading(a + s) == StripLeading(a[1..] + s);
      StripLeadingSpaces(a[1..], s);
    } else {
      assert a + s == s;
    }
  }

  lemma {:induction false} StripTrailingSpaces(s: string, b: string)
    requires forall i :: 0 <= i < |b| ==> IsSpace(b[i])
    requires s != [] && !IsSpace(s[|s| - 1])
    ensures StripTrailing(s + b) == s
    decreases |b|
  {
    if b != [] {
      assert (s + b)[..|s + b| - 1] == s + b[..|b| - 1];
      StripTrailingSpaces(s, b[..|b| - 1]);
    } else {
      assert s + b == s;
    }
  }

  /** `int(str(n)) == n` for every integer `n` that `str` converts. */
  lemma ParseIntRoundTrip(n: int)
    requires |Digits(if n < 0 then -n else n)| <= MaxStrDigits
    ensures ParseInt(IntText(n)) == Some(n)
  {
    var t := IntText(n);
    assert t[0] == '-' || IsDigit(t[0]);
    assert IsDigit(t[|t| - 1]);
    StripNoSpace(t);
    ParseSignedIntText(n);
  }

  lemma ParseSignedIntText(n: int)
    requires |Digits(if n < 0 then -n else n)| <= MaxStrDigits
    ensures ParseSigned(IntText(n)) == Some(n)
  {
    var m := if n < 0 then -n else n;
    var d := Digits(m);
    RemoveUnderscoresNone(d);
    ValueOfDigits(m);
    assert GroupValue(d) == m;
    if n < 0 {
      assert IntText(n)[1..] == d;
    }
  }

  /** `int` ignores surrounding whitespace: `int(" 12\n") == 12`. */
  lemma ParseIntSurroundedBySpace(a: string, n: int, b: string)
    requires |Digits(if n < 0 then -n else n)| <= MaxStrDigits
    requires forall i :: 0 <= i < |a| ==> IsSpace(a[i])
    requires forall i :: 0 <= i < |b| ==> IsSpace(b[i])
    ensures ParseInt(a + IntText(n) + b) == Some(n)
  {
    var t := IntText(n);
    assert t[0] == '-' || IsDigit(t[0]);
    assert IsDigit(t[|t| - 1]);
    StripSurrounded(a, t, b);
    ParseSignedIntText(n);
  }

  /** Text that is empty or only whitespace is not a number: `int("")` raises. */
  lemma {:induction false} ParseIntBlank(text: string)
    requires forall i :: 0 <= i < |text| ==> IsSpace(text[i])
    ensures ParseInt(text) == None
    decreases |text|
  {
    if text != [] {
      assert StripLeading(text) == StripLeading(text[1..]);
      ParseIntBlank(text[1..]);
    }
  }

  lemma ParseIntSpacedExample()
    ensures ParseInt(" 7\n") == Some(7)
  {
    assert " 7\n" == " " + IntText(7) + "\n";
    ParseIntSurroundedBySpace(" ", 7, "\n");
  }

  /** The file separator 0x1C is not whitespace to `int()`: `int("\x1c7")` raises. */
  lemma ParseIntSeparatorExample()
    ensures ParseInt("\U{1C}7") == None
  {
    assert !IsSpace('\U{1C}');
    assert Strip("\U{1C}7") == "\U{1C}7";
  }

  lemma {:induction false} RemoveUnderscoresConcat(x: string, y: string)
    ensures RemoveUnderscores(x + y) == RemoveUnderscores(x) + RemoveUnderscores(y)
    decreases |x|
  {
    if x == [] {
      assert x + y == y;
    } else {
      assert (x + y)[1..] == x[1..] + y;
      RemoveUnderscoresConcat(x[1..], y);
    }
  }

  /** Digits, one underscore, digits: a well-formed group. */
  lemma DigitGroupJoin(a: string, b: string)
    requires |a| > 0 && |b| > 0 && AllDigits(a) && AllDigits(b)
    ensures IsDigitGroup(a + "_" + b)
  {
    var t := a + "_" + b;
    assert t[0] == a[0] && t[|t| - 1] == b[|b| - 1];
    forall i | 0 <= i < |t| ensures IsDigit(t[i]) || t[i] == '_' {
      if i < |a| {
        assert t[i] == a[i];
      } else if i > |a| {
        assert t[i] == b[i - |a| - 1];
      }
    }
    forall i | 0 <= i < |t| - 1 ensures !(t[i] == '_' && t[i + 1] == '_') {
      if i < |a| {
        assert t[i] == a[i];
      } else {
        assert t[i + 1] == b[i - |a|];
      }
    }
  }

  lemma RemoveUnderscoresJoin(a: string, b: string)
    requires AllDigits(a) && AllDigits(b)
    ensures RemoveUnderscores(a + "_" + b) == a + b
  {
    var u: string := ['_'];
    assert a + "_" + b == (a + u) + b;
    RemoveUnderscoresConcat(a + u, b);
    RemoveUnderscoresConcat(a, u);
    RemoveUnderscoresNone(a);
    RemoveUnderscoresNone(b);
    assert RemoveUnderscores(u) == [] by { assert u[1..] == []; }
    assert a + [] == a;
  }

  /** Two runs of digits joined by one underscore read as the digits without it: `int("1_000") == 1000`. */
  lemma ParseIntUnderscore(a: string, b: string)
    requires |a| > 0 && |b| > 0 && AllDigits(a) && AllDigits(b)
    requires |a| + |b| <= MaxStrDigits
    ensures AllDigits(a + b) && ParseInt(a + "_" + b) == Some(ValueOf(a + b))
  {
    var t := a + "_" + b;
    assert t[0] == a[0] && t[|t| - 1] == b[|b| - 1];
    StripNoSpace(t);
    DigitGroupJoin(a, b);
    RemoveUnderscoresJoin(a, b);
  }

  /** A character other than a digit or `_` after the first makes `int()` raise: "ten", "1.5", "1 2". */
  lemma ParseIntRejectsStrayChar(text: string, i: nat)
    requires 1 <= i < |Strip(text)| && !IsDigit(Strip(text)[i]) && Strip(text)[i] != '_'
    ensures ParseInt(text) == None
  {
    var s := Strip(text);
    if s[0] == '+' || s[0] == '-' {
      assert s[1..][i - 1] == s[i];
    }
  }

  /**
   * An underscore that does not stand between two digits makes `int()` raise:
   * "_1", "1_", "1__0", "-_1".
   */
  lemma ParseIntRejectsLooseUnderscore(text: string, i: nat)
    requires i < |Strip(text)| && Strip(text)[i] == '_'
    requires !(0 < i < |Strip(text)| - 1 && IsDigit(Strip(text)[i - 1]) && IsDigit(Strip(text)[i + 1]))
    ensures ParseInt(text) == None
  {
    var s := Strip(text);
    var signed := s[0] == '+' || s[0] == '-';
    var g := if signed then s[1..] else s;
    var j := if signed then i - 1 else i;
    assert g[j] == '_';
    if 0 < j < |g| - 1 {
      assert g[j - 1] == s[i - 1] && g[j + 1] == s[i + 1];
      if !IsDigit(g[j - 1]) && g[j - 1] == '_' {
        assert !NoDoubleUnderscore(g) by { assert g[j - 1] == '_' && g[j] == '_'; }
      } else if !IsDigit(g[j + 1]) && g[j + 1] == '_' {
        assert !NoDoubleUnderscore(g) by { assert g[j] == '_' && g[j + 1] == '_'; }
      }
    }
    assert !IsDigitGroup(g);
  }

  /**
   * More than `MaxStrDigits` digits make `int()` raise, whatever the sign and the
   * surrounding whitespace: the digit limit is checked after the text is read.
   */
  lemma ParseIntTooManyDigits(a: string, sign: string, d: string, b: string)
    requires forall i :: 0 <= i < |a| ==> IsSpace(a[i])
    requires forall i :: 0 <= i < |b| ==> IsSpace(b[i])
    requires sign == "" || sign == "+" || sign == "-"
    requires AllDigits(d) && |d| > MaxStrDigits
    ensures ParseInt(a + sign + d + b) == None
  {
    var t := sign + d;
    assert t[0] == '+' || t[0] == '-' || IsDigit(t[0]);
    assert t[|t| - 1] == d[|d| - 1];
    assert a + sign + d + b == a + t + b;
    StripSurrounded(a, t, b);
    RemoveUnderscoresNone(d);
    if sign != "" {
      assert t[1..] == d;
    } else {
      assert t == d;
    }
  }
}
