/** Python's `int(s)` on a text value, base 10: surrounding whitespace is
    stripped, one optional sign is allowed, and the digits may be grouped by
    single underscores that stand between two digits (`"1_000"`), and there
    are at most `MaxStrDigits` digits. Anything else raises `ValueError`,
    modelled here as `None`. */
module PyInt {
  import opened Wrappers

  /** The default bound on the number of digits `int()` converts from text
      (`sys.int_info.default_max_str_digits`, Python 3.11 onwards); a longer
      digit run raises `ValueError`. Underscores do not count. */
  const MaxStrDigits: nat := 4300

  /** The ASCII whitespace `int()` strips: space, tab, line feed, vertical
      tab, form feed and carriage return. The separators 0x1c-0x1f, which
      `str.isspace()` accepts, are not stripped. */
  predicate IsSpace(c: char) {
    c == ' ' || 9 <= c as int <= 13
  }

  predicate IsDigit(c: char) {
    '0' <= c <= '9'
  }

  function DigitValue(c: char): (d: nat)
    requires IsDigit(c)
    ensures d < 10
  {
    c as int - '0' as int
  }

  function DigitChar(d: nat): (c: char)
    requires d < 10
    ensures IsDigit(c) && DigitValue(c) == d
  {
    ('0' as int + d) as char
  }

  function StripLeft(s: string): (r: string)
    ensures |r| <= |s|
    ensures |r| > 0 ==> !IsSpace(r[0])
  {
    if |s| > 0 && IsSpace(s[0]) then StripLeft(s[1..]) else s
  }

  function StripRight(s: string): (r: string)
    ensures |r| <= |s|
    ensures |r| > 0 ==> !IsSpace(r[|r| - 1])
  {
    if |s| > 0 && IsSpace(s[|s| - 1]) then StripRight(s[..|s| - 1]) else s
  }

  /** `s.strip()` for the ASCII whitespace. */
  function Strip(s: string): string {
    StripRight(StripLeft(s))
  }

  /** A run of digits in which each underscore stands between two digits. */
  predicate IsDigitGroups(s: string) {
    && |s| > 0
    && IsDigit(s[0])
    && IsDigit(s[|s| - 1])
    && (forall i :: 0 <= i < |s| ==> IsDigit(s[i]) || s[i] == '_')
    && (forall i :: 0 <= i < |s| - 1 ==> s[i] == '_' ==> s[i + 1] != '_')
  }

  function Digits(s: string): (r: string)
    ensures |r| <= |s|
  {
    if |s| == 0 then ""
    else if s[0] == '_' then Digits(s[1..])
    else [s[0]] + Digits(s[1..])
  }

  /** The number a run of decimal digits denotes, most significant first. */
  function DigitsValue(s: string): nat
    requires forall i :: 0 <= i < |s| ==> IsDigit(s[i])
  {
    if |s| == 0 then 0 else DigitsValue(s[..|s| - 1]) * 10 + DigitValue(s[|s| - 1])
  }

  lemma DigitsOnlyDigits(s: string)
    requires forall i :: 0 <= i < |s| ==> IsDigit(s[i]) || s[i] == '_'
    ensures forall i :: 0 <= i < |Digits(s)| ==> IsDigit(Digits(s)[i])
  {
    if |s| > 0 {
      DigitsOnlyDigits(s[1..]);
    }
  }

  /** `int(s)`: `None` where Python raises `ValueError`. */
  function ParseInt(s: string): Option<int> {
    ParseStripped(Strip(s))
  }

  /** `int()` after the whitespace is gone: an optional sign, then digit groups. */
  function ParseStripped(t: string): Option<int> {
    if |t| == 0 then None
    else if t[0] == '-' then
      match ParseUnsigned(t[1..])
      case Some(n) => Some(-n)
      case None => None
    else if t[0] == '+' then ParseUnsigned(t[1..])
    else ParseUnsigned(t)
  }

  function ParseUnsigned(body: string): Option<int> {
    if !IsDigitGroups(body) || |Digits(body)| > MaxStrDigits then None
    else
      DigitsOnlyDigits(body);
      Some(DigitsValue(Digits(body)))
  }

  /** `str(n)` for an integer: the canonical decimal text. */
  function ShowNat(n: nat): (r: string)
    ensures |r| > 0
    ensures forall i :: 0 <= i < |r| ==> IsDigit(r[i])
  {
    if n < 10 then [DigitChar(n)] else ShowNat(n / 10) + [DigitChar(n % 10)]
  }

  function Show(n: int): (r: string) {
    if n < 0 then "-" + ShowNat(-n) else ShowNat(n)
  }

  lemma {:induction false} ShowNatValue(n: nat)
    ensures DigitsValue(ShowNat(n)) == n
  {
    if n >= 10 {
      var s := ShowNat(n);
      assert s[..|s| - 1] == ShowNat(n / 10);
      ShowNatValue(n / 10);
    }
  }

  lemma {:induction false} DigitsOfDigitRun(s: string)
    requires forall i :: 0 <= i < |s| ==> IsDigit(s[i])
    ensures Digits(s) == s
  {
    if |s| > 0 {
      DigitsOfDigitRun(s[1..]);
    }
  }

  lemma StripUnspaced(s: string)
    requires |s| > 0 && !IsSpace(s[0]) && !IsSpace(s[|s| - 1])
    ensures Strip(s) == s
  {
  }

  /** A run of digits within the limit parses to the number it denotes. */
  lemma ParseDigitRun(digits: string)
    requires 0 < |digits| <= MaxStrDigits
    requires forall i :: 0 <= i < |digits| ==> IsDigit(digits[i])
    ensures ParseUnsigned(digits) == Some(DigitsValue(digits))
  {
    assert IsDigitGroups(digits);
    DigitsOfDigitRun(digits);
  }

  /** `int(str(n)) == n`: the decimal text of every integer of at most
      `MaxStrDigits` digits parses back to it; a longer text is rejected. */
  lemma ParseShow(n: int)
    ensures ParseInt(Show(n)) == if |ShowNat(if n < 0 then -n else n)| <= MaxStrDigits then Some(n) else None
  {
    var m: nat := if n < 0 then -n else n;
    var digits := ShowNat(m);
    var s := Show(n);
    assert !IsSpace(s[0]) && !IsSpace(s[|s| - 1]);
    StripUnspaced(s);
    if n < 0 {
      assert s[1..] == digits;
    }
    if |digits| <= MaxStrDigits {
      ParseDigitRun(digits);
      ShowNatValue(m);
    } else {
      DigitsOfDigitRun(digits);
    }
  }

  /** A run of more than `MaxStrDigits` digits is rejected, with or without
      a sign. */
  lemma LongDigitRunFails(digits: string)
    requires |digits| > MaxStrDigits
    requires forall i :: 0 <= i < |digits| ==> IsDigit(digits[i])
    ensures ParseInt(digits) == None
    ensures ParseInt("-" + digits) == None
  {
    var signed := "-" + digits;
    StripUnspaced(digits);
    StripUnspaced(signed);
    assert signed[1..] == digits;
    DigitsOfDigitRun(digits);
  }

  lemma DigitsValueOfYears()
    ensures DigitsValue("2021") == 2021
    ensures DigitsValue("2022") == 2022
  {
    assert "2021"[..3] == "202";
    assert "2022"[..3] == "202";
    assert "202"[..2] == "20";
    assert "20"[..1] == "2";
  }

  /** Year text as a user might enter it parses to that year. */
  lemma YearTextParses()
    ensures ParseInt("2021") == Some(2021)
  {
    DigitsValueOfYears();
    StripUnspaced("2021");
    ParseDigitRun("2021");
  }

  /** Surrounding whitespace is ignored. */
  lemma PaddedYearTextParses()
    ensures ParseInt(" 2022\n") == Some(2022)
  {
    DigitsValueOfYears();
    assert StripLeft(" 2022\n") == "2022\n" by {
      assert " 2022\n"[1..] == "2022\n";
    }
    assert StripRight("2022\n") == "2022" by {
      assert "2022\n"[..4] == "2022";
    }
    ParseDigitRun("2022");
  }

  /** Single underscores between digits are ignored. */
  lemma GroupedYearTextParses()
    ensures ParseInt("2_021") == Some(2021)
  {
    DigitsValueOfYears();
    StripUnspaced("2_021");
    assert IsDigitGroups("2_021");
    assert Digits("2_021") == "2021" by {
      assert "2_021"[1..] == "_021";
      assert "_021"[1..] == "021";
      assert "021"[1..] == "21";
      assert "21"[1..] == "1";
    }
  }

  /** Text that is no integer makes `int()` fail. */
  lemma NonIntegerTextFails()
    ensures ParseInt("abc") == None
    ensures ParseInt("") == None
    ensures ParseInt("20__21") == None
  {
    StripUnspaced("abc");
    assert !IsDigitGroups("abc");
    StripUnspaced("20__21");
    assert !IsDigitGroups("20__21") by {
      assert "20__21"[2] == '_' && "20__21"[3] == '_';
    }
  }

  /** An information separator around the digits is not whitespace to
      `int()`: the text is rejected. */
  lemma SeparatorIsNotStripped()
    ensures ParseInt([28 as char] + "2021") == None
    ensures ParseInt("2021" + [31 as char]) == None
  {
    var lead := [28 as char] + "2021";
    var trail := "2021" + [31 as char];
    StripUnspaced(lead);
    StripUnspaced(trail);
    assert !IsDigitGroups(lead);
    assert !IsDigitGroups(trail) by {
      assert trail[|trail| - 1] == 31 as char;
    }
  }
}
