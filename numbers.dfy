/**
 * Decimal and hexadecimal text for integers: Python's `str(n)` for a natural number, the
 * value of a digit string, Python's lenient `int(s)` and the `02x` format.
 */
module Numbers {
  import opened Wrappers
  import opened Text

  predicate IsDigit(c: char)
  {
    '0' <= c <= '9'
  }

  predicate AllDigits(s: string)
  {
    forall i :: 0 <= i < |s| ==> IsDigit(s[i])
  }

  function DigitValue(c: char): (d: nat)
    requires IsDigit(c)
    ensures d < 10
  {
    (c as int) - ('0' as int)
  }

  function DigitChar(d: nat): (c: char)
    requires d < 10
    ensures IsDigit(c) && DigitValue(c) == d
  {
    (('0' as int) + d) as char
  }

  /** The number a string of decimal digits denotes (most significant first). */
  function DigitsValue(s: string): nat
    requires AllDigits(s)
  {
    if |s| == 0 then 0 else DigitsValue(s[..|s| - 1]) * 10 + DigitValue(s[|s| - 1])
  }

  /** Python's `str(n)` for `n >= 0`: decimal, no leading zeros. */
  function NatToString(n: nat): (r: string)
    ensures |r| >= 1 && AllDigits(r)
    decreases n
  {
    if n < 10 then [DigitChar(n)] else NatToString(n / 10) + [DigitChar(n % 10)]
  }

  /** Reading back what `str` wrote gives the number. */
  lemma {:induction false} NatToStringValue(n: nat)
    ensures DigitsValue(NatToString(n)) == n
    decreases n
  {
    if n >= 10 {
      var s := NatToString(n);
      NatToStringValue(n / 10);
      assert s[..|s| - 1] == NatToString(n / 10);
    }
  }

  /** `str(n)` has no leading zero, and is `"0"` exactly for zero. */
  lemma {:induction false} NatToStringCanonical(n: nat)
    ensures n == 0 <==> NatToString(n) == "0"
    ensures NatToString(n)[0] != '0' || n == 0
    decreases n
  {
    if n >= 10 {
      NatToStringCanonical(n / 10);
      assert NatToString(n)[0] == NatToString(n / 10)[0];
    }
  }

  /** `str(n)` has at most three digits below 1000. */
  lemma NatToStringShort(n: nat)
    requires n < 1000
    ensures |NatToString(n)| <= 3
  {
    if n >= 10 {
      assert |NatToString(n / 10)| <= 2 by {
        if n / 10 >= 10 { assert NatToString(n / 10) == NatToString(n / 100) + [DigitChar(n / 10 % 10)]; }
      }
    }
  }

  lemma {:induction false} DigitsValuePositive(s: string)
    requires |s| >= 1 && AllDigits(s) && s[0] != '0'
    ensures DigitsValue(s) >= 1
    decreases |s|
  {
    if |s| > 1 {
      DigitsValuePositive(s[..|s| - 1]);
    }
  }

  /** A digit string without a leading zero is what `str` writes for its value. */
  lemma {:induction false} CanonicalDigits(s: string)
    requires |s| >= 1 && AllDigits(s)
    requires s[0] != '0' || s == "0"
    ensures NatToString(DigitsValue(s)) == s
    decreases |s|
  {
    var v := DigitsValue(s);
    if |s| == 1 {
      assert s[..|s| - 1] == [];
      assert v == DigitsValue(s[..|s| - 1]) * 10 + DigitValue(s[0]);
      assert NatToString(v) == [DigitChar(v)];
    } else {
      var p := s[..|s| - 1];
      DigitsValuePositive(p);
      CanonicalDigits(p);
      assert v / 10 == DigitsValue(p) && v % 10 == DigitValue(s[|s| - 1]);
      assert s == p + [s[|s| - 1]];
    }
  }

  /** Digits with single underscores between them, as Python's `int()` accepts them. */
  predicate IsGroupedDigits(s: string)
  {
    && |s| > 0
    && IsDigit(s[0]) && IsDigit(s[|s| - 1])
    && (forall i :: 0 <= i < |s| ==> IsDigit(s[i]) || s[i] == '_')
    && (forall i :: 0 <= i < |s| - 1 && s[i] == '_' ==> s[i + 1] != '_')
  }

  /**
   * The whitespace `int()` ignores around a number. CPython maps non-ASCII whitespace to a space
   * and then skips only ASCII space, tab, line feed, vertical tab, form feed and carriage
   * return, so the separators U+001C to U+001F, which `str.strip()` drops, stay and make the
   * text invalid.
   */
  predicate IsIntSpace(c: char)
  {
    IsSpace(c) && !('\U{1C}' <= c <= '\U{1F}')
  }

  /** The leading whitespace `int()` skips. */
  function IntLStrip(s: string): (r: string)
    ensures |r| <= |s| && r == s[|s| - |r|..]
    ensures forall i :: 0 <= i < |s| - |r| ==> IsIntSpace(s[i])
    ensures r == [] || !IsIntSpace(r[0])
  {
    if |s| > 0 && IsIntSpace(s[0]) then IntLStrip(s[1..]) else s
  }

  /** The trailing whitespace `int()` skips. */
  function IntRStrip(s: string): (r: string)
    ensures |r| <= |s| && r == s[..|r|]
    ensures forall i :: |r| <= i < |s| ==> IsIntSpace(s[i])
    ensures r == [] || !IsIntSpace(r[|r| - 1])
  {
    if |s| > 0 && IsIntSpace(s[|s| - 1]) then IntRStrip(s[..|s| - 1]) else s
  }

  /** What `int()` reads once the surrounding whitespace is skipped. */
  function IntStrip(s: string): (r: string)
    ensures r == [] || (!IsIntSpace(r[0]) && !IsIntSpace(r[|r| - 1]))
  {
    IntRStrip(IntLStrip(s))
  }

  /**
   * Python's `int(s)` in base 10 over ASCII digits: surrounding whitespace is ignored, one
   * optional sign, then digits that may be grouped by single underscores; anything else is a
   * `ValueError`, modelled as `None`.
   */
  function PyInt(s: string): Option<int>
  {
    SignedValue(IntStrip(s))
  }

  /** `int()` after the strip: an optional sign, then grouped digits. */
  function SignedValue(t: string): Option<int>
  {
    if |t| > 0 && t[0] == '-' then
      match GroupedValue(t[1..])
      case Some(v) => Some(-v)
      case None => None
    else if |t| > 0 && t[0] == '+' then GroupedValue(t[1..])
    else GroupedValue(t)
  }

  /** The value of digits grouped by single underscores, or `None` if the text is not such digits. */
  function GroupedValue(body: string): Option<int>
  {
    if IsGroupedDigits(body) then
      var digits := RemoveChar(body, '_');
      assert AllDigits(digits);
      Some(DigitsValue(digits))
    else None
  }

  /** A string with no white space at either end is its own strip. */
  lemma StripUnpadded(s: string)
    requires |s| > 0 && !IsSpace(s[0]) && !IsSpace(s[|s| - 1])
    ensures Strip(s) == s
  {
    assert LStrip(s) == s;
    assert RStrip(s) == s;
  }

  /** `int()` skips nothing of a string that has none of its whitespace at either end. */
  lemma IntStripUnpadded(s: string)
    requires |s| > 0 && !IsIntSpace(s[0]) && !IsIntSpace(s[|s| - 1])
    ensures IntStrip(s) == s
  {
    assert IntLStrip(s) == s;
    assert IntRStrip(s) == s;
  }

  /**
   * On a blank-free field, as `split()` produces, `int()` reads the field itself, so the
   * narrower whitespace of `int()` makes no difference there.
   */
  lemma PyIntOfField(s: string)
    requires |s| > 0 && NoSpace(s)
    ensures PyInt(s) == SignedValue(s) == SignedValue(Strip(s))
  {
    StripUnpadded(s);
    IntStripUnpadded(s);
  }

  /** Outside a field the two differ: `int()` refuses a leading U+001C that `strip()` drops. */
  lemma IntKeepsSeparator()
    ensures Strip(['\U{1C}', '5']) == "5"
    ensures PyInt(['\U{1C}', '5']).None?
  {
    var s := ['\U{1C}', '5'];
    assert s[1..] == "5";
    assert LStrip("5") == "5";
    assert LStrip(s) == "5";
    assert RStrip("5") == "5";
    IntStripUnpadded(s);
    assert !IsDigit(s[0]);
  }

  /** A plain digit string is a valid group of digits, worth its digit value. */
  lemma DigitsGrouped(s: string)
    requires |s| >= 1 && AllDigits(s)
    ensures GroupedValue(s) == Some(DigitsValue(s))
  {
    assert '_' !in s;
    assert IsGroupedDigits(s);
  }

  /** The value `int()` gives to a plain digit string. */
  lemma PyIntOfDigits(s: string)
    requires |s| >= 1 && AllDigits(s)
    ensures PyInt(s) == Some(DigitsValue(s))
  {
    assert IsDigit(s[0]) && IsDigit(s[|s| - 1]);
    IntStripUnpadded(s);
    DigitsGrouped(s);
  }

  /** `int()` accepts a leading plus sign on a plain digit string. */
  lemma PyIntOfPlusDigits(s: string)
    requires |s| >= 1 && AllDigits(s)
    ensures PyInt(['+'] + s) == Some(DigitsValue(s))
  {
    var t := ['+'] + s;
    assert !IsIntSpace(t[0]) && !IsIntSpace(t[|t| - 1]) by {
      assert t[|t| - 1] == s[|s| - 1] && IsDigit(s[|s| - 1]);
    }
    IntStripUnpadded(t);
    assert t[0] == '+' && t[1..] == s;
    DigitsGrouped(s);
  }

  /** `int()` of what `str` writes gives the number back. */
  lemma PyIntOfNatToString(n: nat)
    ensures PyInt(NatToString(n)) == Some(n)
  {
    PyIntOfDigits(NatToString(n));
    NatToStringValue(n);
  }

  /** The hex digit for `d`, as `"0123456789abcdef"[d]`. */
  function HexDigit(d: nat): (c: char)
    requires d < 16
    ensures IsLowerHex(c) && HexValue(c) == d
  {
    if d < 10 then (('0' as int) + d) as char else (('a' as int) + d - 10) as char
  }

  predicate IsLowerHex(c: char)
  {
    ('0' <= c <= '9') || ('a' <= c <= 'f')
  }

  function HexValue(c: char): nat
    requires IsLowerHex(c)
  {
    if c <= '9' then (c as int) - ('0' as int) else (c as int) - ('a' as int) + 10
  }

  /** Python's `f"{x:02x}"` for a byte: two lower-case hex digits, zero padded. */
  function Hex2(x: nat): (r: string)
    requires x < 256
    ensures |r| == 2 && IsLowerHex(r[0]) && IsLowerHex(r[1])
    ensures 16 * HexValue(r[0]) + HexValue(r[1]) == x
  {
    [HexDigit(x / 16), HexDigit(x % 16)]
  }
}
