/**
 * Decimal text for integers, as Python produces and reads it:
 * `str(n)` (also what `json.dump` writes for an integer key), `int(s)`,
 * the `:03d` zero padding of the capture tool and the `:.1f` formatting
 * of a confidence held as a whole number of tenths.
 */
module Decimal {
  import opened Common

  predicate IsDigit(c: char)
  {
    '0' <= c <= '9'
  }

  predicate AllDigits(s: string)
  {
    forall i :: 0 <= i < |s| ==> IsDigit(s[i])
  }

  function DigitValue(c: char): (d: nat)
    requires IsDigit(c)
    ensures d < 10
  {
    c as int - '0' as int
  }

  function DigitChar(d: nat): (c: char)
    requires d < 10
    ensures IsDigit(c) && DigitValue(c) == d
  {
    ('0' as int + d) as char
  }

  /** The value of a string of decimal digits, read most significant first (leading zeros allowed). */
  function DigitsValue(s: string): nat
    requires AllDigits(s)
  {
    if s == [] then 0 else DigitsValue(s[..|s| - 1]) * 10 + DigitValue(s[|s| - 1])
  }

  /** `str(n)` for a non-negative integer: the shortest decimal spelling, no leading zero. */
  function NatToString(n: nat): (s: string)
    ensures 1 <= |s| && AllDigits(s)
    ensures s[0] == '0' ==> n == 0 && s == "0"
    decreases n
  {
    if n < 10 then [DigitChar(n)] else NatToString(n / 10) + [DigitChar(n % 10)]
  }

  lemma {:induction false} NatToStringValue(n: nat)
    ensures DigitsValue(NatToString(n)) == n
    decreases n
  {
    var s := NatToString(n);
    if n >= 10 {
      NatToStringValue(n / 10);
      assert s[..|s| - 1] == NatToString(n / 10);
    }
  }

  /** Fewer than 1000 needs at most three digits. */
  lemma NatToStringShort(n: nat)
    requires n < 1000
    ensures |NatToString(n)| <= 3
  {
    if n >= 10 {
      assert |NatToString(n)| == |NatToString(n / 10)| + 1;
      if n / 10 >= 10 {
        assert |NatToString(n / 10)| == |NatToString(n / 10 / 10)| + 1;
      }
    }
  }

  /** `str(i)` for any integer. */
  function IntToString(i: int): string
  {
    if i < 0 then "-" + NatToString(-i) else NatToString(i)
  }

  /**
   * `int(s)` restricted to the spellings an optional '-' followed by one or
   * more digits; anything else is the ValueError Python raises.
   */
  function ParseInt(s: string): (r: Option<int>)
    ensures r.Some? ==> 1 <= |s|
  {
    if |s| >= 2 && s[0] == '-' && AllDigits(s[1..]) then Some(-(DigitsValue(s[1..]) as int))
    else if |s| >= 1 && AllDigits(s) then Some(DigitsValue(s))
    else None
  }

  /** Integer keys survive `str` followed by `int`. */
  lemma ParseIntToString(i: int)
    ensures ParseInt(IntToString(i)) == Some(i)
  {
    var s := IntToString(i);
    if i < 0 {
      assert s[1..] == NatToString(-i);
      NatToStringValue(-i);
    } else {
      NatToStringValue(i);
    }
  }

  lemma IntToStringInjective(a: int, b: int)
    requires IntToString(a) == IntToString(b)
    ensures a == b
  {
    ParseIntToString(a);
    ParseIntToString(b);
  }

  /** `f"{n:0{width}d}"` for a non-negative n: left-padded with '0' up to `width` characters. */
  function ZeroPad(s: string, width: nat): (r: string)
    ensures |r| == if |s| < width then width else |s|
  {
    if |s| < width then seq(width - |s|, _ => '0') + s else s
  }

  lemma {:induction false} ZerosValue(z: string)
    requires forall i :: 0 <= i < |z| ==> z[i] == '0'
    ensures AllDigits(z) && DigitsValue(z) == 0
  {
    if z != [] {
      ZerosValue(z[..|z| - 1]);
    }
  }

  /** Leading zeros do not change the value of a digit string. */
  lemma {:induction false} LeadingZerosValue(z: string, s: string)
    requires forall i :: 0 <= i < |z| ==> z[i] == '0'
    requires AllDigits(s)
    ensures AllDigits(z + s) && DigitsValue(z + s) == DigitsValue(s)
  {
    if s == [] {
      assert z + s == z;
      ZerosValue(z);
    } else {
      LeadingZerosValue(z, s[..|s| - 1]);
      assert (z + s)[..|z + s| - 1] == z + s[..|s| - 1];
    }
  }

  /** `f"{n:03d}"`. */
  function Pad3(n: nat): string
  {
    ZeroPad(NatToString(n), 3)
  }

  /** The padded spelling is all digits and still denotes n; below 1000 it is exactly three digits. */
  lemma Pad3Value(n: nat)
    ensures AllDigits(Pad3(n)) && DigitsValue(Pad3(n)) == n
    ensures n < 1000 ==> |Pad3(n)| == 3
  {
    var s := NatToString(n);
    NatToStringValue(n);
    if |s| < 3 {
      LeadingZerosValue(seq(3 - |s|, _ => '0'), s);
    }
    if n < 1000 {
      NatToStringShort(n);
    }
  }

  function Abs(t: int): nat
  {
    if t < 0 then -t else t
  }

  /** `f"{t / 10:.1f}"` for a value held as a whole number t of tenths. */
  function FormatTenths(t: int): string
  {
    (if t < 0 then "-" else "") + NatToString(Abs(t) / 10) + "." + [DigitChar(Abs(t) % 10)]
  }

  /**
   * `float(s)` read back as tenths, for the spelling `:.1f` produces: an
   * optional '-', digits, '.', one digit. Any other text is the ValueError.
   */
  function ParseTenths(s: string): Option<int>
  {
    var negative := |s| > 0 && s[0] == '-';
    var body := if negative then s[1..] else s;
    if |body| >= 3 && body[|body| - 2] == '.' && IsDigit(body[|body| - 1]) && AllDigits(body[..|body| - 2])
    then
      var v := DigitsValue(body[..|body| - 2]) * 10 + DigitValue(body[|body| - 1]);
      Some(if negative then -v else v)
    else None
  }

  /** Formatting a confidence to one decimal and parsing it back loses nothing. */
  lemma ParseFormatTenths(t: int)
    ensures ParseTenths(FormatTenths(t)) == Some(t)
  {
    var whole := NatToString(Abs(t) / 10);
    var body := whole + "." + [DigitChar(Abs(t) % 10)];
    assert body[..|body| - 2] == whole;
    NatToStringValue(Abs(t) / 10);
    if t < 0 {
      assert FormatTenths(t) == "-" + body;
      assert FormatTenths(t)[1..] == body;
    } else {
      assert FormatTenths(t) == body;
    }
  }

  /** Neither spelling contains the letter 'c'. */
  lemma FormatTenthsHasNoC(t: int)
    ensures forall i :: 0 <= i < |FormatTenths(t)| ==> FormatTenths(t)[i] != 'c'
  {
    var whole := NatToString(Abs(t) / 10);
    var s := FormatTenths(t);
    var sign := if t < 0 then "-" else "";
    assert s == sign + whole + "." + [DigitChar(Abs(t) % 10)];
    forall i | 0 <= i < |s| ensures s[i] != 'c' {
      if i < |sign| {
      } else if i < |sign| + |whole| {
        assert s[i] == whole[i - |sign|];
      }
    }
  }

  /** `s.replace(pat, "")`: remove every non-overlapping occurrence of pat, scanning left to right. */
  function RemoveAll(s: string, pat: string): (r: string)
    requires pat != []
    ensures |r| <= |s|
    decreases |s|
  {
    if |s| < |pat| then s
    else if s[..|pat|] == pat then RemoveAll(s[|pat|..], pat)
    else [s[0]] + RemoveAll(s[1..], pat)
  }

  /** A text without the first letter of pat is left as it is. */
  lemma {:induction false} RemoveAllAbsent(s: string, pat: string)
    requires pat != []
    requires forall i :: 0 <= i < |s| ==> s[i] != pat[0]
    ensures RemoveAll(s, pat) == s
    decreases |s|
  {
    if |s| >= |pat| {
      assert s[..|pat|][0] != pat[0];
      RemoveAllAbsent(s[1..], pat);
      assert [s[0]] + s[1..] == s;
    }
  }
}
