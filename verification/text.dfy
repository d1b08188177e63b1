/**
 * String helpers used by the engines: ASCII lower-casing and substring search
 * (item type detection), decimal digits (JavaScript's Number() on digit strings,
 * Number.prototype.toString on integers) and left padding with '0'.
 */
module Text {
  import opened Wrappers

  /** Lower-cases an ASCII upper-case letter; every other character is kept. */
  function LowerChar(c: char): (r: char)
    ensures 'A' <= c <= 'Z' ==> r as int == c as int + 32
    ensures !('A' <= c <= 'Z') ==> r == c
  {
    if 'A' <= c <= 'Z' then (c as int + 32) as char else c
  }

  function ToLower(s: string): (r: string)
    ensures |r| == |s|
    ensures forall i :: 0 <= i < |s| ==> r[i] == LowerChar(s[i])
  {
    if s == [] then [] else [LowerChar(s[0])] + ToLower(s[1..])
  }

  /** Lower-casing is idempotent. */
  lemma ToLowerIdempotent(s: string)
    ensures ToLower(ToLower(s)) == ToLower(s)
  {
  }

  /** `pat` occurs in `s` starting at index `i`. */
  predicate OccursAt(s: string, pat: string, i: int)
  {
    0 <= i && i + |pat| <= |s| && s[i..i + |pat|] == pat
  }

  /** String.prototype.includes. */
  predicate Contains(s: string, pat: string)
  {
    exists i | 0 <= i <= |s| - |pat| :: OccursAt(s, pat, i)
  }

  predicate IsDigit(c: char)
  {
    '0' <= c <= '9'
  }

  predicate AllDigits(s: string)
  {
    forall i :: 0 <= i < |s| ==> IsDigit(s[i])
  }

  function DigitChar(d: nat): (c: char)
    requires d < 10
    ensures IsDigit(c) && c as int - '0' as int == d
  {
    ('0' as int + d) as char
  }

  /** The decimal value of a string of digits; the empty string is 0, as Number("") is. */
  function DigitsValue(s: string): (n: nat)
    requires AllDigits(s)
  {
    if s == [] then 0
    else DigitsValue(s[..|s| - 1]) * 10 + (s[|s| - 1] as int - '0' as int)
  }

  /**
   * JavaScript's Number() applied to a string, for the forms the model covers:
   * a (possibly empty) run of ASCII digits. Anything else is NaN here (None).
   */
  function JsNumber(s: string): (r: Option<nat>)
    ensures r.Some? <==> AllDigits(s)
  {
    if AllDigits(s) then Some(DigitsValue(s)) else None
  }

  /** Decimal digits of a natural number, without leading zeros. */
  function NatToString(n: nat): (s: string)
    ensures AllDigits(s) && 1 <= |s|
    ensures n < 10 <==> |s| == 1
    ensures n < 100 ==> |s| <= 2
    decreases n
  {
    if n < 10 then [DigitChar(n)] else NatToString(n / 10) + [DigitChar(n % 10)]
  }

  /** Number.prototype.toString on an integer value. */
  function IntToString(i: int): (s: string)
    ensures 1 <= |s|
    ensures i >= 0 ==> AllDigits(s)
    ensures i < 0 ==> s[0] == '-'
  {
    if i < 0 then "-" + NatToString(-i) else NatToString(i)
  }

  /** String.prototype.padStart(2, '0'). */
  function PadStart2(s: string): (r: string)
    ensures |r| == if |s| < 2 then 2 else |s|
    ensures r[|r| - |s|..] == s
    ensures forall i :: 0 <= i < |r| - |s| ==> r[i] == '0'
  {
    if |s| == 0 then "00" else if |s| == 1 then "0" + s else s
  }

  /** Reading back the digits written by NatToString gives the number. */
  lemma {:induction false} NatToStringValue(n: nat)
    ensures DigitsValue(NatToString(n)) == n
    decreases n
  {
    if n >= 10 {
      NatToStringValue(n / 10);
      var s := NatToString(n);
      assert s[..|s| - 1] == NatToString(n / 10);
    }
  }

  /** Leading zeros do not change a digit string's value. */
  lemma {:induction false} LeadingZeroValue(s: string)
    requires AllDigits(s)
    ensures AllDigits("0" + s) && DigitsValue("0" + s) == DigitsValue(s)
    decreases |s|
  {
    if s != [] {
      var t := "0" + s;
      assert t[..|t| - 1] == "0" + s[..|s| - 1];
      LeadingZeroValue(s[..|s| - 1]);
    }
  }

  /** Padding a number's digits with '0' to width two keeps its value. */
  lemma PaddedNatValue(n: nat)
    ensures AllDigits(PadStart2(NatToString(n)))
    ensures DigitsValue(PadStart2(NatToString(n))) == n
  {
    NatToStringValue(n);
    var s := NatToString(n);
    if |s| == 1 {
      LeadingZeroValue(s);
    }
  }

  /** The value of a two-digit string. */
  lemma TwoDigitsValue(s: string)
    requires |s| == 2 && AllDigits(s)
    ensures DigitsValue(s) == (s[0] as int - '0' as int) * 10 + (s[1] as int - '0' as int)
  {
    var p := s[..1];
    assert p == [s[0]] && AllDigits(p);
    assert p[..0] == [];
    assert DigitsValue(p) == DigitsValue([]) * 10 + (s[0] as int - '0' as int);
    assert s[..|s| - 1] == p;
  }

  lemma DivTen(hi: nat, lo: nat)
    requires lo < 10
    ensures (hi * 10 + lo) / 10 == hi && (hi * 10 + lo) % 10 == lo
  {
  }

  /** A number below 100 written and padded to width two is its two digits. */
  lemma TwoDigitNumber(n: nat)
    requires n < 100
    ensures PadStart2(NatToString(n)) == [DigitChar(n / 10), DigitChar(n % 10)]
  {
    var t := NatToString(n);
    if n < 10 {
      assert t == [DigitChar(n)];
      assert n / 10 == 0 && n % 10 == n;
      assert DigitChar(0) == '0';
      assert PadStart2(t) == "0" + t;
    } else {
      var q := n / 10;
      assert q < 10;
      assert t == NatToString(q) + [DigitChar(n % 10)];
      assert NatToString(q) == [DigitChar(q)];
      assert |t| == 2;
    }
  }

  /** A digit character is the DigitChar of its value. */
  lemma DigitCharOf(c: char)
    requires IsDigit(c)
    ensures DigitChar(c as int - '0' as int) == c
  {
  }

  /** A two-digit string is reproduced by reading its value and writing it back padded. */
  lemma TwoDigitsRoundTrip(s: string)
    requires |s| == 2 && AllDigits(s)
    ensures DigitsValue(s) < 100
    ensures PadStart2(NatToString(DigitsValue(s))) == s
  {
    var hi: nat := s[0] as int - '0' as int;
    var lo: nat := s[1] as int - '0' as int;
    var n := DigitsValue(s);
    assert n == hi * 10 + lo by {
      TwoDigitsValue(s);
    }
    assert n / 10 == hi && n % 10 == lo by {
      DivTen(hi, lo);
    }
    assert PadStart2(NatToString(n)) == [DigitChar(hi), DigitChar(lo)] by {
      TwoDigitNumber(n);
    }
    assert [DigitChar(hi), DigitChar(lo)] == s by {
      DigitCharOf(s[0]);
      DigitCharOf(s[1]);
    }
  }
}
