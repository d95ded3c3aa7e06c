/** Decimal and hexadecimal text: Rust's integer `Display`, `str::parse` and
    `from_str_radix`, and the kernel's fixed-width upper-case hex. */
module Numerals {
  import opened Results
  import opened Seqs

  // ---- Decimal ----------------------------------------------------------------

  predicate IsDigit(c: char) { '0' <= c <= '9' }

  predicate AllDigits(s: string) { forall i :: 0 <= i < |s| ==> IsDigit(s[i]) }

  function DigitChar(d: nat): (c: char)
    requires d < 10
    ensures IsDigit(c) && c as int - '0' as int == d
  {
    ('0' as int + d) as char
  }

  function NatText(n: nat): (s: string)
    ensures s != [] && AllDigits(s)
  {
    if n < 10 then [DigitChar(n)] else NatText(n / 10) + [DigitChar(n % 10)]
  }

  function IntText(i: int): string {
    if i < 0 then "-" + NatText(-i) else NatText(i)
  }

  function DigitsValue(s: string): nat
    requires AllDigits(s)
  {
    if s == [] then 0 else DigitsValue(Front(s)) * 10 + (Last(s) as int - '0' as int)
  }

  /** `str::parse` for a signed integer type with the given range. */
  function ParseInt(s: string, lo: int, hi: int): Option<int> {
    if s == "" || s == "+" || s == "-" then None
    else
      var digits := if s[0] == '+' || s[0] == '-' then s[1..] else s;
      if !AllDigits(digits) then None
      else
        var v: int := if s[0] == '-' then 0 - DigitsValue(digits) else DigitsValue(digits);
        if lo <= v <= hi then Some(v) else None
  }

  lemma {:induction false} NatTextValue(n: nat)
    ensures DigitsValue(NatText(n)) == n
  {
    if n >= 10 {
      NatTextValue(n / 10);
      assert Front(NatText(n)) == NatText(n / 10);
    } else {
      assert Front(NatText(n)) == [];
    }
  }

  /** Printing then parsing succeeds exactly when the value fits the type read. */
  lemma ParsePrinted(i: int, lo: int, hi: int)
    ensures ParseInt(IntText(i), lo, hi) == if lo <= i <= hi then Some(i) else None
  {
    hide NatText, DigitsValue;
    var digits := NatText(if i < 0 then -i else i);
    NatTextValue(if i < 0 then -i else i);
    if i < 0 {
      assert IntText(i) == "-" + digits;
      assert IntText(i)[1..] == digits;
    } else {
      assert IsDigit(digits[0]);
      assert digits != "+" && digits != "-";
    }
  }

  lemma NatTextInjective(m: nat, n: nat)
    requires NatText(m) == NatText(n)
    ensures m == n
  {
    NatTextValue(m);
    NatTextValue(n);
  }

  /** Decimal text has no leading zero but in zero itself. */
  lemma {:induction false} NoLeadingZero(n: nat)
    ensures NatText(n)[0] == '0' ==> n == 0 && NatText(n) == "0"
  {
    if n >= 10 {
      NoLeadingZero(n / 10);
    }
  }

  /** Any digits without a leading zero are the text of their value. */
  lemma {:induction false} CanonicalText(s: string)
    requires s != [] && AllDigits(s) && (s[0] == '0' ==> s == "0")
    ensures NatText(DigitsValue(s)) == s
  {
    var last := Last(s) as int - '0' as int;
    if |s| == 1 {
      assert DigitsValue(Front(s)) == 0;
      assert s == [DigitChar(last)];
    } else {
      assert Front(s)[0] == s[0] && AllDigits(Front(s));
      CanonicalText(Front(s));
      assert DigitsValue(Front(s)) != 0 by {
        assert NatText(0) == "0";
      }
      assert DigitsValue(s) / 10 == DigitsValue(Front(s)) && DigitsValue(s) % 10 == last;
      assert s == Front(s) + [DigitChar(last)];
    }
  }

  /** Leading zeros do not count. */
  lemma {:induction false} LeadingZero(s: string)
    requires AllDigits(s)
    ensures DigitsValue("0" + s) == DigitsValue(s)
  {
    if s != [] {
      assert AllDigits(Front(s));
      LeadingZero(Front(s));
      assert Front("0" + s) == "0" + Front(s);
    }
  }

  /** s is v in decimal digits, at least one, with or without a sign. */
  ghost predicate Numeral(s: string, v: int) {
    exists d: string :: d != [] && AllDigits(d)
      && ((s == d && v == DigitsValue(d)) || (s == "+" + d && v == DigitsValue(d))
          || (s == "-" + d && v + DigitsValue(d) == 0))
  }

  /** What `str::parse` accepts and what it makes of it. */
  lemma ParseIntIff(s: string, lo: int, hi: int, v: int)
    ensures ParseInt(s, lo, hi) == Some(v) <==> lo <= v <= hi && Numeral(s, v)
  {
    hide DigitsValue;
    if s != [] {
      assert s == [s[0]] + s[1..];
    }
    if Numeral(s, v) {
      var d: string :| d != [] && AllDigits(d)
        && ((s == d && v == DigitsValue(d)) || (s == "+" + d && v == DigitsValue(d))
            || (s == "-" + d && v + DigitsValue(d) == 0));
      assert IsDigit(d[0]);
      assert s != d ==> s[1..] == d;
    }
  }

  // ---- Hexadecimal --------------------------------------------------------------

  function HexDigit(c: char): (r: Option<nat>)
    ensures r.Some? ==> r.value < 16
  {
    if '0' <= c <= '9' then Some(c as int - '0' as int)
    else if 'a' <= c <= 'f' then Some(c as int - 'a' as int + 10)
    else if 'A' <= c <= 'F' then Some(c as int - 'A' as int + 10)
    else None
  }

  function HexChar(d: nat): (c: char)
    requires d < 16
    ensures HexDigit(c) == Some(d) && c != '+' && c != ':'
  {
    if d < 10 then ('0' as int + d) as char else ('A' as int + d - 10) as char
  }

  function HexValue(s: string): Option<nat> {
    if s == [] then Some(0)
    else
      match HexValue(Front(s))
      case None => None
      case Some(v) =>
        match HexDigit(Last(s))
        case None => None
        case Some(d) => Some(v * 16 + d)
  }

  /** Digits of either case. */
  lemma HexDigitIs(c: char, d: nat)
    requires d < 16
    ensures HexDigit(c) == Some(d) <==> c == "0123456789abcdef"[d] || c == "0123456789ABCDEF"[d]
  {
  }

  /** `from_str_radix(s, 16)` for an unsigned type with the given maximum. */
  function ParseHex(s: string, max: nat): Option<nat> {
    if s == "" || s == "+" then None
    else
      match HexValue(if s[0] == '+' then s[1..] else s)
      case None => None
      case Some(v) => if v <= max then Some(v) else None
  }

  /** What `from_str_radix` accepts and what it makes of it. */
  lemma ParseHexIff(s: string, max: nat, v: nat)
    ensures ParseHex(s, max) == Some(v)
            <==> v <= max && exists d: string :: d != [] && (s == d || s == "+" + d) && HexValue(d) == Some(v)
  {
    if s != [] && s[0] == '+' {
      assert s == "+" + s[1..];
      NoPlus(s);
    }
    if d: string :| d != [] && (s == d || s == "+" + d) && HexValue(d) == Some(v) {
      assert s != d ==> s[1..] == d;
    }
  }

  lemma {:induction false} NoPlus(s: string)
    requires s != [] && s[0] == '+'
    ensures HexValue(s) == None
  {
    if |s| > 1 {
      NoPlus(Front(s));
    } else {
      assert Front(s) == [];
    }
  }

  /** `printf("%0*X", width, n)` for values that fit the width. */
  function HexText(n: nat, width: nat): (s: string)
    ensures |s| == width
    ensures forall i :: 0 <= i < |s| ==> s[i] != '+' && s[i] != ':'
  {
    if width == 0 then [] else HexText(n / 16, width - 1) + [HexChar(n % 16)]
  }

  function Pow16(width: nat): nat {
    if width == 0 then 1 else 16 * Pow16(width - 1)
  }

  lemma {:induction false} HexTextValue(n: nat, width: nat)
    requires n < Pow16(width)
    ensures HexValue(HexText(n, width)) == Some(n)
  {
    if width > 0 {
      HexTextValue(n / 16, width - 1);
      assert Front(HexText(n, width)) == HexText(n / 16, width - 1);
    }
  }

  lemma ParseHexPrinted(n: nat, width: nat, max: nat)
    requires width > 0 && n < Pow16(width) && n <= max
    ensures ParseHex(HexText(n, width), max) == Some(n)
  {
    HexTextValue(n, width);
    assert HexText(n, width)[0] != '+';
  }
}
