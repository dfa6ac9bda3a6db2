/** Decimal numbers as `std::to_string` prints them and `std::from_chars` reads them. */
module Decimal {
  import opened Common

  predicate IsDigit(c: char) { '0' <= c <= '9' }

  predicate AllDigits(s: string)
  {
    forall i | 0 <= i < |s| :: IsDigit(s[i])
  }

  function DigitChar(d: nat): (c: char)
    requires d < 10
    ensures IsDigit(c) && DigitValue(c) == d
  {
    (('0' as int) + d) as char
  }

  function DigitValue(c: char): nat
    requires IsDigit(c)
  {
    (c as int) - ('0' as int)
  }

  function Value(s: string): nat
    requires AllDigits(s)
  {
    if s == "" then 0 else 10 * Value(s[..|s| - 1]) + DigitValue(s[|s| - 1])
  }

  /** `std::to_string` of an unsigned number. */
  function ToText(n: nat): (s: string)
    ensures s != "" && AllDigits(s)
  {
    if n < 10 then [DigitChar(n)] else ToText(n / 10) + [DigitChar(n % 10)]
  }

  /** Decimal digits for a number; leading zeros are allowed. */
  predicate Numeral(s: string, n: nat)
  {
    s != "" && AllDigits(s) && Value(s) == n
  }

  /** `std::from_chars` into a `uint64_t` that must use the whole text: no sign, no blank, no overflow. */
  function ParseU64(s: string): (r: Option<nat>)
    ensures r.Some? ==> r.value <= U64_MAX
  {
    if s != "" && AllDigits(s) && Value(s) <= U64_MAX then Some(Value(s)) else None
  }

  lemma {:induction false} ValueToText(n: nat)
    ensures Value(ToText(n)) == n
  {
    if n >= 10 {
      ValueToText(n / 10);
      var s := ToText(n);
      assert s[..|s| - 1] == ToText(n / 10);
    } else {
      assert Value("") == 0;
    }
  }

  lemma PrintedNumeral(n: nat)
    ensures Numeral(ToText(n), n)
  {
    ValueToText(n);
  }

  lemma OneDigit(s: string)
    requires |s| == 1 && AllDigits(s)
    ensures Value(s) < 10
  {
    assert s[..0] == "";
  }

  /** No numeral of a number is shorter than the printed one: no leading zeros are printed. */
  lemma {:induction false} PrintedIsShortest(s: string, n: nat)
    requires Numeral(s, n)
    ensures |ToText(n)| <= |s|
    decreases |s|
  {
    if n >= 10 {
      if |s| == 1 {
        OneDigit(s);
      }
      PrintedIsShortest(s[..|s| - 1], n / 10);
    }
  }

  /** Reading back a printed 64-bit number gives the number. */
  lemma ParseToText(n: nat)
    ensures ParseU64(ToText(n)) == if n < 0x1_0000_0000_0000_0000 then Some(n) else None
  {
    ValueToText(n);
  }
}
