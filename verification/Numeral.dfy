/**
 Positional numerals as Go's `big.Int.Text`, `big.Int.SetString` and `%d` write and read them:
 digits 0-9, then a-z, then A-Z, most significant first.
 */
module Numeral {
  import opened Prelude

  const COMPACT_BASE := 62
  const DECIMAL_BASE := 10

  /** The two bases in use: `%d` and the compact claim format. */
  predicate IsBase(base: nat)
  {
    base == COMPACT_BASE || base == DECIMAL_BASE
  }

  function Digit(d: nat): (c: char)
    requires d < COMPACT_BASE
    ensures DigitValue(c) == Some(d)
  {
    if d < 10 then ('0' as int + d) as char
    else if d < 36 then ('a' as int + (d - 10)) as char
    else ('A' as int + (d - 36)) as char
  }

  function DigitValue(c: char): (v: Option<nat>)
    ensures v.Some? ==> v.value < COMPACT_BASE
  {
    if '0' <= c <= '9' then Some(c as int - '0' as int)
    else if 'a' <= c <= 'z' then Some(c as int - 'a' as int + 10)
    else if 'A' <= c <= 'Z' then Some(c as int - 'A' as int + 36)
    else None
  }

  function Text(n: nat, base: nat): (s: string)
    requires IsBase(base)
    ensures |s| > 0
    decreases n
  {
    if n < base then [Digit(n)] else Text(n / base, base) + [Digit(n % base)]
  }

  /** `high` with the digit `d` written after it. */
  function Shift(high: nat, d: nat, base: nat): nat
    requires IsBase(base)
  {
    if base == DECIMAL_BASE then 10 * high + d else 62 * high + d
  }

  /** Reads an unsigned numeral; `None` for the empty string or a foreign character. */
  function Parse(s: string, base: nat): Option<nat>
    requires IsBase(base)
  {
    if s == [] then None
    else
      var d := DigitValue(s[|s| - 1]);
      if d.None? || d.value >= base then None
      else if |s| == 1 then d
      else
        var high := Parse(s[..|s| - 1], base);
        if high.None? then None else Some(Shift(high.value, d.value, base))
  }

  /** A numeral without padding: a lone zero, or no leading zero. */
  predicate Canonical(s: string)
  {
    s == "0" || (|s| > 0 && s[0] != '0')
  }

  /** What one more digit on the right does to the value read. */
  lemma ParseAppend(s: string, c: char, base: nat)
    requires IsBase(base)
    requires Parse(s, base).Some?
    requires DigitValue(c).Some? && DigitValue(c).value < base
    ensures Parse(s + [c], base) == Some(Shift(Parse(s, base).value, DigitValue(c).value, base))
  {
    var t := s + [c];
    assert t[..|t| - 1] == s && t[|t| - 1] == c;
  }

  lemma {:induction false} ParseText(n: nat, base: nat)
    requires IsBase(base)
    ensures Parse(Text(n, base), base) == Some(n)
    decreases n
  {
    if n < base {
      ParseDigit(n, base);
    } else {
      var high, low := n / base, n % base;
      ParseText(high, base);
      ParseAppend(Text(high, base), Digit(low), base);
      DivMod(n, base);
    }
  }

  lemma DivMod(n: nat, base: nat)
    requires IsBase(base)
    ensures Shift(n / base, n % base, base) == n
  {
  }

  lemma ParseDigit(n: nat, base: nat)
    requires IsBase(base) && n < base
    ensures Parse([Digit(n)], base) == Some(n)
  {
  }

  lemma TextInjective(m: nat, n: nat, base: nat)
    requires IsBase(base)
    requires Text(m, base) == Text(n, base)
    ensures m == n
  {
    ParseText(m, base);
    ParseText(n, base);
  }

  lemma {:induction false} TextCanonical(n: nat, base: nat)
    requires IsBase(base)
    ensures Canonical(Text(n, base))
    ensures n > 0 ==> Text(n, base)[0] != '0'
    decreases n
  {
    if n < base {
      assert DigitValue('0') == Some(0);
    } else {
      TextCanonical(n / base, base);
      assert n / base > 0;
    }
  }

  lemma ParseSplit(s: string, base: nat)
    requires IsBase(base)
    requires |s| > 1 && Parse(s, base).Some?
    ensures var init, last := s[..|s| - 1], DigitValue(s[|s| - 1]);
            && Parse(init, base).Some? && last.Some? && last.value < base
            && Parse(s, base).value == Shift(Parse(init, base).value, last.value, base)
  {
  }

  /** A canonical numeral is positive unless it is the lone zero. */
  lemma {:induction false} ParsePositive(s: string, base: nat)
    requires IsBase(base)
    requires Parse(s, base).Some? && s[0] != '0'
    ensures Parse(s, base).value > 0
  {
    if |s| == 1 {
      assert DigitValue(s[0]) != Some(0);
    } else {
      var init := s[..|s| - 1];
      ParseSplit(s, base);
      ParsePositive(init, base);
    }
  }

  /** Reading then writing gives the numeral back exactly when it carried no padding. */
  lemma {:induction false} TextParse(s: string, base: nat)
    requires IsBase(base)
    requires Parse(s, base).Some?
    ensures Text(Parse(s, base).value, base) == s <==> Canonical(s)
  {
    TextCanonical(Parse(s, base).value, base);
    if Canonical(s) {
      TextParseCanonical(s, base);
    }
  }

  lemma {:induction false} TextParseCanonical(s: string, base: nat)
    requires IsBase(base)
    requires Parse(s, base).Some? && Canonical(s)
    ensures Text(Parse(s, base).value, base) == s
  {
    if |s| == 1 {
      DigitOfValue(s[0]);
    } else {
      var init, c := s[..|s| - 1], s[|s| - 1];
      ParseSplit(s, base);
      ParsePositive(init, base);
      TextParseCanonical(init, base);
      var high, low := Parse(init, base).value, DigitValue(c).value;
      DivModUnique(high, low, base);
      DigitOfValue(c);
      TextAppend(Shift(high, low, base), base);
      assert s == init + [c];
    }
  }

  lemma TextAppend(n: nat, base: nat)
    requires IsBase(base) && n >= base
    ensures Text(n, base) == Text(n / base, base) + [Digit(n % base)]
  {
  }

  lemma DigitOfValue(c: char)
    requires DigitValue(c).Some?
    ensures Digit(DigitValue(c).value) == c
  {
  }

  lemma DivModUnique(q: nat, r: nat, base: nat)
    requires IsBase(base) && r < base
    ensures Shift(q, r, base) / base == q && Shift(q, r, base) % base == r
  {
    if base == DECIMAL_BASE {
      assert (10 * q + r) / 10 == q;
    } else {
      assert (62 * q + r) / 62 == q;
    }
  }

  // The digits and their places.

  /** 0-9, then a-z, then A-Z, in this order. */
  lemma DigitsInOrder(d: nat)
    requires d < COMPACT_BASE
    ensures d == 0 ==> Digit(d) == '0'
    ensures d == 9 ==> Digit(d) == '9'
    ensures d == 10 ==> Digit(d) == 'a'
    ensures d == 35 ==> Digit(d) == 'z'
    ensures d == 36 ==> Digit(d) == 'A'
    ensures d == 61 ==> Digit(d) == 'Z'
    ensures d + 1 < COMPACT_BASE && d != 9 && d != 35 ==> Digit(d + 1) as int == Digit(d) as int + 1
  {
  }

  lemma DigitValueExactly(c: char, d: nat)
    requires d < COMPACT_BASE
    ensures DigitValue(c) == Some(d) <==> c == Digit(d)
  {
    if DigitValue(c) == Some(d) { DigitOfValue(c); }
  }

  function Power(base: nat, n: nat): nat { if n == 0 then 1 else base * Power(base, n - 1) }

  /** Each digit times the power of the base for its place, counted from the right. */
  function PlaceValue(s: string, base: nat): nat
  {
    if s == "" then 0
    else
      var d := DigitValue(s[0]);
      (if d.Some? then d.value else 0) * Power(base, |s| - 1) + PlaceValue(s[1..], base)
  }

  lemma {:induction false} PlaceValueAppend(s: string, c: char, base: nat)
    requires DigitValue(c).Some?
    ensures PlaceValue(s + [c], base) == base * PlaceValue(s, base) + DigitValue(c).value
  {
    if s == "" {
      assert ([] + [c])[1..] == [];
      assert PlaceValue([c], base) == DigitValue(c).value * Power(base, 0) + PlaceValue([c][1..], base);
    } else {
      assert (s + [c])[1..] == s[1..] + [c] && (s + [c])[0] == s[0];
      PlaceValueAppend(s[1..], c, base);
      var d: nat := if DigitValue(s[0]).Some? then DigitValue(s[0]).value else 0;
      ScaleSum(base, d, Power(base, |s| - 1), PlaceValue(s[1..], base));
    }
  }

  lemma ScaleSum(base: nat, d: nat, p: nat, rest: nat)
    ensures d * (base * p) + base * rest == base * (d * p + rest)
  {
  }

  /** A numeral reads as the sum of its places. */
  lemma {:induction false} ParseIsPlaceValue(s: string, base: nat)
    requires IsBase(base) && Parse(s, base).Some?
    ensures Parse(s, base).value == PlaceValue(s, base)
  {
    var init, last := s[..|s| - 1], s[|s| - 1];
    assert s == init + [last];
    PlaceValueAppend(init, last, base);
    if |s| > 1 { ParseIsPlaceValue(init, base); }
  }
}
