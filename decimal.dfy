/** The decimal conversions the summarizer relies on from the Java library:
    `Integer.parseInt` (radix 10) and the text `StringBuilder.append(int)`
    writes, which is `Integer.toString`. Only ASCII digits are modelled. */
module Decimal {
  import opened Results
  import opened JavaInt

  predicate IsDigit(c: char) {
    '0' <= c <= '9'
  }

  predicate AllDigits(s: string) {
    forall i | 0 <= i < |s| :: IsDigit(s[i])
  }

  function DigitChar(d: nat): char
    requires d < 10
  {
    ('0' as int + d) as char
  }

  lemma DigitCharValue(d: nat)
    requires d < 10
    ensures IsDigit(DigitChar(d)) && DigitChar(d) as int - '0' as int == d
  {
  }

  /** The value of a string of decimal digits, most significant first;
      leading zeros are allowed, as `parseInt` allows them. */
  function DigitsValue(s: string): nat
    requires AllDigits(s)
    decreases |s|
  {
    if s == [] then 0
    else DigitsValue(s[..|s| - 1]) * 10 + (s[|s| - 1] as int - '0' as int)
  }

  /** One more digit on the right multiplies the value by ten and adds
      that digit. */
  lemma DigitsSnoc(s: string, c: char)
    requires AllDigits(s) && IsDigit(c)
    ensures AllDigits(s + [c])
    ensures DigitsValue(s + [c]) == DigitsValue(s) * 10 + (c as int - '0' as int)
  {
    assert (s + [c])[..|s|] == s;
  }

  /** `Integer.parseInt(s)`: an optional `-` or `+`, then one or more digits,
      denoting a value inside the `int` range; anything else is a
      `NumberFormatException`, modelled as `None`. */
  function ParseInt(s: string): (r: Option<Int32>)
    ensures r.Some? ==> |s| > 0 && (IsDigit(s[0]) || s[0] == '-' || s[0] == '+')
    ensures r.Some? ==> forall i | 0 < i < |s| :: IsDigit(s[i])
    ensures r.Some? && r.value < 0 ==> s[0] == '-'
    ensures |s| == 1 && !IsDigit(s[0]) ==> r.None?
  {
    if s == [] then None
    else
      var negative := s[0] == '-';
      var digits := if s[0] == '-' || s[0] == '+' then s[1..] else s;
      if digits == [] || !AllDigits(digits) then None
      else
        var v: int := if negative then -(DigitsValue(digits) as int) else DigitsValue(digits);
        if MinValue <= v <= MaxValue then Some(v) else None
  }

  /** What `parseInt` gives for a sign (none, `-` or `+`) followed by
      digits: the signed value of the digits, leading zeros included, when
      it lies in the `int` range, and a `NumberFormatException` otherwise.
      With the shape the contract of `ParseInt` demands of accepted text,
      this fixes `parseInt` on every input. */
  lemma ParseIntValue(sign: string, digits: string)
    requires sign == "" || sign == "-" || sign == "+"
    requires digits != [] && AllDigits(digits)
    ensures var v := if sign == "-" then -(DigitsValue(digits) as int) else DigitsValue(digits) as int;
      ParseInt(sign + digits) == if MinValue <= v <= MaxValue then Some(v) else None
  {
    var s := sign + digits;
    if sign == "" {
      assert s == digits;
    } else {
      assert s[1..] == digits;
    }
  }

  /** The shortest decimal text of a natural number. */
  function NatToString(n: nat): (r: string)
    ensures |r| > 0
    decreases n
  {
    if n < 10 then [DigitChar(n)] else NatToString(n / 10) + [DigitChar(n % 10)]
  }

  /** The text of `n` is made of digits, has no leading zero (zero itself
      is the single digit `0`) and denotes `n`. */
  lemma {:induction false} NatToStringValue(n: nat)
    ensures AllDigits(NatToString(n))
    ensures DigitsValue(NatToString(n)) == n
    ensures NatToString(n)[0] == '0' ==> n == 0
    ensures NatToString(n)[0] == '0' ==> NatToString(n) == "0"
    decreases n
  {
    DigitCharValue(n % 10);
    if n >= 10 {
      NatToStringValue(n / 10);
      var prefix := NatToString(n / 10);
      var r := NatToString(n);
      assert r == prefix + [DigitChar(n % 10)];
      assert r[..|r| - 1] == prefix;
    }
  }

  /** `Integer.toString(n)`: a minus sign for negative values, then the
      digits of the magnitude. */
  function IntToString(n: int): (r: string)
    ensures |r| > 0
  {
    if n < 0 then "-" + NatToString(-n) else NatToString(n)
  }

  /** The text of an `int` is a minus sign exactly for negative values,
      followed by digits only. */
  lemma IntToStringShape(n: int)
    ensures IntToString(n)[0] == '-' <==> n < 0
    ensures n >= 0 ==> IsDigit(IntToString(n)[0])
    ensures forall i | 0 < i < |IntToString(n)| :: IsDigit(IntToString(n)[i])
  {
    NatToStringValue(if n < 0 then -n else n);
  }

  /** `parseInt` reads back every `int` that `toString` writes. */
  lemma ParseIntToString(n: Int32)
    ensures ParseInt(IntToString(n)) == Some(n)
  {
    var s := IntToString(n);
    NatToStringValue(if n < 0 then -(n as int) else n as int);
    if n < 0 {
      assert s[1..] == NatToString(-(n as int));
    }
  }

  /** Distinct `int` values are written as distinct texts. */
  lemma IntToStringInjective(a: Int32, b: Int32)
    requires IntToString(a) == IntToString(b)
    ensures a == b
  {
    ParseIntToString(a);
    ParseIntToString(b);
  }
}
