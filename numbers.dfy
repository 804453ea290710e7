/** The integer side of JavaScript numbers as the feed uses them: printing an
    integer with `toString`/template literals, and reading one back with
    `parseInt` (no radix argument). */
module Numbers {
  import opened Text
  import opened Wrappers

  /** A JavaScript number as far as the feed uses one: an integer, or NaN
      (what `parseInt` returns when it finds no digits). */
  datatype Num = Int(value: int) | NaN

  /** The value of a digit character in bases up to 36 (`0`-`9`, then `a`-`z`
      in either case); 36 for any other character. */
  function DigitOf(c: char): (d: nat)
    ensures d <= 36
  {
    if '0' <= c <= '9' then c as int - '0' as int
    else if 'a' <= c <= 'z' then c as int - 'a' as int + 10
    else if 'A' <= c <= 'Z' then c as int - 'A' as int + 10
    else 36
  }

  predicate IsDigitIn(c: char, radix: nat) {
    DigitOf(c) < radix
  }

  predicate AllDigitsIn(s: string, radix: nat) {
    forall k | 0 <= k < |s| :: IsDigitIn(s[k], radix)
  }

  /** The value of a numeral written in `radix`, most significant digit first. */
  function ValueIn(s: string, radix: nat): nat
    requires AllDigitsIn(s, radix)
  {
    if s == [] then 0 else ValueIn(s[..|s| - 1], radix) * radix + DigitOf(s[|s| - 1])
  }

  /** The longest prefix of `s` made of digits of `radix`. */
  function DigitPrefix(s: string, radix: nat): (r: string)
    ensures |r| <= |s| && r == s[..|r|]
    ensures AllDigitsIn(r, radix)
    ensures |r| < |s| ==> !IsDigitIn(s[|r|], radix)
  {
    if s == [] || !IsDigitIn(s[0], radix) then []
    else
      var t := DigitPrefix(s[1..], radix);
      assert forall k | 1 <= k < |t| + 1 :: ([s[0]] + t)[k] == s[1..][k - 1];
      [s[0]] + t
  }

  /** The decimal digit character for `d`. */
  function DigitChar(d: nat): (c: char)
    requires d < 10
    ensures '0' <= c <= '9' && DigitOf(c) == d
  {
    ('0' as int + d) as char
  }

  /** The decimal numeral of `n` as `String(n)` prints it: no sign and no
      leading zero. */
  function NatToString(n: nat): (r: string)
    ensures |r| >= 1 && AllDigitsIn(r, 10)
    ensures r[0] == '0' ==> n == 0
    ensures forall k | 0 <= k < |r| :: '0' <= r[k] <= '9'
  {
    if n < 10 then [DigitChar(n)] else NatToString(n / 10) + [DigitChar(n % 10)]
  }

  /** Reading the printed numeral of `n` gives `n` back. */
  lemma {:induction false} ValueOfNatToString(n: nat)
    ensures ValueIn(NatToString(n), 10) == n
  {
    if n >= 10 {
      var s := NatToString(n);
      assert s[..|s| - 1] == NatToString(n / 10);
      ValueOfNatToString(n / 10);
    }
  }

  /** Different numbers print differently. */
  lemma NatToStringInjective(m: nat, n: nat)
    requires NatToString(m) == NatToString(n)
    ensures m == n
  {
    ValueOfNatToString(m);
    ValueOfNatToString(n);
  }

  /** An integer as `String(i)` prints it (a leading `-` when negative). */
  function IntToString(i: int): (r: string)
    ensures |r| >= 1
    ensures i >= 0 ==> r == NatToString(i)
    ensures i < 0 ==> r[0] == '-' && r[1..] == NatToString(-i)
  {
    if i < 0 then "-" + NatToString(-i) else NatToString(i)
  }

  /** `String(n)` for a number that is an integer or NaN. */
  function NumToString(n: Num): (r: string)
    ensures n.NaN? <==> r == "NaN"
  {
    match n
    case Int(i) => IntToString(i)
    case NaN => "NaN"
  }

  /** A `0x` or `0X` prefix, which makes `parseInt` read hexadecimal. */
  predicate HasHexPrefix(u: string) {
    |u| >= 2 && u[0] == '0' && (u[1] == 'x' || u[1] == 'X')
  }

  /** The unsigned part of `parseInt`: the value of the longest run of digits
      at the start of `u` (hexadecimal after a `0x` prefix, else decimal), or
      None when that run is empty. */
  function ParseMagnitude(u: string): (r: Option<nat>)
    ensures HasHexPrefix(u) ==> (r.None? <==> (|u| == 2 || !IsDigitIn(u[2], 16)))
    ensures !HasHexPrefix(u) ==> (r.None? <==> (u == [] || !IsDigitIn(u[0], 10)))
  {
    var digits := if HasHexPrefix(u) then DigitPrefix(u[2..], 16) else DigitPrefix(u, 10);
    if digits == [] then None
    else Some(if HasHexPrefix(u) then ValueIn(digits, 16) else ValueIn(digits, 10))
  }

  /** `parseInt(s)`: skip leading whitespace, take an optional sign, read a
      hexadecimal numeral after a `0x`/`0X` prefix or else a decimal one, and
      stop at the first character that is not a digit; NaN when there is no
      digit at all. */
  function ParseInt(s: string): (r: Num)
    ensures var t := TrimStart(s);
      var u := if t != [] && (t[0] == '-' || t[0] == '+') then t[1..] else t;
      r.NaN? <==> ParseMagnitude(u).None?
  {
    var t := TrimStart(s);
    var negative := t != [] && t[0] == '-';
    var u := if t != [] && (t[0] == '-' || t[0] == '+') then t[1..] else t;
    match ParseMagnitude(u)
    case None => NaN
    case Some(m) => Int(if negative then -(m as int) else m)
  }

  /** The digit prefix of a string made only of digits is the whole string. */
  lemma DigitPrefixOfDigits(s: string, radix: nat)
    requires AllDigitsIn(s, radix)
    ensures DigitPrefix(s, radix) == s
  {
  }

  /** A non-empty run of decimal digits parses to its decimal value. */
  lemma ParseIntOfDigits(s: string)
    requires s != [] && AllDigitsIn(s, 10)
    ensures ParseInt(s) == Int(ValueIn(s, 10))
  {
    assert !IsSpace(s[0]) && s[0] != '-' && s[0] != '+';
    assert TrimStart(s) == s;
    assert !HasHexPrefix(s) by { if |s| >= 2 { assert IsDigitIn(s[1], 10); } }
    DigitPrefixOfDigits(s, 10);
  }

  /** A character that ends a decimal numeral and cannot turn a leading `0`
      into a `0x` prefix. */
  predicate EndsNumeral(suffix: string) {
    suffix == [] || (!IsDigitIn(suffix[0], 10) && suffix[0] != 'x' && suffix[0] != 'X')
  }

  /** The digit prefix stops where the digits do. */
  lemma {:induction false} DigitPrefixThen(d: string, suffix: string, radix: nat)
    requires AllDigitsIn(d, radix)
    requires suffix == [] || !IsDigitIn(suffix[0], radix)
    ensures DigitPrefix(d + suffix, radix) == d
  {
    if d != [] {
      assert (d + suffix)[0] == d[0];
      assert (d + suffix)[1..] == d[1..] + suffix;
      DigitPrefixThen(d[1..], suffix, radix);
    } else {
      assert d + suffix == suffix;
    }
  }

  /** The unsigned part of `parseInt` reads a printed natural number back
      when a non-digit follows it. */
  lemma MagnitudeOfNatToStringThen(n: nat, suffix: string)
    requires EndsNumeral(suffix)
    ensures ParseMagnitude(NatToString(n) + suffix) == Some(n)
  {
    var digits := NatToString(n);
    var u := digits + suffix;
    ValueOfNatToString(n);
    DigitPrefixThen(digits, suffix, 10);
    assert !HasHexPrefix(u) by {
      if |digits| >= 2 { assert u[1] == digits[1] && IsDigitIn(digits[1], 10); }
      else if |u| >= 2 { assert u[1] == suffix[0]; }
    }
  }

  /** Without leading whitespace or sign, `parseInt` is its unsigned part. */
  lemma ParseIntUnsigned(s: string, n: nat)
    requires s != [] && '0' <= s[0] <= '9'
    requires TrimStart(s) == s && ParseMagnitude(s) == Some(n)
    ensures ParseInt(s) == Int(n)
  {
  }

  /** `parseInt` on a text that starts with a digit reads only the digits. */
  lemma ParseIntOfNatToStringThen(n: nat, suffix: string)
    requires EndsNumeral(suffix)
    ensures ParseInt(NatToString(n) + suffix) == Int(n)
  {
    var s := NatToString(n) + suffix;
    assert s[0] == NatToString(n)[0];
    TrimStartOfNonSpace(s);
    MagnitudeOfNatToStringThen(n, suffix);
    ParseIntUnsigned(s, n);
  }

  /** `parseInt` on `-` followed by a printed number reads its negation. */
  lemma ParseIntOfNegatedThen(n: nat, suffix: string)
    requires EndsNumeral(suffix)
    ensures ParseInt("-" + NatToString(n) + suffix) == Int(-(n as int))
  {
    var s := "-" + NatToString(n) + suffix;
    assert s[0] == '-';
    TrimStartOfNonSpace(s);
    assert s[1..] == NatToString(n) + suffix;
    MagnitudeOfNatToStringThen(n, suffix);
  }

  /** `parseInt` reads the integer back from the front of any text that
      starts with `String(i)` and continues with a non-digit. */
  lemma ParseIntOfIntToStringThen(i: int, suffix: string)
    requires EndsNumeral(suffix)
    ensures ParseInt(IntToString(i) + suffix) == Int(i)
  {
    if i < 0 {
      ParseIntOfNegatedThen(-i, suffix);
      assert IntToString(i) + suffix == "-" + NatToString(-i) + suffix;
    } else {
      ParseIntOfNatToStringThen(i, suffix);
    }
  }

  /** `parseInt(String(i)) === i` for every integer. */
  lemma ParseIntOfIntToString(i: int)
    ensures ParseInt(IntToString(i)) == Int(i)
  {
    ParseIntOfIntToStringThen(i, []);
    assert IntToString(i) + [] == IntToString(i);
  }

  /** `parseInt` reads any printed integer or NaN back from the front of a
      text, whatever non-digit follows it. */
  lemma ParseIntOfNumToStringThen(x: Num, suffix: string)
    requires EndsNumeral(suffix)
    ensures ParseInt(NumToString(x) + suffix) == x
  {
    match x
    case Int(i) => ParseIntOfIntToStringThen(i, suffix);
    case NaN =>
      var s := NumToString(x) + suffix;
      assert s[0] == 'N' && s[1] == 'a';
      TrimStartOfNonSpace(s);
  }
}
