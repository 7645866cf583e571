/** Decimal printing and the string-to-BigInt conversion of ECMA-262. */
module Decimal {
  import opened Prelude

  function DigitChar(d: nat): char
    requires d < 10
  {
    ('0' as int + d) as char
  }

  /** The decimal digits of `n`, with no leading zero: `BigInt.toString`, `strconv.Itoa`. */
  function Digits(n: nat): string {
    if n < 10 then [DigitChar(n)] else Digits(n / 10) + [DigitChar(n % 10)]
  }

  function PrintInt(i: int): string {
    if i < 0 then "-" + Digits(-i) else Digits(i)
  }

  /** The value of one digit in a radix up to sixteen. */
  function DigitValue(c: char, radix: nat): Option<nat> {
    var v :=
      if '0' <= c <= '9' then c as int - '0' as int
      else if 'a' <= c <= 'f' then c as int - 'a' as int + 10
      else if 'A' <= c <= 'F' then c as int - 'A' as int + 10
      else radix;
    if v < radix then Some(v) else None
  }

  /** A non-empty run of digits in `radix`, most significant first. */
  function ParseRadix(s: string, radix: nat): Option<nat> {
    if s == [] then None
    else
      var last := DigitValue(s[|s| - 1], radix);
      if last.None? then None
      else if |s| == 1 then last
      else
        var front := ParseRadix(s[..|s| - 1], radix);
        if front.None? then None else Some(front.value * radix + last.value)
  }

  /** `StrWhiteSpaceChar` of ECMA-262: WhiteSpace, including the Zs category, and LineTerminator. */
  predicate IsSpace(c: char) {
    var v := c as int;
    || 0x09 <= v <= 0x0D || v == 0x20 || v == 0xA0 || v == 0x1680 || 0x2000 <= v <= 0x200A
    || v == 0x2028 || v == 0x2029 || v == 0x202F || v == 0x205F || v == 0x3000 || v == 0xFEFF
  }

  function TrimLeft(s: string): (t: string)
    ensures |t| <= |s|
  {
    if s != [] && IsSpace(s[0]) then TrimLeft(s[1..]) else s
  }

  function TrimRight(s: string): (t: string)
    ensures |t| <= |s|
  {
    if s != [] && IsSpace(s[|s| - 1]) then TrimRight(s[..|s| - 1]) else s
  }

  function Trim(s: string): string {
    TrimRight(TrimLeft(s))
  }

  predicate Blank(s: string) {
    forall i :: 0 <= i < |s| ==> IsSpace(s[i])
  }

  lemma {:induction false} TrimLeftCuts(s: string) returns (cut: string)
    ensures s == cut + TrimLeft(s) && Blank(cut)
    ensures TrimLeft(s) != "" ==> !IsSpace(TrimLeft(s)[0])
  {
    cut := "";
    if s != [] && IsSpace(s[0]) {
      var rest := TrimLeftCuts(s[1..]);
      cut := [s[0]] + rest;
      assert s == [s[0]] + s[1..];
    }
  }

  lemma {:induction false} TrimRightCuts(s: string) returns (cut: string)
    ensures s == TrimRight(s) + cut && Blank(cut)
    ensures TrimRight(s) != "" ==> !IsSpace(TrimRight(s)[|TrimRight(s)| - 1]) && TrimRight(s)[0] == s[0]
  {
    cut := "";
    if s != [] && IsSpace(s[|s| - 1]) {
      var rest := TrimRightCuts(s[..|s| - 1]);
      cut := rest + [s[|s| - 1]];
      assert s == s[..|s| - 1] + [s[|s| - 1]];
    }
  }

  /** Trimming cuts white space off either end, all of it, and nothing else. */
  lemma TrimCuts(s: string)
    ensures exists before, after :: s == before + Trim(s) + after && Blank(before) && Blank(after)
    ensures Trim(s) != "" ==> !IsSpace(Trim(s)[0]) && !IsSpace(Trim(s)[|Trim(s)| - 1])
    ensures Trim(s) == "" <==> Blank(s)
  {
    hide IsSpace;
    var before := TrimLeftCuts(s);
    var after := TrimRightCuts(TrimLeft(s));
    assert s == before + Trim(s) + after;
    if Trim(s) != "" {
      assert s[|before|] == Trim(s)[0];
    }
  }

  /** `BigInt(raw)`; `None` where JavaScript throws a SyntaxError. */
  function BigIntOf(raw: string): Option<int> {
    var s := Trim(raw);
    if s == [] then Some(0)
    else if |s| > 2 && s[0] == '0' && s[1] in "xX" then Signed(ParseRadix(s[2..], 16), 1)
    else if |s| > 2 && s[0] == '0' && s[1] in "oO" then Signed(ParseRadix(s[2..], 8), 1)
    else if |s| > 2 && s[0] == '0' && s[1] in "bB" then Signed(ParseRadix(s[2..], 2), 1)
    else if s[0] == '-' then Signed(ParseRadix(s[1..], 10), -1)
    else if s[0] == '+' then Signed(ParseRadix(s[1..], 10), 1)
    else Signed(ParseRadix(s, 10), 1)
  }

  function Signed(magnitude: Option<nat>, sign: int): Option<int> {
    if magnitude.None? then None else Some(sign * magnitude.value)
  }

  /** The pattern `^\d+$`. */
  predicate IsDecimal(s: string) {
    s != [] && forall i :: 0 <= i < |s| ==> '0' <= s[i] <= '9'
  }

  lemma {:induction false} DigitsParse(n: nat)
    ensures IsDecimal(Digits(n))
    ensures ParseRadix(Digits(n), 10) == Some(n)
  {
    if n >= 10 {
      DigitsParse(n / 10);
      var s := Digits(n);
      assert s[..|s| - 1] == Digits(n / 10);
      assert s[|s| - 1] == DigitChar(n % 10);
    }
  }

  lemma DecimalUntrimmed(s: string)
    requires IsDecimal(s)
    ensures Trim(s) == s
  {
    assert !IsSpace(s[0]) && !IsSpace(s[|s| - 1]);
  }

  /** A run of ASCII digits reads as decimal whatever its length: no sign, space or radix prefix. */
  lemma BigIntOfDecimal(s: string)
    requires IsDecimal(s)
    ensures BigIntOf(s) == Signed(ParseRadix(s, 10), 1)
  {
    DecimalUntrimmed(s);
    assert '0' <= s[0] <= '9';
    if |s| > 2 {
      assert '0' <= s[1] <= '9';
    }
  }

  /** Printing in decimal and reading back through BigInt is the identity on naturals. */
  lemma BigIntOfDigits(n: nat)
    ensures BigIntOf(Digits(n)) == Some(n)
  {
    DigitsParse(n);
    BigIntOfDecimal(Digits(n));
  }

  /** One digit or more, all of them of the radix. */
  predicate DigitsIn(s: string, radix: nat) {
    s != [] && forall i :: 0 <= i < |s| ==> DigitValue(s[i], radix).Some?
  }

  /** The digits of a radix are these in order, letters in either case, and no other characters. */
  lemma DigitsInOrder(d: nat, c: char, radix: nat)
    requires d < 16
    ensures DigitValue("0123456789abcdef"[d], radix) == DigitValue("0123456789ABCDEF"[d], radix) == if d < radix then Some(d) else None
    ensures var v := DigitValue(c, 16);
            v.Some? ==> c == "0123456789abcdef"[v.value] || c == "0123456789ABCDEF"[v.value]
  {
  }

  function Power(base: nat, n: nat): nat {
    if n == 0 then 1 else base * Power(base, n - 1)
  }

  /** Digits weigh by place: the first one as many powers of the radix as there are digits after it. */
  lemma {:induction false} PlaceValue(s: string, radix: nat)
    ensures ParseRadix(s, radix).Some? <==> DigitsIn(s, radix)
    ensures DigitsIn(s, radix) ==>
              ParseRadix(s, radix).value
              == DigitValue(s[0], radix).value * Power(radix, |s| - 1) + if |s| == 1 then 0 else ParseOr0(s[1..], radix)
  {
    hide DigitValue;
    if |s| > 1 {
      var n := |s| - 1;
      PlaceValue(s[..n], radix);
      assert forall i :: 0 <= i < n ==> s[..n][i] == s[i];
      if DigitsIn(s, radix) {
        var first, last := DigitValue(s[0], radix).value, DigitValue(s[n], radix).value;
        assert DigitsIn(s[..n], radix);
        if n > 1 {
          assert s[1..][..n - 1] == s[..n][1..] && s[1..][n - 1] == s[n];
          PlaceValue(s[1..], radix);
          PlaceValue(s[1..n], radix);
          assert s[1..n] == s[..n][1..];
          var middle := ParseOr0(s[1..n], radix);
          Shift(first, Power(radix, n - 1), middle, radix);
        }
      }
    }
  }

  function ParseOr0(s: string, radix: nat): nat {
    if ParseRadix(s, radix).Some? then ParseRadix(s, radix).value else 0
  }

  lemma Shift(first: nat, power: nat, rest: nat, radix: nat)
    ensures (first * power + rest) * radix == first * (radix * power) + rest * radix
  {
  }

  lemma TrimTwice(s: string)
    ensures Trim(Trim(s)) == Trim(s)
  {
    TrimCuts(s);
  }

  lemma SpaceIsNoDigit(c: char, radix: nat)
    requires radix <= 16 && DigitValue(c, radix).Some?
    ensures !IsSpace(c)
  {
  }

  lemma LedUntrimmed(lead: string, digits: string, radix: nat)
    requires radix <= 16 && lead != "" && !IsSpace(lead[0]) && DigitsIn(digits, radix)
    ensures Trim(lead + digits) == lead + digits && (lead + digits)[|lead|..] == digits
  {
    hide IsSpace, DigitValue;
    SpaceIsNoDigit(digits[|digits| - 1], radix);
    assert (lead + digits)[|lead + digits| - 1] == digits[|digits| - 1];
  }

  /** White space around a text is ignored, and nothing but that reads as 0. */
  lemma BigIntOfSpaced(raw: string)
    ensures BigIntOf(raw) == BigIntOf(Trim(raw))
    ensures Blank(raw) ==> BigIntOf(raw) == Some(0)
  {
    TrimTwice(raw);
    TrimCuts(raw);
    hide Trim, ParseRadix;
  }

  /** A sign is for decimal digits. */
  lemma BigIntOfSigned(digits: string)
    requires DigitsIn(digits, 10)
    ensures BigIntOf("-" + digits) == Signed(ParseRadix(digits, 10), -1)
    ensures BigIntOf("+" + digits) == Signed(ParseRadix(digits, 10), 1)
  {
    LedUntrimmed("-", digits, 10);
    LedUntrimmed("+", digits, 10);
    hide Trim, ParseRadix, DigitsIn;
  }

  /** After 0x, 0o or 0b, in either case, the digits are of that radix. */
  lemma BigIntOfRadix(mark: char, digits: string, radix: nat)
    requires (mark in "xX" && radix == 16) || (mark in "oO" && radix == 8) || (mark in "bB" && radix == 2)
    requires DigitsIn(digits, radix)
    ensures BigIntOf(['0', mark] + digits) == Signed(ParseRadix(digits, radix), 1)
  {
    LedUntrimmed(['0', mark], digits, radix);
    hide Trim, ParseRadix, DigitsIn;
    assert digits != [] by { DigitsThere(digits, radix); }
  }

  lemma DigitsThere(digits: string, radix: nat)
    requires DigitsIn(digits, radix)
    ensures digits != []
  {
  }

  lemma PrintIntInjective(i: int, j: int)
    requires PrintInt(i) == PrintInt(j)
    ensures i == j
  {
    DigitsParse(if i < 0 then -i else i);
    DigitsParse(if j < 0 then -j else j);
    var s, t := PrintInt(i), PrintInt(j);
    assert (s[0] == '-') == (i < 0);
    assert (t[0] == '-') == (j < 0);
    if i < 0 {
      assert s[1..] == Digits(-i) && t[1..] == Digits(-j);
    }
  }
}
