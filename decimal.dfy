/**
 * Decimal text: `Number.prototype.toString` for integers, fixed-width
 * zero-padded fields, `String.prototype.padStart`, and the global
 * `parseInt` (ECMAScript 262, section 19.2.5) when no radix is given.
 */
module Decimal {
  import opened Wrappers
  import JsText

  predicate IsDigit(c: char)
  {
    '0' <= c <= '9'
  }

  predicate AllDigits(s: string)
  {
    forall i :: 0 <= i < |s| ==> IsDigit(s[i])
  }

  function DigitChar(d: nat): (c: char)
    requires d < 10
    ensures IsDigit(c) && c as int - '0' as int == d
  {
    ('0' as int + d) as char
  }

  function Pow10(w: nat): (r: nat)
    ensures r >= 1
  {
    if w == 0 then 1 else 10 * Pow10(w - 1)
  }

  /** The value of a string of decimal digits, most significant first. */
  function DigitsValue(s: string): (r: nat)
    requires AllDigits(s)
    ensures r < Pow10(|s|)
  {
    if s == [] then 0
    else DigitsValue(s[..|s| - 1]) * 10 + (s[|s| - 1] as int - '0' as int)
  }

  /** The `w` low-order decimal digits of `n`, zero-padded on the left. */
  function FixedWidth(n: nat, w: nat): (r: string)
    ensures |r| == w && AllDigits(r)
  {
    if w == 0 then [] else FixedWidth(n / 10, w - 1) + [DigitChar(n % 10)]
  }

  /** Reading back a fixed-width field gives the number whenever it fits. */
  lemma {:induction false} FixedWidthRoundTrip(n: nat, w: nat)
    requires n < Pow10(w)
    ensures DigitsValue(FixedWidth(n, w)) == n
  {
    if w > 0 {
      FixedWidthRoundTrip(n / 10, w - 1);
      var r := FixedWidth(n, w);
      assert r[..|r| - 1] == FixedWidth(n / 10, w - 1);
    }
  }

  /** Conversely, a digit string is the fixed-width text of its own value. */
  lemma {:induction false} FixedWidthOfDigits(s: string)
    requires AllDigits(s)
    ensures FixedWidth(DigitsValue(s), |s|) == s
  {
    if s != [] {
      var init := s[..|s| - 1];
      var d := s[|s| - 1] as int - '0' as int;
      assert DigitsValue(s) == DigitsValue(init) * 10 + d;
      assert DigitsValue(s) / 10 == DigitsValue(init) && DigitsValue(s) % 10 == d;
      FixedWidthOfDigits(init);
      assert DigitChar(d) == s[|s| - 1];
      assert init + [s[|s| - 1]] == s;
    }
  }

  /** `String(n)` for a non-negative integer: no leading zeros. */
  function ShowNat(n: nat): (r: string)
    ensures 1 <= |r| && AllDigits(r)
    ensures r[0] == '0' ==> n == 0 && r == "0"
  {
    if n < 10 then [DigitChar(n)] else ShowNat(n / 10) + [DigitChar(n % 10)]
  }

  lemma {:induction false} ShowNatRoundTrip(n: nat)
    ensures DigitsValue(ShowNat(n)) == n
  {
    if n >= 10 {
      ShowNatRoundTrip(n / 10);
      var r := ShowNat(n);
      assert r[..|r| - 1] == ShowNat(n / 10);
    }
  }

  /** `String(i)` for any integer. */
  function ShowInt(i: int): (r: string)
    ensures 1 <= |r|
  {
    if i < 0 then "-" + ShowNat(-i) else ShowNat(i)
  }

  /** `s.padStart(w, c)` with a one-character pad string. */
  function PadStart(s: string, w: nat, c: char): (r: string)
    ensures |r| == if |s| >= w then |s| else w
    ensures |s| >= w ==> r == s
    ensures |s| < w ==> r[w - |s|..] == s && forall i :: 0 <= i < w - |s| ==> r[i] == c
  {
    if |s| >= w then s else seq(w - |s|, _ => c) + s
  }

  /** `n.toString().padStart(2, "0")` is the two-digit field of an hour or minute. */
  lemma PaddedTwoDigits(n: nat)
    requires n < 100
    ensures PadStart(ShowNat(n), 2, '0') == FixedWidth(n, 2)
  {
    if n < 10 {
      assert ShowNat(n) == [DigitChar(n)];
      assert FixedWidth(n, 2) == FixedWidth(0, 1) + [DigitChar(n)];
    } else {
      assert ShowNat(n) == ShowNat(n / 10) + [DigitChar(n % 10)];
    }
  }

  // ---- parseInt ----

  /** Digit value of `c` in base 10 or 16, or -1 when `c` is not a digit of that base. */
  function RadixDigit(c: char, radix: nat): (r: int)
    requires radix == 10 || radix == 16
    ensures -1 <= r < radix as int
  {
    if '0' <= c <= '9' then c as int - '0' as int
    else if radix == 16 && 'a' <= c <= 'f' then c as int - 'a' as int + 10
    else if radix == 16 && 'A' <= c <= 'F' then c as int - 'A' as int + 10
    else -1
  }

  /** Length of the longest prefix of `s` made of digits of `radix`. */
  function DigitPrefix(s: string, radix: nat): (k: nat)
    requires radix == 10 || radix == 16
    ensures k <= |s|
    ensures forall i :: 0 <= i < k ==> RadixDigit(s[i], radix) >= 0
    ensures k < |s| ==> RadixDigit(s[k], radix) < 0
  {
    if s == [] || RadixDigit(s[0], radix) < 0 then 0 else 1 + DigitPrefix(s[1..], radix)
  }

  function RadixValue(s: string, radix: nat): nat
    requires radix == 10 || radix == 16
    requires forall i :: 0 <= i < |s| ==> RadixDigit(s[i], radix) >= 0
  {
    if s == [] then 0
    else RadixValue(s[..|s| - 1], radix) * radix + RadixDigit(s[|s| - 1], radix)
  }

  /**
   * `parseInt(s)`: leading white space is skipped, one optional sign is read,
   * a "0x"/"0X" prefix selects base 16, and the longest run of digits that
   * follows is the value; no digits at all gives NaN (`None`).
   */
  function ParseInt(s: string): Option<int>
  {
    var t := JsText.TrimStart(s);
    if t != [] && t[0] == '-' then
      match ParseMagnitude(t[1..])
      case None => None
      case Some(n) => Some(-n)
    else if t != [] && t[0] == '+' then ParseMagnitude(t[1..])
    else ParseMagnitude(t)
  }

  /** The unsigned part of `parseInt`: an optional "0x"/"0X" prefix and the longest run of digits. */
  function ParseMagnitude(u: string): Option<int>
  {
    var hex := |u| >= 2 && u[0] == '0' && (u[1] == 'x' || u[1] == 'X');
    var radix := if hex then 16 else 10;
    var body := if hex then u[2..] else u;
    var k := DigitPrefix(body, radix);
    if k == 0 then None else Some(RadixValue(body[..k], radix))
  }

  lemma {:induction false} RadixValueDecimal(s: string)
    requires AllDigits(s)
    ensures forall i :: 0 <= i < |s| ==> RadixDigit(s[i], 10) >= 0
    ensures RadixValue(s, 10) == DigitsValue(s)
  {
    if s != [] {
      RadixValueDecimal(s[..|s| - 1]);
    }
  }

  lemma {:induction false} DigitPrefixAll(s: string)
    requires AllDigits(s)
    ensures DigitPrefix(s, 10) == |s|
  {
    if s != [] {
      DigitPrefixAll(s[1..]);
    }
  }

  /** The unsigned part of `parseInt` reads a non-empty run of decimal digits as their value. */
  lemma ParseMagnitudeDigits(s: string)
    requires 1 <= |s| && AllDigits(s)
    requires !(|s| >= 2 && s[0] == '0' && (s[1] == 'x' || s[1] == 'X'))
    ensures ParseMagnitude(s) == Some(DigitsValue(s))
  {
    DigitPrefixAll(s);
    RadixValueDecimal(s);
    assert s[..|s|] == s;
  }

  /** `parseInt` of a non-empty run of decimal digits is their value. */
  lemma ParseIntDigits(s: string)
    requires 1 <= |s| && AllDigits(s)
    requires !(|s| >= 2 && s[0] == '0' && (s[1] == 'x' || s[1] == 'X'))
    ensures ParseInt(s) == Some(DigitsValue(s))
  {
    assert !JsText.IsWhiteSpace(s[0]) && s[0] != '-' && s[0] != '+';
    assert JsText.TrimStart(s) == s;
    assert ParseInt(s) == ParseMagnitude(s);
    ParseMagnitudeDigits(s);
  }

  /** `parseInt` of a minus sign followed by `d` negates the magnitude read from `d`. */
  lemma ParseIntMinus(d: string, n: int)
    requires ParseMagnitude(d) == Some(n)
    ensures ParseInt("-" + d) == Some(-n)
  {
    var s := "-" + d;
    assert !JsText.IsWhiteSpace(s[0]);
    assert JsText.TrimStart(s) == s;
    assert s[1..] == d;
  }

  lemma ShowNegativeRoundTrip(i: int)
    requires i < 0
    ensures ParseInt(ShowInt(i)) == Some(i)
  {
    var d := ShowNat(-i);
    ShowNatRoundTrip(-i);
    ParseMagnitudeDigits(d);
    ParseIntMinus(d, -i);
  }

  lemma ShowNonNegativeRoundTrip(i: int)
    requires i >= 0
    ensures ParseInt(ShowInt(i)) == Some(i)
  {
    var d := ShowNat(i);
    ShowNatRoundTrip(i);
    ParseIntDigits(d);
  }

  /** `parseInt(String(i))` gives back `i` for every integer. */
  lemma ShowIntRoundTrip(i: int)
    ensures ParseInt(ShowInt(i)) == Some(i)
  {
    if i < 0 {
      ShowNegativeRoundTrip(i);
    } else {
      ShowNonNegativeRoundTrip(i);
    }
  }

  /** `parseInt` reads back a two-digit field. */
  lemma ParseIntFixedWidth2(n: nat)
    requires n < 100
    ensures ParseInt(FixedWidth(n, 2)) == Some(n)
  {
    FixedWidthRoundTrip(n, 2);
    ParseIntDigits(FixedWidth(n, 2));
  }
}
