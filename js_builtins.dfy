/**
  The JavaScript built-ins the core leans on: the white-space set of ECMA-262
  (WhiteSpace and LineTerminator, sections 12.2 and 12.3), `String.prototype.trim`
  (section 22.1.3.32) and the global `parseInt` with no radix argument
  (section 19.2.5), followed by the `|| 0` fallback that turns NaN into 0.
  Integers are unbounded: the IEEE double that `parseInt` really returns is not
  modelled.
*/
module JsBuiltins {
  import opened Wrappers

  /** WhiteSpace or LineTerminator: the code points `trim` removes and `parseInt` skips. */
  predicate IsJsWhiteSpace(c: char) {
    || c == '\t' || c == '\n' || c == '\U{000B}' || c == '\U{000C}' || c == '\r'
    || c == ' ' || c == '\U{00A0}' || c == '\U{1680}'
    || ('\U{2000}' <= c <= '\U{200A}')
    || c == '\U{2028}' || c == '\U{2029}' || c == '\U{202F}' || c == '\U{205F}'
    || c == '\U{3000}' || c == '\U{FEFF}'
  }

  /** Drops the leading white space: what is left is a suffix that starts with a non-blank. */
  function TrimStart(s: string): (r: string)
    ensures |r| <= |s| && r == s[|s| - |r|..]
    ensures forall i :: 0 <= i < |s| - |r| ==> IsJsWhiteSpace(s[i])
    ensures r == [] || !IsJsWhiteSpace(r[0])
  {
    if |s| > 0 && IsJsWhiteSpace(s[0]) then TrimStart(s[1..]) else s
  }

  /** Drops the trailing white space: what is left is a prefix that ends with a non-blank. */
  function TrimEnd(s: string): (r: string)
    ensures |r| <= |s| && r == s[..|r|]
    ensures forall i :: |r| <= i < |s| ==> IsJsWhiteSpace(s[i])
    ensures r == [] || !IsJsWhiteSpace(r[|r| - 1])
  {
    if |s| > 0 && IsJsWhiteSpace(s[|s| - 1]) then TrimEnd(s[..|s| - 1]) else s
  }

  /** `s.trim()` */
  function Trim(s: string): (r: string)
    ensures |r| <= |s|
    ensures r == [] || (!IsJsWhiteSpace(r[0]) && !IsJsWhiteSpace(r[|r| - 1]))
  {
    TrimEnd(TrimStart(s))
  }

  /** `s.trim()` is empty exactly when every character of `s` is white space. */
  lemma TrimEmptyIff(s: string)
    ensures Trim(s) == [] <==> forall i :: 0 <= i < |s| ==> IsJsWhiteSpace(s[i])
  {
  }

  predicate IsDecimalDigit(c: char) {
    '0' <= c <= '9'
  }

  /** A digit of the given radix (10 or 16), either case for the letters. */
  predicate IsRadixDigit(c: char, radix: nat) {
    if radix == 16 then IsDecimalDigit(c) || 'a' <= c <= 'f' || 'A' <= c <= 'F'
    else IsDecimalDigit(c)
  }

  function DigitValue(c: char): (d: nat)
    requires IsRadixDigit(c, 16)
    ensures d < 16
    ensures IsDecimalDigit(c) ==> d < 10
  {
    if IsDecimalDigit(c) then c as nat - '0' as nat
    else if 'a' <= c <= 'f' then c as nat - 'a' as nat + 10
    else c as nat - 'A' as nat + 10
  }

  /** The mathematical value of a digit string, most significant digit first. */
  function DigitsValue(s: string, radix: nat): (v: nat)
    requires radix == 10 || radix == 16
    requires forall i :: 0 <= i < |s| ==> IsRadixDigit(s[i], radix)
  {
    if |s| == 0 then 0
    else
      assert IsRadixDigit(s[|s| - 1], radix);
      assert IsRadixDigit(s[|s| - 1], 16);
      DigitsValue(s[..|s| - 1], radix) * radix + DigitValue(s[|s| - 1])
  }

  /** The length of the longest prefix of `s` made of radix digits. */
  function DigitRun(s: string, radix: nat): (k: nat)
    ensures k <= |s|
    ensures forall i :: 0 <= i < k ==> IsRadixDigit(s[i], radix)
    ensures k < |s| ==> !IsRadixDigit(s[k], radix)
  {
    if |s| > 0 && IsRadixDigit(s[0], radix) then 1 + DigitRun(s[1..], radix) else 0
  }

  /**
    The digits after the sign: radix 16 after a `0x`/`0X` prefix, radix 10
    otherwise; the longest run of digits is read, and no digit at all is NaN.
  */
  function ParseUnsigned(u: string): Option<nat> {
    var hex := |u| >= 2 && u[0] == '0' && (u[1] == 'x' || u[1] == 'X');
    var radix := if hex then 16 else 10;
    var digits := if hex then u[2..] else u;
    var end := DigitRun(digits, radix);
    if end == 0 then None else Some(DigitsValue(digits[..end], radix))
  }

  /**
    `parseInt(text)` with the radix left undefined: skip leading white space, read
    an optional sign, then the digits; NaN is `None`.
  */
  function ParseInt(text: string): (r: Option<int>)
    ensures r.Some? ==> exists i :: 0 <= i < |text| && IsDecimalDigit(text[i])
  {
    var s := TrimStart(text);
    var sign := if |s| > 0 && s[0] == '-' then -1 else 1;
    var unsigned := if |s| > 0 && (s[0] == '-' || s[0] == '+') then s[1..] else s;
    assert (|unsigned| == 0 || !IsDecimalDigit(unsigned[0])) ==> ParseUnsigned(unsigned) == None by {
      if |unsigned| == 0 || !IsDecimalDigit(unsigned[0]) {
        ParseUnsignedNoDigit(unsigned);
      }
    }
    assert |unsigned| > 0 ==> unsigned[0] == text[|text| - |unsigned|];
    match ParseUnsigned(unsigned)
    case None => None
    case Some(v) => Some(sign * v)
  }

  /** `parseInt(val) || 0`: NaN (and -0) become 0. */
  function Coerce(val: string): (r: int)
    ensures r != 0 ==> exists i :: 0 <= i < |val| && IsDecimalDigit(val[i])
  {
    match ParseInt(val)
    case None => 0
    case Some(n) => n
  }

  /** Text without any decimal digit (blank, white space only, letters, a lone sign) coerces to 0. */
  lemma CoerceWithoutDigits(val: string)
    requires forall i :: 0 <= i < |val| ==> !IsDecimalDigit(val[i])
    ensures Coerce(val) == 0
  {
    var s := TrimStart(val);
    var signed := |s| > 0 && (s[0] == '-' || s[0] == '+');
    var unsigned := if signed then s[1..] else s;
    if |unsigned| > 0 {
      var at := if signed then |val| - |s| + 1 else |val| - |s|;
      assert unsigned[0] == val[at];
    }
    ParseUnsignedNoDigit(unsigned);
  }

  /** Digits that do not start with a decimal digit read as NaN. */
  lemma ParseUnsignedNoDigit(u: string)
    requires |u| == 0 || !IsDecimalDigit(u[0])
    ensures ParseUnsigned(u) == None
  {
    if |u| > 0 {
      assert !IsRadixDigit(u[0], 10);
    }
  }

  /** Blank or white-space-only text coerces to 0. */
  lemma CoerceBlank(val: string)
    requires forall i :: 0 <= i < |val| ==> IsJsWhiteSpace(val[i])
    ensures Coerce(val) == 0
  {
    CoerceWithoutDigits(val);
  }

  /** A non-empty string of decimal digits reads as its decimal value. */
  lemma ParseUnsignedDigits(d: string)
    requires |d| > 0
    requires forall i :: 0 <= i < |d| ==> IsDecimalDigit(d[i])
    ensures ParseUnsigned(d) == Some(DigitsValue(d, 10))
  {
    assert !(|d| >= 2 && d[0] == '0' && (d[1] == 'x' || d[1] == 'X'));
    DigitRunAll(d, 10);
    assert d[..|d|] == d;
  }

  /** Text that starts with a digit is read without white space or sign. */
  lemma ParseIntFromDigit(text: string)
    requires |text| > 0 && IsDecimalDigit(text[0])
    ensures ParseInt(text) == ParseUnsigned(text)
  {
    assert !IsJsWhiteSpace(text[0]);
    assert TrimStart(text) == text;
  }

  /** Text that is a minus sign followed by a digit reads as the negated number. */
  lemma ParseIntNegative(d: string)
    requires |d| > 0 && IsDecimalDigit(d[0])
    ensures ParseUnsigned(d).None? ==> ParseInt("-" + d).None?
    ensures ParseUnsigned(d).Some? ==> ParseInt("-" + d) == Some(-(ParseUnsigned(d).value as int))
  {
    var text := "-" + d;
    assert text[0] == '-' && !IsJsWhiteSpace(text[0]);
    assert TrimStart(text) == text;
    assert text[1..] == d;
  }

  /** A non-empty string of decimal digits coerces to its decimal value. */
  lemma CoerceDigits(val: string)
    requires |val| > 0
    requires forall i :: 0 <= i < |val| ==> IsDecimalDigit(val[i])
    ensures Coerce(val) == DigitsValue(val, 10)
  {
    ParseIntFromDigit(val);
    ParseUnsignedDigits(val);
  }

  lemma {:induction false} DigitRunAll(s: string, radix: nat)
    requires forall i :: 0 <= i < |s| ==> IsRadixDigit(s[i], radix)
    ensures DigitRun(s, radix) == |s|
  {
    if |s| > 0 {
      DigitRunAll(s[1..], radix);
    }
  }

  /** The decimal digits of a natural number, as `String(n)` writes them. */
  function NatToDecimal(n: nat): (s: string)
    ensures |s| > 0
    ensures forall i :: 0 <= i < |s| ==> IsDecimalDigit(s[i])
  {
    var last := ['0' + (n % 10) as char];
    if n < 10 then last else NatToDecimal(n / 10) + last
  }

  /**
    `String(n)` for an integer below 10^21 in magnitude; larger numbers, which
    JavaScript writes in exponent form, are not modelled.
  */
  function IntToDecimal(n: int): string {
    if n < 0 then "-" + NatToDecimal(-n) else NatToDecimal(n)
  }

  lemma {:induction false} NatToDecimalValue(n: nat)
    ensures DigitsValue(NatToDecimal(n), 10) == n
  {
    var s := NatToDecimal(n);
    if n >= 10 {
      NatToDecimalValue(n / 10);
      assert s[..|s| - 1] == NatToDecimal(n / 10);
    }
  }

  /** Coercing the text of a displayed integer gives that integer back. */
  lemma CoerceIntToDecimal(n: int)
    ensures Coerce(IntToDecimal(n)) == n
  {
    var m: nat := if n < 0 then -n else n;
    var digits := NatToDecimal(m);
    NatToDecimalValue(m);
    ParseUnsignedDigits(digits);
    if n < 0 {
      ParseIntNegative(digits);
    } else {
      ParseIntFromDigit(digits);
    }
  }
}
