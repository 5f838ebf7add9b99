/**
 * The JavaScript number built-ins the trainer relies on, on integers:
 * `parseInt` without a radix, `String(n)` for integers, the falsy-default
 * idiom `parseInt(x) || d`, and `Math.round(100 * c / t)` for percentages.
 */
module JsNumbers {
  import opened Types

  /** White space and line terminators that `parseInt` skips at the start
      (ECMAScript's WhiteSpace and LineTerminator productions). */
  predicate IsJsSpace(c: char)
  {
    var u := c as int;
    u == 0x09 || u == 0x0A || u == 0x0B || u == 0x0C || u == 0x0D || u == 0x20 || u == 0xA0
    || u == 0x1680 || (0x2000 <= u <= 0x200A) || u == 0x2028 || u == 0x2029 || u == 0x202F
    || u == 0x205F || u == 0x3000 || u == 0xFEFF
  }

  /** The string with its leading white space removed. */
  function TrimStart(s: string): (r: string)
    ensures |r| <= |s| && r == s[|s| - |r|..]
    ensures r == [] || !IsJsSpace(r[0])
    ensures forall i :: 0 <= i < |s| - |r| ==> IsJsSpace(s[i])
  {
    if s == [] || !IsJsSpace(s[0]) then s else TrimStart(s[1..])
  }

  /** The value of a digit character in the given radix, or -1 when the
      character is not a digit of that radix. */
  function DigitOf(c: char, radix: nat): (d: int)
    ensures -1 <= d < radix
  {
    var v :=
      if '0' <= c <= '9' then c as int - '0' as int
      else if 'a' <= c <= 'z' then c as int - 'a' as int + 10
      else if 'A' <= c <= 'Z' then c as int - 'A' as int + 10
      else -1;
    if v < radix then v else -1
  }

  predicate IsDigit(c: char, radix: nat)
  {
    DigitOf(c, radix) >= 0
  }

  /** The length of the longest prefix of `s` made of digits of the radix. */
  function DigitRun(s: string, radix: nat): (k: nat)
    ensures k <= |s|
    ensures forall i :: 0 <= i < k ==> IsDigit(s[i], radix)
    ensures k < |s| ==> !IsDigit(s[k], radix)
  {
    if s == [] || !IsDigit(s[0], radix) then 0 else 1 + DigitRun(s[1..], radix)
  }

  /** The value of a string of digits in the given radix, most significant first. */
  function DigitsValue(ds: string, radix: nat): int
  {
    if ds == [] then 0
    else DigitsValue(ds[..|ds| - 1], radix) * radix + DigitOf(ds[|ds| - 1], radix)
  }

  /** `parseInt(s)`: skip leading white space, read an optional sign and an
      optional `0x`/`0X` prefix, then the longest run of digits; `None`
      stands for NaN (no digit at all). */
  function ParseInt(s: string): (r: Option<int>)
    ensures r.None? <==> DigitRun(ParseBody(s), ParseRadix(s)) == 0
  {
    var body := ParseBody(s);
    var radix := ParseRadix(s);
    var k := DigitRun(body, radix);
    if k == 0 then None else Some(ParseSign(s) * DigitsValue(body[..k], radix))
  }

  /** The text after white space and sign. */
  function Unsigned(s: string): string
  {
    var t := TrimStart(s);
    if |t| > 0 && (t[0] == '-' || t[0] == '+') then t[1..] else t
  }

  function ParseSign(s: string): int
  {
    var t := TrimStart(s);
    if |t| > 0 && t[0] == '-' then -1 else 1
  }

  predicate HasHexPrefix(u: string)
  {
    |u| >= 2 && u[0] == '0' && (u[1] == 'x' || u[1] == 'X')
  }

  function ParseRadix(s: string): nat
  {
    if HasHexPrefix(Unsigned(s)) then 16 else 10
  }

  /** The text whose leading digits are read. */
  function ParseBody(s: string): string
  {
    var u := Unsigned(s);
    if HasHexPrefix(u) then u[2..] else u
  }

  function DigitChar(d: nat): (c: char)
    requires d < 10
    ensures DigitOf(c, 10) == d
  {
    ('0' as int + d) as char
  }

  /** The decimal text of a natural number, without leading zeros. */
  function NatToString(n: nat): (s: string)
    ensures |s| > 0
    ensures forall i :: 0 <= i < |s| ==> IsDigit(s[i], 10)
    ensures |s| > 1 ==> s[0] != '0'
  {
    if n < 10 then [DigitChar(n)] else NatToString(n / 10) + [DigitChar(n % 10)]
  }

  /** `String(n)` for an integer. */
  function IntToString(n: int): (s: string)
    ensures |s| > 0 && !IsJsSpace(s[0])
  {
    if n < 0 then "-" + NatToString(-n) else NatToString(n)
  }

  lemma {:induction false} NatToStringValue(n: nat)
    ensures DigitsValue(NatToString(n), 10) == n
  {
    var s := NatToString(n);
    if n >= 10 {
      NatToStringValue(n / 10);
      assert s[..|s| - 1] == NatToString(n / 10);
    }
  }

  /** Reading back the decimal text of an integer gives the integer. */
  lemma ParseIntToString(n: int)
    ensures ParseInt(IntToString(n)) == Some(n)
  {
    var s := IntToString(n);
    var ds := NatToString(if n < 0 then -n else n);
    assert TrimStart(s) == s;
    assert Unsigned(s) == ds;
    assert !HasHexPrefix(ds) by {
      if |ds| >= 2 { assert IsDigit(ds[1], 10); }
    }
    assert ParseBody(s) == ds && ParseRadix(s) == 10;
    assert DigitRun(ds, 10) == |ds|;
    assert ds[..|ds|] == ds;
    NatToStringValue(if n < 0 then -n else n);
  }

  lemma ParseIntEmpty()
    ensures ParseInt("") == None
  {
    assert ParseBody("") == "";
  }

  /** `parseInt(x) || d`: NaN and zero are falsy and give the default. */
  function OrDefault(p: Option<int>, d: int): (r: int)
    ensures p.Some? && p.value != 0 ==> r == p.value
    ensures p.None? || p.value == 0 ==> r == d
    ensures d != 0 ==> r != 0
  {
    if p.Some? && p.value != 0 then p.value else d
  }

  /** `parseInt(x) || d` where the default is itself a number that may be
      NaN: NaN and zero give the default. */
  function OrDefaultNo(p: Option<int>, d: WordNo): (r: WordNo)
    ensures p.Some? && p.value != 0 ==> r == Num(p.value)
    ensures p.None? || p.value == 0 ==> r == d
    ensures r.NaN? <==> d.NaN? && (p.None? || p.value == 0)
  {
    if p.Some? && p.value != 0 then Num(p.value) else d
  }

  /** `String(x)` for a number that may be NaN. */
  function NumberToString(x: WordNo): (s: string)
    ensures |s| > 0
  {
    match x
    case Num(n) => IntToString(n)
    case NaN => "NaN"
  }

  /** Reading back the text of a number gives the number, and NaN stays NaN. */
  lemma ParseNumberToString(x: WordNo)
    ensures x.Num? ==> ParseInt(NumberToString(x)) == Some(x.n)
    ensures x.NaN? ==> ParseInt(NumberToString(x)) == None
  {
    match x
    case Num(n) => ParseIntToString(n);
    case NaN => ParseIntNonDigit("NaN");
  }

  /** Text starting with a character that is neither white space, a sign
      nor a decimal digit parses to NaN. */
  lemma ParseIntNonDigit(s: string)
    requires |s| > 0 && !IsJsSpace(s[0]) && s[0] != '-' && s[0] != '+' && !IsDigit(s[0], 10)
    ensures ParseInt(s) == None
  {
    assert TrimStart(s) == s;
    assert Unsigned(s) == s;
    assert !HasHexPrefix(s) by { assert s[0] != '0'; }
  }

  /** `Math.max(a, b)`: NaN when either is NaN, else the larger. */
  function JsMax(a: WordNo, b: WordNo): (r: WordNo)
    ensures r.NaN? <==> a.NaN? || b.NaN?
    ensures r.Num? ==> r.n >= a.n && r.n >= b.n && (r.n == a.n || r.n == b.n)
  {
    if a.NaN? || b.NaN? then NaN else Num(Max(a.n, b.n))
  }

  /** `Math.round(100 * c / t)` in exact arithmetic: the integer nearest to
      100c/t, halves rounded up. */
  function RoundPercent(c: int, t: int): (r: int)
    requires 0 <= c && 0 < t
    ensures 2 * t * r <= 200 * c + t < 2 * t * r + 2 * t
  {
    (200 * c + t) / (2 * t)
  }

  /** Comparing multiples of a positive number compares the factors. */
  lemma FactorLess(t: int, a: int, b: int)
    requires t > 0 && t * a < t * b
    ensures a < b
  {
  }

  /** A percentage of a part never leaves 0..100, is 0 exactly below half a
      percent and 100 exactly from 99.5 percent on. */
  lemma RoundPercentBounds(c: int, t: int)
    requires 0 <= c <= t && 0 < t
    ensures 0 <= RoundPercent(c, t) <= 100
    ensures RoundPercent(c, t) == 0 <==> 200 * c < t
    ensures RoundPercent(c, t) == 100 <==> 200 * c >= 199 * t
  {
    var r := RoundPercent(c, t);
    var t2 := 2 * t;
    var m := t2 * r;
    assert m <= 200 * c + t < m + t2;
    assert t2 * (r + 1) == m + t2;
    PercentRange(t2, r, c, t);
    PercentZero(t2, r, c, t);
    PercentFull(t2, r, c, t);
  }

  lemma PercentRange(t2: int, r: int, c: int, t: int)
    requires 0 <= c <= t && 0 < t && t2 == 2 * t
    requires t2 * r <= 200 * c + t < t2 * (r + 1)
    ensures 0 <= r <= 100
  {
    assert t2 * 0 == 0 && t2 * 101 == 202 * t;
    FactorLess(t2, 0, r + 1);
    FactorLess(t2, r, 101);
  }

  lemma PercentZero(t2: int, r: int, c: int, t: int)
    requires 0 <= c && 0 < t && t2 == 2 * t && 0 <= r
    requires t2 * r <= 200 * c + t < t2 * (r + 1)
    ensures r == 0 <==> 200 * c < t
  {
    assert t2 * 1 == 2 * t;
    if 200 * c < t {
      FactorLess(t2, r, 1);
    } else {
      FactorLess(t2, 1, r + 1);
    }
  }

  lemma PercentFull(t2: int, r: int, c: int, t: int)
    requires 0 <= c <= t && 0 < t && t2 == 2 * t && r <= 100
    requires t2 * r <= 200 * c + t < t2 * (r + 1)
    ensures r == 100 <==> 200 * c >= 199 * t
  {
    assert t2 * 100 == 200 * t;
    if 200 * c >= 199 * t {
      FactorLess(t2, 100, r + 1);
    } else {
      FactorLess(t2, r, 100);
    }
  }
}
