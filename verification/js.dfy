/**
 The slice of JavaScript value semantics the form logic relies on: values and
 their truthiness, the value bag read by key, `String.prototype.trim`, the UTF-16
 `length` of a string, and the decimal rendering of an integer in a template literal.
 */
module Js {
  import opened Wrappers

  /** A JavaScript value as it can appear in the form data. Numbers are integers
      here (no fractions, NaN or infinities); arrays, objects and functions are `Obj`. */
  datatype Value = Undefined | Null | Bool(b: bool) | Num(n: int) | Str(s: string) | Obj

  /** `!!v`: the values a JavaScript condition treats as true. */
  predicate IsTruthy(v: Value)
    ensures !IsTruthy(v) <==> v in {Undefined, Null, Bool(false), Num(0), Str("")}
  {
    match v
    case Undefined => false
    case Null => false
    case Bool(b) => b
    case Num(n) => n != 0
    case Str(s) => s != ""
    case Obj => true
  }

  /** The cumulative form data, `Record<string, unknown>`. */
  type Bag = map<string, Value>

  /** `bag[k]` for an own key; a key that is not there reads as `undefined`. */
  function Read(bag: Bag, k: string): (v: Value)
    ensures v != Undefined ==> k in bag && bag[k] == v
    ensures k in bag ==> v == bag[k]
    ensures k !in bag ==> v == Undefined
  {
    if k in bag then bag[k] else Undefined
  }

  /** `{ ...prev, ...next }`: the keys of `next` override those of `prev`. */
  function Spread(prev: Bag, next: Bag): (r: Bag)
    ensures r.Keys == prev.Keys + next.Keys
    ensures forall k :: Read(r, k) == (if k in next then next[k] else Read(prev, k))
  {
    prev + next
  }

  /** `...(x && { key: x })` on an optional number: the property appears exactly
      when `x` is present and truthy (a 0 is dropped), and then carries `x`. */
  function SpreadIfTruthy(x: Option<int>): (r: Option<int>)
    ensures r.Some? <==> x.Some? && IsTruthy(Num(x.value))
    ensures r.Some? ==> r == x
  {
    if x.Some? && x.value != 0 then x else None
  }

  /** ECMAScript WhiteSpace and LineTerminator code points: what `trim` removes
      and what `\s` matches in a regular expression. */
  predicate IsWhitespace(c: char)
  {
    var n := c as int;
    || n == 0x09 || n == 0x0A || n == 0x0B || n == 0x0C || n == 0x0D
    || n == 0x20 || n == 0xA0 || n == 0x1680 || (0x2000 <= n <= 0x200A)
    || n == 0x2028 || n == 0x2029 || n == 0x202F || n == 0x205F
    || n == 0x3000 || n == 0xFEFF
  }

  predicate IsBlank(s: string)
  {
    forall i :: 0 <= i < |s| ==> IsWhitespace(s[i])
  }

  /** Drops the leading whitespace. */
  function TrimStart(s: string): (r: string)
    ensures |r| <= |s| && r == s[|s| - |r|..]
    ensures IsBlank(s[..|s| - |r|])
    ensures r == [] || !IsWhitespace(r[0])
  {
    if |s| > 0 && IsWhitespace(s[0]) then
      var r := TrimStart(s[1..]);
      var removed := s[1..][..|s| - 1 - |r|];
      assert IsBlank(removed);
      assert s[..|s| - |r|] == [s[0]] + removed;
      r
    else s
  }

  /** Drops the trailing whitespace. */
  function TrimEnd(s: string): (r: string)
    ensures |r| <= |s| && r == s[..|r|]
    ensures IsBlank(s[|r|..])
    ensures r == [] || !IsWhitespace(r[|r| - 1])
  {
    if |s| > 0 && IsWhitespace(s[|s| - 1]) then
      var r := TrimEnd(s[..|s| - 1]);
      assert s[|r|..] == s[..|s| - 1][|r|..] + [s[|s| - 1]];
      r
    else s
  }

  /** `s.trim()`. */
  function Trim(s: string): string
  {
    TrimEnd(TrimStart(s))
  }

  /** `s.trim() === ''` holds exactly for the strings made of whitespace only. */
  lemma TrimEmptyIffBlank(s: string)
    ensures Trim(s) == "" <==> IsBlank(s)
  {
    var t := TrimStart(s);
    if TrimEnd(t) == "" {
      assert IsBlank(t) by {
        assert t[0..] == t;
      }
      assert |t| == 0;
      assert s[..|s|] == s;
    }
  }

  /** The UTF-16 code units of one code point. */
  function CodeUnits(c: char): nat
  {
    if c as int < 0x10000 then 1 else 2
  }

  /** `s.length`: JavaScript counts UTF-16 code units, so a code point outside the
      Basic Multilingual Plane counts twice. */
  function Utf16Length(s: string): (r: nat)
    ensures |s| <= r <= 2 * |s|
    ensures r == |s| <==> forall i :: 0 <= i < |s| ==> s[i] as int < 0x10000
  {
    if |s| == 0 then 0
    else
      var r := CodeUnits(s[0]) + Utf16Length(s[1..]);
      assert forall i :: 1 <= i < |s| ==> s[i] == s[1..][i - 1];
      r
  }

  /** `.length` adds up over concatenation, one character counting its own code
      units, so it is the total number of UTF-16 code units of the string. */
  lemma {:induction false} Utf16LengthConcat(a: string, b: string)
    ensures Utf16Length(a + b) == Utf16Length(a) + Utf16Length(b)
    ensures |a| == 1 ==> Utf16Length(a) == CodeUnits(a[0])
    decreases |a|
  {
    if |a| == 0 {
      assert a + b == b;
    } else {
      assert (a + b)[1..] == a[1..] + b;
      Utf16LengthConcat(a[1..], b);
      if |a| == 1 {
        assert a[1..] == [];
      }
    }
  }

  predicate IsDigit(c: char)
  {
    '0' <= c <= '9'
  }

  function DigitChar(d: int): (c: char)
    requires 0 <= d < 10
    ensures IsDigit(c) && c as int - '0' as int == d
  {
    (d + '0' as int) as char
  }

  /** Decimal digits of a natural number, most significant first, without leading zeros. */
  function NatToDecimal(n: nat): (r: string)
    ensures |r| >= 1
    ensures forall i :: 0 <= i < |r| ==> IsDigit(r[i])
    ensures |r| > 1 ==> r[0] != '0'
  {
    if n < 10 then [DigitChar(n)] else NatToDecimal(n / 10) + [DigitChar(n % 10)]
  }

  /** The number a string of decimal digits denotes. */
  function DecimalValue(s: string): nat
    requires forall i :: 0 <= i < |s| ==> IsDigit(s[i])
  {
    if |s| == 0 then 0
    else
      assert IsDigit(s[|s| - 1]);
      DecimalValue(s[..|s| - 1]) * 10 + (s[|s| - 1] as int - '0' as int)
  }

  lemma {:induction false} DecimalRoundTrip(n: nat)
    ensures DecimalValue(NatToDecimal(n)) == n
  {
    if n >= 10 {
      var r := NatToDecimal(n);
      assert r[..|r| - 1] == NatToDecimal(n / 10);
      DecimalRoundTrip(n / 10);
    }
  }

  /** `${n}` for an integer-valued number. */
  function NumberToString(n: int): string
  {
    if n < 0 then "-" + NatToDecimal(-n) else NatToDecimal(n)
  }

  /** Different numbers are written differently: the sign shows in the first
      character and the digits read back as the magnitude. */
  lemma NumberToStringInjective(a: int, b: int)
    requires NumberToString(a) == NumberToString(b)
    ensures a == b
  {
    var ma: nat := if a < 0 then -a else a;
    var mb: nat := if b < 0 then -b else b;
    DecimalRoundTrip(ma);
    DecimalRoundTrip(mb);
    assert IsDigit(NatToDecimal(ma)[0]) && IsDigit(NatToDecimal(mb)[0]);
    assert NumberToString(a)[0] == '-' <==> a < 0;
    assert NumberToString(b)[0] == '-' <==> b < 0;
    var s := NumberToString(a);
    assert NatToDecimal(ma) == (if a < 0 then s[1..] else s);
    assert NatToDecimal(mb) == (if b < 0 then s[1..] else s);
  }
}
