/**
 * The parts of the Java platform that the binders and form helpers rely on:
 * 32-bit `int` arithmetic, `Integer.toString`, `Integer.parseInt` and the
 * `String` predicates `startsWith`, `indexOf`, `isBlank`, `trim`.
 */
module JavaLang {
  import opened Wrappers

  const MinInt: int := -0x8000_0000
  const MaxInt: int := 0x7FFF_FFFF

  /** The values of a Java `int`. */
  type Int32 = x: int | MinInt <= x <= MaxInt

  // ---------------------------------------------------------------------------
  // 32-bit two's-complement arithmetic
  // ---------------------------------------------------------------------------

  /** Wrap-around of an exact result into the range of `int`. */
  function Wrap(x: int): (r: Int32)
    ensures MinInt <= x <= MaxInt ==> r == x
  {
    (x - MinInt) % 0x1_0000_0000 + MinInt
  }

  /** Java `a + b` on `int`. */
  function Add(a: Int32, b: Int32): Int32 { Wrap(a + b) }

  /** Java `a * b` on `int`. */
  function Mul(a: Int32, b: Int32): Int32 { Wrap(a * b) }

  /** Java `a / b` on `int`: the quotient is truncated toward zero, and
      `MIN_VALUE / -1` wraps around to `MIN_VALUE`. Division by zero throws. */
  function Div(a: Int32, b: Int32): (q: Int32)
    requires b != 0
    ensures a >= 0 && b > 0 ==> q == a / b
    ensures !(a == MinInt && b == -1) ==> Abs(q) == Abs(a) / Abs(b)
    ensures !(a == MinInt && b == -1) && q > 0 ==> (a > 0) == (b > 0)
    ensures !(a == MinInt && b == -1) && q < 0 ==> (a > 0) != (b > 0)
    ensures a == MinInt && b == -1 ==> q == MinInt
  {
    if a == MinInt && b == -1 then MinInt
    else
      var n := Quotient(Abs(a), Abs(b));
      if (a >= 0) == (b > 0) then
        assert n <= MaxInt by {
          if Abs(b) > 1 { assert 2 * n <= Abs(a); } else { assert a != MinInt; }
        }
        n
      else
        -(n as int)
  }

  function Abs(x: int): nat { if x < 0 then -x else x }

  /** The quotient of two naturals, with the bounds `Div` needs. */
  function Quotient(x: nat, y: nat): (n: nat)
    requires y > 0
    ensures n == x / y
    ensures n <= x && (y > 1 ==> 2 * n <= x) && (x == 0 ==> n == 0)
  {
    QuotientAtMost(x, y);
    x / y
  }

  /** Dividing by a positive number does not increase a natural number. */
  lemma QuotientAtMost(a: nat, b: nat)
    requires b > 0
    ensures a / b <= a
    ensures b > 1 ==> 2 * (a / b) <= a
    ensures a == 0 ==> a / b == 0
  {
    var q := a / b;
    assert q * b + a % b == a;
    ScaleUp(q, 1, b);
    if b > 1 {
      ScaleUp(q, 2, b);
    }
  }

  lemma {:induction false} ScaleUp(q: nat, c: nat, b: nat)
    requires c <= b
    ensures q * c <= q * b
    decreases q
  {
    if q > 0 {
      ScaleUp(q - 1, c, b);
      assert q * c == (q - 1) * c + c;
      assert q * b == (q - 1) * b + b;
    }
  }

  /** `Math.abs` on `int`: the absolute value, except that `MIN_VALUE` is its own
      negation and stays negative. */
  function JavaAbs(x: Int32): (r: Int32)
    ensures x != MinInt ==> r == Abs(x)
    ensures x == MinInt ==> r == MinInt
  {
    Wrap(Abs(x))
  }

  // ---------------------------------------------------------------------------
  // Decimal text: Integer.toString and Integer.parseInt
  // ---------------------------------------------------------------------------

  predicate IsDigit(c: char) { '0' <= c <= '9' }

  predicate AllDigits(s: string) { forall i :: 0 <= i < |s| ==> IsDigit(s[i]) }

  function DigitChar(d: nat): (c: char)
    requires d < 10
    ensures IsDigit(c)
  {
    (('0' as int) + d) as char
  }

  function DigitValue(c: char): (d: nat)
    requires IsDigit(c)
    ensures d < 10 && DigitChar(d) == c
  {
    (c as int) - ('0' as int)
  }

  /** The decimal digits of `n`, most significant first, without leading zeros. */
  function NatToString(n: nat): (s: string)
    ensures |s| > 0 && AllDigits(s)
    ensures s[0] == '0' ==> n == 0
    ensures |s| > 1 ==> s[0] != '0'
    decreases n
  {
    if n < 10 then [DigitChar(n)] else NatToString(n / 10) + [DigitChar(n % 10)]
  }

  /** The number that a non-empty run of decimal digits denotes. */
  function DigitsValue(s: string): nat
    requires AllDigits(s)
    decreases |s|
  {
    if s == [] then 0 else DigitsValue(s[..|s| - 1]) * 10 + DigitValue(s[|s| - 1])
  }

  lemma {:induction false} DigitsValueOfNatToString(n: nat)
    ensures DigitsValue(NatToString(n)) == n
    decreases n
  {
    if n >= 10 {
      var s := NatToString(n);
      DigitsValueOfNatToString(n / 10);
      assert s[..|s| - 1] == NatToString(n / 10);
    }
  }

  /** `Integer.toString(n)`, also what string concatenation `"" + n` yields. */
  function IntToString(n: int): (s: string)
    ensures |s| > 0
    ensures forall i :: 0 <= i < |s| ==> IsDigit(s[i]) || (i == 0 && s[i] == '-')
    ensures (s[0] == '-') <==> n < 0
    ensures |s| > 1 ==> s[0] != '0' && (s[0] == '-' ==> s[1] != '0')
  {
    if n < 0 then "-" + NatToString(-n) else NatToString(n)
  }

  /** `Integer.parseInt(s)`: an optional sign followed by at least one decimal
      digit, whose value fits in an `int`; anything else throws
      `NumberFormatException`, modelled as None. */
  function ParseInt(s: string): (r: Option<Int32>)
    ensures r.Some? ==> s != [] && (AllDigits(s) || (s[0] in "+-" && |s| > 1 && AllDigits(s[1..])))
    ensures s != [] && AllDigits(s) ==> (r.Some? <==> DigitsValue(s) <= MaxInt)
    ensures s != [] && AllDigits(s) && r.Some? ==> r.value == DigitsValue(s)
    ensures |s| > 1 && s[0] == '+' && AllDigits(s[1..]) ==>
      (r.Some? <==> DigitsValue(s[1..]) <= MaxInt) && (r.Some? ==> r.value == DigitsValue(s[1..]))
    ensures |s| > 1 && s[0] == '-' && AllDigits(s[1..]) ==>
      (r.Some? <==> DigitsValue(s[1..]) <= -MinInt) && (r.Some? ==> r.value == -(DigitsValue(s[1..]) as int))
  {
    if s == [] then None
    else
      var digits := if s[0] == '-' || s[0] == '+' then s[1..] else s;
      if digits == [] || !AllDigits(digits) then None
      else
        var v: int := if s[0] == '-' then -(DigitsValue(digits) as int) else DigitsValue(digits);
        if MinInt <= v <= MaxInt then Some(v) else None
  }

  /** `Integer.parseInt` reads back exactly what `Integer.toString` writes. */
  lemma IntToStringRoundTrip(n: Int32)
    ensures ParseInt(IntToString(n)) == Some(n)
  {
    var s := IntToString(n);
    if n < 0 {
      var m: nat := -(n as int);
      DigitsValueOfNatToString(m);
      assert s[1..] == NatToString(m);
    } else {
      DigitsValueOfNatToString(n);
    }
  }

  // ---------------------------------------------------------------------------
  // Strings
  // ---------------------------------------------------------------------------

  /** `s.startsWith(prefix)` */
  predicate StartsWith(s: string, prefix: string)
    ensures StartsWith(s, prefix) <==> exists t :: s == prefix + t
  {
    var r := |prefix| <= |s| && s[..|prefix|] == prefix;
    assert r ==> s == prefix + s[|prefix|..];
    r
  }

  /** `s.indexOf(c)`: the first position of `c` in `s`, or -1. */
  function IndexOf(s: string, c: char): (r: int)
    ensures -1 <= r < |s|
    ensures r >= 0 ==> s[r] == c && c !in s[..r]
    ensures r < 0 ==> c !in s
    decreases |s|
  {
    if s == [] then -1
    else if s[0] == c then 0
    else
      var r := IndexOf(s[1..], c);
      if r < 0 then -1 else r + 1
  }

  /** `Character.isWhitespace`: the Unicode space, line and paragraph separators
      other than the three non-breaking spaces, and the controls U+0009 to
      U+000D and U+001C to U+001F. */
  predicate IsWhitespace(c: char)
    ensures IsWhitespace(c) ==> c != '\U{00A0}' && c != '\U{2007}' && c != '\U{202F}'
    ensures IsWhitespace(c) && (c as int) < 0x80 ==> IsTrimmed(c)
  {
    var v := c as int;
    (0x09 <= v <= 0x0D) || (0x1C <= v <= 0x20)
    || v == 0x1680 || (0x2000 <= v <= 0x2006) || (0x2008 <= v <= 0x200A)
    || v == 0x2028 || v == 0x2029 || v == 0x205F || v == 0x3000
  }

  /** `s.isBlank()`: empty or only whitespace. */
  predicate IsBlank(s: string)
    ensures IsBlank(s) && (forall i :: 0 <= i < |s| ==> (s[i] as int) < 0x80) ==> TrimIsEmpty(s)
  {
    forall i :: 0 <= i < |s| ==> IsWhitespace(s[i])
  }

  /** `String.trim` removes the characters up to and including U+0020. */
  predicate IsTrimmed(c: char) { c <= ' ' }

  /** `s.trim().isEmpty()`: empty or only characters that `trim` removes. */
  predicate TrimIsEmpty(s: string) {
    forall i :: 0 <= i < |s| ==> IsTrimmed(s[i])
  }

  function TrimStart(s: string): (r: string)
    ensures |r| <= |s| && r == s[|s| - |r|..]
    ensures r == [] || !IsTrimmed(r[0])
    ensures forall i :: 0 <= i < |s| - |r| ==> IsTrimmed(s[i])
    decreases |s|
  {
    if s != [] && IsTrimmed(s[0]) then TrimStart(s[1..]) else s
  }

  function TrimEnd(s: string): (r: string)
    ensures |r| <= |s| && r == s[..|r|]
    ensures r == [] || !IsTrimmed(r[|r| - 1])
    ensures forall i :: |r| <= i < |s| ==> IsTrimmed(s[i])
    decreases |s|
  {
    if s != [] && IsTrimmed(s[|s| - 1]) then TrimEnd(s[..|s| - 1]) else s
  }

  /** `s.trim()`: the longest middle part of `s` that neither starts nor ends
      with a character up to U+0020. */
  function Trim(s: string): (r: string)
    ensures r == [] <==> TrimIsEmpty(s)
    ensures r != [] ==> !IsTrimmed(r[0]) && !IsTrimmed(r[|r| - 1])
    ensures s != [] && !IsTrimmed(s[0]) && !IsTrimmed(s[|s| - 1]) ==> r == s
    ensures exists i, j :: 0 <= i <= j <= |s| && r == s[i..j] && TrimIsEmpty(s[..i]) && TrimIsEmpty(s[j..])
  {
    var t := TrimStart(s);
    var r := TrimEnd(t);
    var i, j := |s| - |t|, |s| - |t| + |r|;
    assert r == s[i..j];
    assert TrimIsEmpty(s[..i]);
    assert s[j..] == t[|r|..];
    r
  }
}
