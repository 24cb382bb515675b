/**
 * Shared vocabulary of the model: an Option type for the source's
 * None / null / undefined, Python's and JavaScript's whitespace trimming,
 * ASCII case folding and the decimal renderings of numbers that both the
 * Python server and the browser scripts produce (`str(int)`, `String(number)`, `padStart`, `toFixed`).
 */
module Common {

  datatype Option<+T> = None | Some(value: T)

  /** The characters a trimming function takes for whitespace. */
  type Whitespace = char -> bool

  /** Python's `str.isspace()`, the set `str.strip()` removes: tab, line
      feed, vertical tab, form feed and carriage return (U+0009 to U+000D),
      the information separators U+001C to U+001F, the space, the next-line
      control U+0085, the no-break space, the Unicode space separators and
      the line and paragraph separators. */
  predicate IsPySpace(c: char) {
    '\t' <= c <= '\r' || 0x1C <= c as int <= 0x20 || c as int == 0x85 || c as int == 0xA0
    || c as int == 0x1680 || 0x2000 <= c as int <= 0x200A || c as int == 0x2028 || c as int == 0x2029
    || c as int == 0x202F || c as int == 0x205F || c as int == 0x3000
  }

  /** JavaScript's white space and line terminators, the set both `\s` and
      `String.prototype.trim()` use: tab to carriage return, the space, the
      no-break space, the Unicode space separators, the line and paragraph
      separators and the byte order mark. Unlike Python, U+001C to U+001F
      and U+0085 are not among them. */
  predicate IsJsSpace(c: char) {
    '\t' <= c <= '\r' || c == ' ' || c as int == 0xA0 || c as int == 0x1680 || 0x2000 <= c as int <= 0x200A
    || c as int == 0x2028 || c as int == 0x2029 || c as int == 0x202F || c as int == 0x205F
    || c as int == 0x3000 || c as int == 0xFEFF
  }

  predicate IsDigit(c: char) {
    '0' <= c <= '9'
  }

  predicate AllDigits(s: string) {
    forall i :: 0 <= i < |s| ==> IsDigit(s[i])
  }

  // ---------------------------------------------------------------------
  // Trimming

  function TrimStart(ws: Whitespace, s: string): (r: string)
    ensures |r| <= |s| && r == s[|s| - |r|..]
    ensures forall i :: 0 <= i < |s| - |r| ==> ws(s[i])
    ensures r == [] || !ws(r[0])
  {
    if s != [] && ws(s[0]) then
      var t := TrimStart(ws, s[1..]);
      assert s[1..][|s| - 1 - |t|..] == s[|s| - |t|..];
      assert forall i :: 1 <= i < |s| - |t| ==> s[1..][i - 1] == s[i];
      t
    else s
  }

  function TrimEnd(ws: Whitespace, s: string): (r: string)
    ensures |r| <= |s| && r == s[..|r|]
    ensures forall i :: |r| <= i < |s| ==> ws(s[i])
    ensures r == [] || !ws(r[|r| - 1])
  {
    if s != [] && ws(s[|s| - 1]) then TrimEnd(ws, s[..|s| - 1]) else s
  }

  /** `str.strip()` (with `IsPySpace`) / `String.prototype.trim()` (with
      `IsJsSpace`): whitespace dropped at both ends (`TrimBounds` shows that
      nothing else is). */
  function Trim(ws: Whitespace, s: string): (r: string)
    ensures |r| <= |s|
    ensures r == [] || (!ws(r[0]) && !ws(r[|r| - 1]))
  {
    TrimEnd(ws, TrimStart(ws, s))
  }

  /** Python's `str.strip()` with no argument. */
  function PyStrip(s: string): string {
    Trim(IsPySpace, s)
  }

  /** JavaScript's `String.prototype.trim()`. */
  function JsTrim(s: string): string {
    Trim(IsJsSpace, s)
  }

  /** What `Trim` removes: whitespace before and after the result. */
  lemma TrimBounds(ws: Whitespace, s: string) returns (p: string, q: string)
    ensures s == p + Trim(ws, s) + q
    ensures forall k :: 0 <= k < |p| ==> ws(p[k])
    ensures forall k :: 0 <= k < |q| ==> ws(q[k])
  {
    var t0 := TrimStart(ws, s);
    p := LeadingSpaces(ws, s);
    q := TrailingSpaces(ws, t0);
    Regroup(s, p, t0, TrimEnd(ws, t0), q);
  }

  lemma Regroup(s: string, p: string, t0: string, t: string, q: string)
    requires s == p + t0 && t0 == t + q
    ensures s == p + t + q
  {
  }

  lemma LeadingSpaces(ws: Whitespace, s: string) returns (p: string)
    ensures s == p + TrimStart(ws, s)
    ensures forall k :: 0 <= k < |p| ==> ws(p[k])
  {
    p := s[..|s| - |TrimStart(ws, s)|];
  }

  lemma TrailingSpaces(ws: Whitespace, s: string) returns (q: string)
    ensures s == TrimEnd(ws, s) + q
    ensures forall k :: 0 <= k < |q| ==> ws(q[k])
  {
    q := s[|TrimEnd(ws, s)|..];
  }

  lemma {:induction false} TrimOfTrimmed(ws: Whitespace, s: string)
    requires s == [] || (!ws(s[0]) && !ws(s[|s| - 1]))
    ensures Trim(ws, s) == s
  {
  }

  // ---------------------------------------------------------------------
  // ASCII case folding

  function LowerChar(c: char): (r: char)
    ensures 'A' <= c <= 'Z' ==> 'a' <= r <= 'z'
    ensures !('A' <= c <= 'Z') ==> r == c
  {
    if 'A' <= c <= 'Z' then (c as int + 32) as char else c
  }

  /** `str.lower()` / `String.prototype.toLowerCase()` on ASCII letters. */
  function Lower(s: string): (r: string)
    ensures |r| == |s|
    ensures forall i :: 0 <= i < |s| ==> r[i] == LowerChar(s[i])
  {
    if s == [] then [] else Lower(s[..|s| - 1]) + [LowerChar(s[|s| - 1])]
  }

  // ---------------------------------------------------------------------
  // Decimal rendering of integers

  function DigitChar(d: nat): (c: char)
    requires d < 10
    ensures IsDigit(c) && c as int - '0' as int == d
  {
    ('0' as int + d) as char
  }

  function DigitValue(c: char): nat
    requires IsDigit(c)
  {
    c as int - '0' as int
  }

  /** The number a string of decimal digits denotes. */
  function DigitsValue(s: string): nat
    requires AllDigits(s)
  {
    if s == [] then 0 else DigitsValue(s[..|s| - 1]) * 10 + DigitValue(s[|s| - 1])
  }

  /** `str(n)` / `String(n)` for a non-negative integer: the shortest digit
      string denoting `n`. */
  function NatToString(n: nat): (r: string)
    ensures |r| >= 1 && AllDigits(r)
    ensures r[0] == '0' ==> n == 0 && |r| == 1
    ensures (n < 10) == (|r| == 1)
    ensures DigitsValue(r) == n
  {
    if n < 10 then [DigitChar(n)]
    else
      var p := NatToString(n / 10);
      var r := p + [DigitChar(n % 10)];
      assert r[..|r| - 1] == p;
      r
  }

  lemma NatToStringInjective(m: nat, n: nat)
    requires NatToString(m) == NatToString(n)
    ensures m == n
  {
  }

  /** `str(i)` for any integer: a minus sign before the digits of `|i|`. */
  function IntToString(i: int): (r: string)
    ensures |r| >= 1
    ensures forall k :: 0 <= k < |r| ==> IsDigit(r[k]) || (k == 0 && r[k] == '-')
    ensures (r[0] == '-') == (i < 0)
  {
    if i < 0 then "-" + NatToString(-i) else NatToString(i)
  }

  lemma IntToStringInjective(i: int, j: int)
    requires IntToString(i) == IntToString(j)
    ensures i == j
  {
    if i < 0 {
      assert IntToString(i)[1..] == NatToString(-i);
      assert IntToString(j)[1..] == NatToString(-j);
      NatToStringInjective(-i, -j);
    } else {
      NatToStringInjective(i, j);
    }
  }

  function Zeros(k: nat): (r: string)
    ensures |r| == k && AllDigits(r)
    ensures forall i :: 0 <= i < k ==> r[i] == '0'
  {
    seq(k, _ => '0')
  }

  /** `s.padStart(width, "0")`. */
  function PadStart(s: string, width: nat): (r: string)
    ensures |r| == if |s| >= width then |s| else width
    ensures r == Zeros(|r| - |s|) + s
    ensures AllDigits(s) ==> AllDigits(r)
  {
    if |s| >= width then s else Zeros(width - |s|) + s
  }

  lemma TwoDigitsValue(a: char, b: char)
    requires IsDigit(a) && IsDigit(b)
    ensures AllDigits([a, b])
    ensures DigitsValue([a, b]) == DigitValue(a) * 10 + DigitValue(b)
  {
    assert [a, b][..1] == [a];
    assert [a][..0] == [];
    assert DigitsValue([a]) == DigitsValue([]) * 10 + DigitValue(a) == DigitValue(a);
  }

  /** The value of the zero-padded two-character field written for a number
      below 100 by `String(n).padStart(2, "0")`. */
  lemma PadTwoDigits(n: nat)
    requires n < 100
    ensures |PadStart(NatToString(n), 2)| == 2
    ensures DigitsValue(PadStart(NatToString(n), 2)) == n
  {
    var s := NatToString(n);
    if n < 10 {
      var c := DigitChar(n);
      assert s == [c];
      assert PadStart(s, 2) == ['0', c];
      TwoDigitsValue('0', c);
    } else {
      assert s == NatToString(n / 10) + [DigitChar(n % 10)];
      assert |NatToString(n / 10)| == 1;
      assert PadStart(s, 2) == s;
    }
  }

  // ---------------------------------------------------------------------
  // Joining

  /** `Array.prototype.join(sep)`. */
  function Join(parts: seq<string>, sep: string): (r: string)
    ensures parts == [] ==> r == ""
    ensures |parts| == 1 ==> r == parts[0]
  {
    if parts == [] then ""
    else if |parts| == 1 then parts[0]
    else Join(parts[..|parts| - 1], sep) + sep + parts[|parts| - 1]
  }

  // ---------------------------------------------------------------------
  // Fixed-point rendering

  function Pow10(d: nat): (r: nat)
    ensures r >= 1
  {
    if d == 0 then 1 else 10 * Pow10(d - 1)
  }

  /** The integer nearest to `x * 10^d`, the larger on a tie: what
      `Number.prototype.toFixed(d)` renders for a non-negative `x`, and
      `round(x, d)` scaled by `10^d`. */
  function ScaledRound(x: real, d: nat): (n: int)
    ensures (n as real) - 0.5 <= x * Pow10(d) as real < (n as real) + 0.5
    ensures x >= 0.0 ==> n >= 0
  {
    (x * Pow10(d) as real + 0.5).Floor
  }

  lemma {:induction false} ZerosValue(k: nat)
    ensures DigitsValue(Zeros(k)) == 0
  {
    if k > 0 {
      assert Zeros(k)[..k - 1] == Zeros(k - 1);
      ZerosValue(k - 1);
    }
  }

  /** Leading zeros do not change the value of a digit string. */
  lemma {:induction false} PaddedValue(k: nat, s: string)
    requires AllDigits(s)
    ensures AllDigits(Zeros(k) + s) && DigitsValue(Zeros(k) + s) == DigitsValue(s)
  {
    if s == [] {
      assert Zeros(k) + s == Zeros(k);
      ZerosValue(k);
    } else {
      var init := s[..|s| - 1];
      PaddedValue(k, init);
      assert (Zeros(k) + s)[..|Zeros(k) + s| - 1] == Zeros(k) + init;
    }
  }

  /** The length of the sign and of the point in a rendering. */
  function SignWidth(negative: bool): nat {
    if negative then 1 else 0
  }

  function PointWidth(d: nat): nat {
    if d > 0 then 1 else 0
  }

  /** The text has room for a sign, at least one integer digit, a point
      and `d` decimals. */
  predicate FixedShape(r: string, d: nat, negative: bool) {
    |r| >= SignWidth(negative) + 1 + PointWidth(d) + d
  }

  /** The digits between the sign and the point. */
  function IntDigits(r: string, d: nat, negative: bool): string
    requires FixedShape(r, d, negative)
  {
    r[SignWidth(negative)..|r| - d - PointWidth(d)]
  }

  /** The `d` digits after the point. */
  function FracDigits(r: string, d: nat): string
    requires |r| >= d
  {
    r[|r| - d..]
  }

  /** `r` is a fixed-point rendering of `value` with `d` decimals: a minus
      sign exactly when `negative`; the integer digits, with no leading
      zero unless there is only one; when `d > 0`, a point followed by
      exactly `d` digits; and, without the sign and the point, the digits
      denote `value`. */
  predicate FixedRendering(r: string, d: nat, negative: bool, value: int) {
    && FixedShape(r, d, negative)
    && (r[0] == '-') == negative
    && (d > 0 ==> r[|r| - d - 1] == '.')
    && AllDigits(IntDigits(r, d, negative)) && AllDigits(FracDigits(r, d))
    && (|IntDigits(r, d, negative)| > 1 ==> IntDigits(r, d, negative)[0] != '0')
    && DigitsValue(IntDigits(r, d, negative) + FracDigits(r, d)) == value
  }

  /** The sign, the integer digits and, when there are any decimals, a
      point and the decimals. */
  function Assemble(sign: string, intPart: string, fracPart: string): string {
    if fracPart == [] then sign + intPart else sign + intPart + "." + fracPart
  }

  /** Where the parts of an assembled text sit. */
  lemma AssembledParts(sign: string, intPart: string, fracPart: string, negative: bool)
    requires sign == if negative then "-" else ""
    requires |intPart| >= 1
    ensures var r := Assemble(sign, intPart, fracPart);
      && FixedShape(r, |fracPart|, negative)
      && IntDigits(r, |fracPart|, negative) == intPart
      && FracDigits(r, |fracPart|) == fracPart
      && (r[0] == '-' <==> negative || intPart[0] == '-')
      && (fracPart != [] ==> r[|r| - |fracPart| - 1] == '.')
  {
    var r := Assemble(sign, intPart, fracPart);
    if negative {
      assert r[0] == sign[0];
    } else {
      assert r[0] == intPart[0];
    }
    if fracPart == [] {
      assert r == sign + intPart;
      assert r[|sign|..|r|] == intPart;
    } else {
      assert r == sign + intPart + "." + fracPart;
      assert r[|sign|..|r| - |fracPart| - 1] == intPart;
      assert r[|r| - |fracPart|..] == fracPart;
    }
  }

  /** The text `toFixed` builds from the sign and the digits `m` of the
      scaled integer: the last `d` digits after the point. */
  function FixedText(negative: bool, m: string, d: nat): string
    requires |m| >= d
  {
    Assemble(if negative then "-" else "", m[..|m| - d], m[|m| - d..])
  }

  lemma AssembledRenders(sign: string, intPart: string, fracPart: string, negative: bool, n: nat)
    requires sign == if negative then "-" else ""
    requires |intPart| >= 1 && (|intPart| > 1 ==> intPart[0] != '0')
    requires AllDigits(intPart + fracPart) && DigitsValue(intPart + fracPart) == n
    ensures FixedRendering(Assemble(sign, intPart, fracPart), |fracPart|, negative, n)
  {
    DigitsOfParts(intPart, fracPart);
    AssembledParts(sign, intPart, fracPart, negative);
  }

  lemma DigitsOfParts(a: string, b: string)
    requires AllDigits(a + b)
    ensures AllDigits(a) && AllDigits(b)
  {
    forall i | 0 <= i < |a|
      ensures IsDigit(a[i])
    {
      assert a[i] == (a + b)[i];
    }
    forall i | 0 <= i < |b|
      ensures IsDigit(b[i])
    {
      assert b[i] == (a + b)[|a| + i];
    }
  }

  /** The digits of `n` padded to at least `d + 1` characters still denote
      `n`, and start with a zero only when no longer than `d + 1`. */
  lemma PaddedDigits(n: nat, d: nat)
    ensures var m := PadStart(NatToString(n), d + 1);
      |m| >= d + 1 && AllDigits(m) && (|m| > d + 1 ==> m[0] != '0') && DigitsValue(m) == n
  {
    var digits := NatToString(n);
    var m := PadStart(digits, d + 1);
    PaddedValue(|m| - |digits|, digits);
    if |m| > d + 1 {
      assert m == digits;
    }
  }

  lemma FixedTextRenders(negative: bool, m: string, d: nat, n: nat)
    requires |m| >= d + 1 && AllDigits(m) && (|m| > d + 1 ==> m[0] != '0') && DigitsValue(m) == n
    ensures FixedRendering(FixedText(negative, m, d), d, negative, n)
  {
    var intPart, fracPart := m[..|m| - d], m[|m| - d..];
    assert intPart + fracPart == m;
    AssembledRenders(if negative then "-" else "", intPart, fracPart, negative, n);
  }

  /** `x.toFixed(d)` for `x` below 10^21: the fixed-point rendering of
      `ScaledRound(|x|, d)`, signed like `x`. */
  function ToFixed(x: real, d: nat): (r: string)
    ensures FixedRendering(r, d, x < 0.0, ScaledRound(if x < 0.0 then -x else x, d))
  {
    var n := ScaledRound(if x < 0.0 then -x else x, d);
    var m := PadStart(NatToString(n), d + 1);
    PaddedDigits(n, d);
    FixedTextRenders(x < 0.0, m, d, n);
    FixedText(x < 0.0, m, d)
  }
}
