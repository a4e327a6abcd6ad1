/** Helpers shared by every component: the optional value, and the pieces of
    JavaScript string behaviour the sources rely on (whitespace, `trim`,
    `includes`, `startsWith`, `slice(-n)`, `parseInt`, number printing). */
module Base {

  /** `null`/`undefined` versus a present value. */
  datatype Option<T> = None | Some(value: T) {
    function GetOr(default: T): T {
      match this
      case Some(v) => v
      case None => default
    }
  }

  // ---------------------------------------------------------------------
  // Characters

  /** The characters matched by the JavaScript class `\s` and removed by
      `String.prototype.trim` (WhiteSpace plus LineTerminator). */
  predicate IsJsSpace(c: char) {
    || c == ' ' || c == '\t' || c == '\n' || c == '\r'
    || c == '\U{000B}' || c == '\U{000C}' || c == '\U{00A0}' || c == '\U{1680}'
    || ('\U{2000}' <= c <= '\U{200A}')
    || c == '\U{2028}' || c == '\U{2029}' || c == '\U{202F}' || c == '\U{205F}'
    || c == '\U{3000}' || c == '\U{FEFF}'
  }

  predicate IsDigit(c: char) {
    '0' <= c <= '9'
  }

  function DigitValue(c: char): (d: nat)
    requires IsDigit(c)
    ensures d < 10
  {
    (c as int) - ('0' as int)
  }

  function DigitChar(d: nat): (c: char)
    requires d < 10
    ensures IsDigit(c) && DigitValue(c) == d
  {
    (('0' as int) + d) as char
  }

  /** `toLowerCase` restricted to the ASCII letters. */
  function LowerAscii(c: char): (r: char)
    ensures 'A' <= c <= 'Z' ==> 'a' <= r <= 'z'
    ensures !('A' <= c <= 'Z') ==> r == c
  {
    if 'A' <= c <= 'Z' then ((c as int) + 32) as char else c
  }

  function ToLowerAscii(s: string): (r: string)
    ensures |r| == |s|
    ensures forall i :: 0 <= i < |s| ==> r[i] == LowerAscii(s[i])
  {
    if s == [] then [] else [LowerAscii(s[0])] + ToLowerAscii(s[1..])
  }

  // ---------------------------------------------------------------------
  // Substrings

  predicate StartsWith(s: string, prefix: string) {
    |prefix| <= |s| && s[..|prefix|] == prefix
  }

  predicate OccursAt(s: string, sub: string, i: int) {
    0 <= i && i + |sub| <= |s| && s[i..i + |sub|] == sub
  }

  /** `s.includes(sub)`. */
  predicate Contains(s: string, sub: string) {
    exists i | 0 <= i <= |s| :: OccursAt(s, sub, i)
  }

  lemma ContainsWitness(s: string, sub: string, i: int)
    requires OccursAt(s, sub, i)
    ensures Contains(s, sub)
  {
  }

  /** Everything `s.includes(sub)` promises is kept by a longer string. */
  lemma ContainsExtend(s: string, sub: string, pre: string, post: string)
    requires Contains(s, sub)
    ensures Contains(pre + s + post, sub)
  {
    var i :| 0 <= i <= |s| && OccursAt(s, sub, i);
    assert (pre + s + post)[|pre| + i..|pre| + i + |sub|] == s[i..i + |sub|];
    ContainsWitness(pre + s + post, sub, |pre| + i);
  }

  // ---------------------------------------------------------------------
  // trim

  function TrimStart(s: string): (r: string)
    ensures |r| <= |s| && r == s[|s| - |r|..]
    ensures r != [] ==> !IsJsSpace(r[0])
    ensures forall i :: 0 <= i < |s| - |r| ==> IsJsSpace(s[i])
  {
    if s != [] && IsJsSpace(s[0]) then TrimStart(s[1..]) else s
  }

  function TrimEnd(s: string): (r: string)
    ensures |r| <= |s| && r == s[..|r|]
    ensures r != [] ==> !IsJsSpace(r[|r| - 1])
    ensures forall i :: |r| <= i < |s| ==> IsJsSpace(s[i])
  {
    if s != [] && IsJsSpace(s[|s| - 1]) then TrimEnd(s[..|s| - 1]) else s
  }

  /** `String.prototype.trim`: the longest slice of `s` without whitespace at
      either end, obtained by removing only whitespace. */
  function Trim(s: string): (r: string)
    ensures |r| <= |s|
    ensures r != [] ==> !IsJsSpace(r[0]) && !IsJsSpace(r[|r| - 1])
  {
    TrimEnd(TrimStart(s))
  }

  /** Trimming removes whitespace only, from both ends. */
  lemma TrimIsSlice(s: string)
    ensures exists a | 0 <= a <= |s| - |Trim(s)| :: TrimmedAt(s, Trim(s), a)
  {
    var t := TrimStart(s);
    assert TrimmedAt(s, Trim(s), |s| - |t|);
  }

  /** `r` is `s[a..a+|r|]` and everything outside that slice is whitespace. */
  ghost predicate TrimmedAt(s: string, r: string, a: int) {
    && 0 <= a && a + |r| <= |s|
    && s[a..a + |r|] == r
    && (forall i :: 0 <= i < a ==> IsJsSpace(s[i]))
    && (forall i :: a + |r| <= i < |s| ==> IsJsSpace(s[i]))
  }

  // ---------------------------------------------------------------------
  // Bounded buffers

  /** `s.slice(-n)` for `n > 0`: the `n` newest entries, or all of them. */
  function KeepLast<T>(s: seq<T>, n: nat): (r: seq<T>)
    ensures |r| == if |s| <= n then |s| else n
    ensures r == s[|s| - |r|..]
  {
    if |s| <= n then s else s[|s| - n..]
  }

  /** A log that appends and then keeps the `cap` newest entries
      (`[...prev, x].slice(-cap)`). */
  function AppendBounded<T>(log: seq<T>, x: T, cap: nat): (r: seq<T>)
    requires cap > 0
    ensures 0 < |r| <= cap && |r| <= |log| + 1
    ensures r[|r| - 1] == x
    ensures r[..|r| - 1] == log[|log| - (|r| - 1)..]
    ensures |log| < cap ==> r == log + [x]
  {
    KeepLast(log + [x], cap)
  }

  // ---------------------------------------------------------------------
  // Decimal numbers

  predicate AllDigits(s: string) {
    forall i :: 0 <= i < |s| ==> IsDigit(s[i])
  }

  /** The value of a string of decimal digits (most significant first). */
  function DecimalValue(s: string): (v: nat)
    requires AllDigits(s)
  {
    if s == [] then 0 else DecimalValue(s[..|s| - 1]) * 10 + DigitValue(s[|s| - 1])
  }

  /** `n.toString()` for a natural number. */
  function NatToString(n: nat): (r: string)
    ensures r != [] && AllDigits(r)
    ensures |r| == 1 || r[0] != '0'
    decreases n
  {
    if n < 10 then [DigitChar(n)] else NatToString(n / 10) + [DigitChar(n % 10)]
  }

  lemma {:induction false} NatToStringRoundTrip(n: nat)
    ensures DecimalValue(NatToString(n)) == n
    decreases n
  {
    if n >= 10 {
      var s := NatToString(n);
      NatToStringRoundTrip(n / 10);
      assert s[..|s| - 1] == NatToString(n / 10);
    }
  }

  /** `i.toString()` for an integer. */
  function IntToString(i: int): (r: string)
    ensures r != []
    ensures i >= 0 <==> AllDigits(r)
  {
    if i >= 0 then NatToString(i)
    else
      var r := "-" + NatToString(-i);
      assert !IsDigit(r[0]);
      r
  }

  /** `s.padStart(width, pad)`. */
  function PadStart(s: string, width: nat, pad: char): (r: string)
    ensures |r| == if |s| >= width then |s| else width
    ensures r[|r| - |s|..] == s
    ensures forall i :: 0 <= i < |r| - |s| ==> r[i] == pad
  {
    var fill := Repeat(pad, if |s| >= width then 0 else width - |s|);
    var r := fill + s;
    assert r[|fill|..] == s;
    r
  }

  /** `n` copies of `c`. */
  function Repeat(c: char, n: nat): (r: string)
    ensures |r| == n && forall i :: 0 <= i < n ==> r[i] == c
  {
    if n == 0 then [] else [c] + Repeat(c, n - 1)
  }

  // ---------------------------------------------------------------------
  // parseInt

  predicate IsHexDigit(c: char) {
    IsDigit(c) || 'a' <= c <= 'f' || 'A' <= c <= 'F'
  }

  function HexDigitValue(c: char): (d: nat)
    requires IsHexDigit(c)
    ensures d < 16
  {
    if IsDigit(c) then DigitValue(c)
    else if 'a' <= c <= 'f' then (c as int) - ('a' as int) + 10
    else (c as int) - ('A' as int) + 10
  }

  predicate IsRadixDigit(c: char, radix: nat) {
    if radix == 16 then IsHexDigit(c) else IsDigit(c)
  }

  function RadixDigitValue(c: char, radix: nat): (d: nat)
    requires IsRadixDigit(c, radix)
  {
    if radix == 16 then HexDigitValue(c) else DigitValue(c)
  }

  /** The longest prefix of `s` made of digits of the radix. */
  function DigitRun(s: string, radix: nat): (r: string)
    ensures |r| <= |s| && r == s[..|r|]
    ensures forall i :: 0 <= i < |r| ==> IsRadixDigit(r[i], radix)
    ensures |r| < |s| ==> !IsRadixDigit(s[|r|], radix)
  {
    if s != [] && IsRadixDigit(s[0], radix) then [s[0]] + DigitRun(s[1..], radix) else []
  }

  function RadixValue(s: string, radix: nat): nat
    requires forall i :: 0 <= i < |s| ==> IsRadixDigit(s[i], radix)
  {
    if s == [] then 0 else RadixValue(s[..|s| - 1], radix) * radix + RadixDigitValue(s[|s| - 1], radix)
  }

  /** JavaScript `parseInt(s)` without a radix argument: leading whitespace,
      an optional sign, an optional `0x`/`0X` prefix selecting base 16, then
      the longest run of digits. `None` stands for `NaN`. */
  function ParseInt(s: string): (r: Option<int>) {
    var t := TrimStart(s);
    var neg := t != [] && t[0] == '-';
    var u := if t != [] && (t[0] == '-' || t[0] == '+') then t[1..] else t;
    var hex := StartsWith(u, "0x") || StartsWith(u, "0X");
    var body := if hex then u[2..] else u;
    var radix := if hex then 16 else 10;
    var run := DigitRun(body, radix);
    if run == [] then None
    else
      var v: int := RadixValue(run, radix);
      Some(if neg then -v else v)
  }

  lemma {:induction false} DecimalRunValue(s: string)
    requires AllDigits(s)
    ensures forall i :: 0 <= i < |s| ==> IsRadixDigit(s[i], 10)
    ensures RadixValue(s, 10) == DecimalValue(s)
  {
    if s != [] {
      DecimalRunValue(s[..|s| - 1]);
    }
  }

  /** `parseInt` reads back what `toString` printed. */
  lemma ParseIntOfNatToString(n: nat)
    ensures ParseInt(NatToString(n)) == Some(n)
  {
    var s := NatToString(n);
    assert IsDigit(s[0]);
    assert !IsJsSpace(s[0]);
    assert TrimStart(s) == s;
    assert s[0] != '-' && s[0] != '+';
    assert !StartsWith(s, "0x") && !StartsWith(s, "0X") by {
      if |s| >= 2 { assert s[0] != '0'; }
    }
    DigitRunAll(s);
    DecimalRunValue(s);
    NatToStringRoundTrip(n);
  }

  lemma {:induction false} DigitRunAll(s: string)
    requires AllDigits(s)
    ensures DigitRun(s, 10) == s
  {
    if s != [] {
      DigitRunAll(s[1..]);
    }
  }

  // ---------------------------------------------------------------------
  // String order

  /** JavaScript `a <= b` on strings (code-unit order; characters outside
      the Basic Multilingual Plane are compared as whole code points). */
  predicate StringLessEq(a: string, b: string) {
    if a == [] then true
    else if b == [] then false
    else if a[0] != b[0] then a[0] < b[0]
    else StringLessEq(a[1..], b[1..])
  }

  lemma {:induction false} StringLessEqTotal(a: string, b: string)
    ensures StringLessEq(a, b) || StringLessEq(b, a)
  {
    if a != [] && b != [] && a[0] == b[0] {
      StringLessEqTotal(a[1..], b[1..]);
    }
  }

  lemma {:induction false} StringLessEqAntisymmetric(a: string, b: string)
    requires StringLessEq(a, b) && StringLessEq(b, a)
    ensures a == b
  {
    if a != [] && b != [] && a[0] == b[0] {
      StringLessEqAntisymmetric(a[1..], b[1..]);
    }
  }

  lemma {:induction false} StringLessEqTransitive(a: string, b: string, c: string)
    requires StringLessEq(a, b) && StringLessEq(b, c)
    ensures StringLessEq(a, c)
  {
    if a != [] && b != [] && c != [] && a[0] == b[0] && b[0] == c[0] {
      StringLessEqTransitive(a[1..], b[1..], c[1..]);
    }
  }
  // ---------------------------------------------------------------------
  // split and join on one character

  /** `s.split(c)` for a one-character separator. */
  function Split(s: string, c: char): (r: seq<string>)
    ensures |r| >= 1
  {
    if s == [] then [[]]
    else
      var rest := Split(s[1..], c);
      if s[0] == c then [[]] + rest else [[s[0]] + rest[0]] + rest[1..]
  }

  /** `parts.join(c)`. */
  function Join(parts: seq<string>, c: char): string {
    if parts == [] then []
    else if |parts| == 1 then parts[0]
    else parts[0] + [c] + Join(parts[1..], c)
  }

  lemma {:induction false} SplitWithout(p: string, c: char)
    requires c !in p
    ensures Split(p, c) == [p]
  {
    if p != [] {
      SplitWithout(p[1..], c);
      assert [p[0]] + p[1..] == p;
    }
  }

  lemma {:induction false} SplitAfter(p: string, q: string, c: char)
    requires c !in p
    ensures Split(p + [c] + q, c) == [p] + Split(q, c)
  {
    var s := p + [c] + q;
    if p == [] {
      assert s[1..] == q;
    } else {
      assert s[1..] == p[1..] + [c] + q;
      SplitAfter(p[1..], q, c);
      assert [p[0]] + p[1..] == p;
    }
  }

  /** Splitting undoes joining when no part holds the separator. */
  lemma {:induction false} SplitJoin(parts: seq<string>, c: char)
    requires parts != []
    requires forall i :: 0 <= i < |parts| ==> c !in parts[i]
    ensures Split(Join(parts, c), c) == parts
  {
    if |parts| == 1 {
      SplitWithout(parts[0], c);
    } else {
      SplitJoin(parts[1..], c);
      SplitAfter(parts[0], Join(parts[1..], c), c);
      assert [parts[0]] + parts[1..] == parts;
    }
  }
  // ---------------------------------------------------------------------
  // parseFloat

  /** A JavaScript number as `parseFloat` can return it. */
  datatype JsNumber = NaN | Finite(value: real) | Infinite(negative: bool)

  function Pow10(n: nat): (r: real)
    ensures r >= 1.0
  {
    if n == 0 then 1.0 else 10.0 * Pow10(n - 1)
  }

  /** The exponent part `e±ddd` at the start of `s`, 0 when absent (an `e`
      with no digits after it is not consumed). */
  function ExponentOf(s: string): int {
    if s != [] && (s[0] == 'e' || s[0] == 'E') then
      var u := s[1..];
      var neg := u != [] && u[0] == '-';
      var body := if u != [] && (u[0] == '-' || u[0] == '+') then u[1..] else u;
      var run := DigitRun(body, 10);
      var v: int := RadixValue(run, 10);
      if neg then -v else v
    else 0
  }

  function ScaleBy10(m: real, e: int): real {
    if e >= 0 then m * Pow10(e) else m / Pow10(-e)
  }

  /** JavaScript `parseFloat(s)`: leading whitespace, an optional sign,
      then `Infinity` or the longest decimal literal. Anything after it is
      ignored. */
  function ParseFloat(s: string): JsNumber {
    var t := TrimStart(s);
    var neg := t != [] && t[0] == '-';
    var u := if t != [] && (t[0] == '-' || t[0] == '+') then t[1..] else t;
    if StartsWith(u, "Infinity") then Infinite(neg)
    else match DecimalLiteral(u)
      case Finite(v) => Finite(if neg then -v else v)
      case _ => NaN
  }

  /** An unsigned decimal literal at the start of `u`: digits, an optional
      fraction, an optional exponent; at least one digit before the
      exponent. */
  function DecimalLiteral(u: string): JsNumber {
    var whole := DigitRun(u, 10);
    AfterWholeDigits(whole, u[|whole|..])
  }

  function AfterWholeDigits(whole: string, rest: string): JsNumber
    requires forall i :: 0 <= i < |whole| ==> IsRadixDigit(whole[i], 10)
  {
    var dot := rest != [] && rest[0] == '.';
    var frac := if dot then DigitRun(rest[1..], 10) else [];
    if whole == [] && frac == [] then NaN
    else
      var tail := if dot then rest[1 + |frac|..] else rest;
      Finite(ScaleBy10(Mantissa(whole, frac), ExponentOf(tail)))
  }

  /** The value of `whole.frac`. */
  function Mantissa(whole: string, frac: string): real
    requires forall i :: 0 <= i < |whole| ==> IsRadixDigit(whole[i], 10)
    requires forall i :: 0 <= i < |frac| ==> IsRadixDigit(frac[i], 10)
  {
    RadixValue(whole, 10) as real + RadixValue(frac, 10) as real / Pow10(|frac|)
  }

  lemma {:induction false} DigitRunStops(p: string, q: string)
    requires AllDigits(p) && (q == [] || !IsDigit(q[0]))
    ensures DigitRun(p + q, 10) == p
  {
    if p != [] {
      assert (p + q)[1..] == p[1..] + q;
      DigitRunStops(p[1..], q);
    } else {
      assert p + q == q;
    }
  }

  /** Text that starts with a digit is read as an unsigned literal. */
  lemma ParseFloatUnsigned(s: string)
    requires s != [] && IsDigit(s[0])
    ensures ParseFloat(s) == DecimalLiteral(s)
  {
    assert !IsJsSpace(s[0]);
    assert TrimStart(s) == s;
    assert !StartsWith(s, "Infinity");
    var whole := DigitRun(s, 10);
    assert whole != [];
  }

  /** `parseFloat` reads back a whole number typed without a fraction. */
  lemma ParseFloatWhole(whole: string)
    requires whole != [] && AllDigits(whole)
    ensures ParseFloat(whole) == Finite(DecimalValue(whole) as real)
  {
    ParseFloatUnsigned(whole);
    WholeValue(whole);
  }

  lemma WholeValue(whole: string)
    requires whole != [] && AllDigits(whole)
    ensures DecimalLiteral(whole) == Finite(DecimalValue(whole) as real)
  {
    DecimalLiteralSplits(whole, []);
    assert whole + [] == whole;
    assert ExponentOf([]) == 0;
    MantissaValue(whole, []);
  }

  lemma DecimalLiteralSplits(whole: string, rest: string)
    requires AllDigits(whole) && (rest == [] || !IsDigit(rest[0]))
    ensures DecimalRunValueReady(whole)
    ensures DecimalLiteral(whole + rest) == AfterWholeDigits(whole, rest)
  {
    DigitRunStops(whole, rest);
    assert (whole + rest)[|whole|..] == rest;
    DecimalRunValue(whole);
  }

  predicate DecimalRunValueReady(s: string) {
    forall i :: 0 <= i < |s| ==> IsRadixDigit(s[i], 10)
  }

  lemma MantissaValue(whole: string, frac: string)
    requires AllDigits(whole) && AllDigits(frac)
    ensures DecimalRunValueReady(whole) && DecimalRunValueReady(frac)
    ensures Mantissa(whole, frac) == DecimalValue(whole) as real + DecimalValue(frac) as real / Pow10(|frac|)
  {
    DecimalRunValue(whole);
    DecimalRunValue(frac);
  }
}
