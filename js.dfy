/** The pieces of JavaScript semantics the analyzer leans on: falsy defaults
    (`||`) versus absent-only defaults (`??`, `!== undefined`), Math.round,
    Number#toString on integers, parseFloat on coordinate tokens, ASCII case
    folding and substring search. Formatting of non-integral numbers
    (Number#toString, toFixed(2)) is a parameter of the model: see `Numerics`. */
module Js {
  import opened Wrappers

  /** `v || d` on a number: an absent value and 0 both take the default. */
  function NumOr(v: Option<real>, d: real): real
  {
    if v.Some? && v.value != 0.0 then v.value else d
  }

  /** `v ?? d` (also `v !== undefined ? v : d`): only an absent value takes the default. */
  function NumOrIfAbsent(v: Option<real>, d: real): real
  {
    if v.Some? then v.value else d
  }

  /** `v || d` on a string: an absent value and "" both take the default. */
  function StrOr(v: Option<string>, d: string): string
  {
    if v.Some? && v.value != "" then v.value else d
  }

  /** `v || false` on a boolean field: true only when the field holds true. */
  predicate IsTrue(v: Option<bool>)
  {
    v == Some(true)
  }

  /** `v ?? d` on a boolean field. */
  function BoolOrIfAbsent(v: Option<bool>, d: bool): bool
  {
    if v.Some? then v.value else d
  }

  /** Math.round: the nearest integer, half-way values rounded up. */
  function Round(x: real): (r: int)
    ensures r as real - 0.5 <= x < r as real + 0.5
  {
    (x + 0.5).Floor
  }

  /** Math.max(lo, Math.min(hi, n)). */
  function Clamp(n: int, lo: int, hi: int): (r: int)
    requires lo <= hi
    ensures lo <= r <= hi
    ensures lo <= n <= hi ==> r == n
  {
    if n < lo then lo else if n > hi then hi else n
  }

  function Min(a: real, b: real): real { if a <= b then a else b }

  function Max(a: real, b: real): real { if a >= b then a else b }

  /** The lower-case digit of value `d` in bases up to 16. */
  function DigitChar(d: int): char
    requires 0 <= d < 16
  {
    if d < 10 then ('0' as int + d) as char else ('a' as int + d - 10) as char
  }

  /** Number#toString(radix) on a non-negative integer. */
  function NatText(n: nat, radix: nat): (s: string)
    requires 2 <= radix <= 16
    ensures |s| >= 1
    decreases n
  {
    if n < radix then [DigitChar(n)] else NatText(n / radix, radix) + [DigitChar(n % radix)]
  }

  /** Number#toString(radix) on any integer: a minus sign, then the digits of the magnitude. */
  function IntText(i: int, radix: nat): string
    requires 2 <= radix <= 16
  {
    if i < 0 then "-" + NatText(-i, radix) else NatText(i, radix)
  }

  /** Decimal text of an integer, as template literals write whole numbers. */
  function Decimal(i: int): string
  {
    IntText(i, 10)
  }

  predicate IsDigit(c: char)
  {
    '0' <= c <= '9'
  }

  /** The length of the run of decimal digits that starts `s`. */
  function DigitRun(s: string): (k: nat)
    ensures k <= |s|
    ensures forall i | 0 <= i < k :: IsDigit(s[i])
    ensures k < |s| ==> !IsDigit(s[k])
  {
    if s != [] && IsDigit(s[0]) then 1 + DigitRun(s[1..]) else 0
  }

  /** The value of a string of decimal digits. */
  function DigitsValue(s: string): nat
    requires forall i | 0 <= i < |s| :: IsDigit(s[i])
  {
    if s == [] then 0 else DigitsValue(s[..|s| - 1]) * 10 + DigitValue(s[|s| - 1])
  }

  function DigitValue(c: char): nat
    requires IsDigit(c)
  {
    c as int - '0' as int
  }

  function Pow10(k: nat): (p: nat)
    ensures p >= 1
  {
    if k == 0 then 1 else 10 * Pow10(k - 1)
  }

  /** parseFloat on a token of digits, '.' and '-': an optional minus sign,
      integer digits and an optional fraction, read as far as they go. A token
      with no digit in that prefix is NaN in JavaScript and reads as 0 here. */
  function ParseFloat(t: string): real
  {
    var neg := t != [] && t[0] == '-';
    var body := if neg then t[1..] else t;
    var whole := body[..DigitRun(body)];
    var rest := body[|whole|..];
    var frac := if rest != [] && rest[0] == '.' then rest[1..][..DigitRun(rest[1..])] else [];
    var v := DigitsValue(whole) as real + DigitsValue(frac) as real / Pow10(|frac|) as real;
    if neg then -v else v
  }

  /** Lower-casing of one character (ASCII letters only). */
  function LowerChar(c: char): char
  {
    if 'A' <= c <= 'Z' then (c as int + 32) as char else c
  }

  /** String#toLowerCase, restricted to ASCII letters. */
  function ToLower(s: string): (r: string)
    ensures |r| == |s|
    ensures forall i | 0 <= i < |s| :: r[i] == LowerChar(s[i])
  {
    seq(|s|, i requires 0 <= i < |s| => LowerChar(s[i]))
  }

  /** String#includes: `part` occurs in `s` at some position. */
  predicate Includes(s: string, part: string)
  {
    exists i | 0 <= i <= |s| - |part| :: part <= s[i..]
  }

  /** The number formatting the runtime supplies: Number#toString on
      non-integral values and Number#toFixed(2). */
  datatype Numerics = Numerics(show: real -> string, fixed2: real -> string)
}
