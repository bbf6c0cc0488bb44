/** JSON number texts (section 6 of RFC 8259) and the exact decimal they denote. */
module Decimal {
  import opened Text

  /** m times ten to the e. */
  function Scale(m: int, e: int): real {
    if e >= 0 then (m * Pow10(e)) as real else m as real / Pow10(-e) as real
  }

  function IndexOf(s: string, c: char, d: char): (i: nat)
    ensures i <= |s|
    ensures forall k | 0 <= k < i :: s[k] != c && s[k] != d
    ensures i < |s| ==> s[i] == c || s[i] == d
  {
    if s == [] || s[0] == c || s[0] == d then 0 else 1 + IndexOf(s[1..], c, d)
  }

  lemma {:induction false} IndexOfUnique(s: string, c: char, d: char, i: nat)
    requires i <= |s|
    requires forall k | 0 <= k < i :: s[k] != c && s[k] != d
    requires i < |s| ==> s[i] == c || s[i] == d
    ensures IndexOf(s, c, d) == i
  {}

  predicate Negative(raw: string) {
    raw != [] && raw[0] == '-'
  }

  function Unsigned(raw: string): string {
    if Negative(raw) then raw[1..] else raw
  }

  /** The text before the exponent marker, without the sign. */
  function Mantissa(raw: string): string {
    var u := Unsigned(raw);
    u[..IndexOf(u, 'e', 'E')]
  }

  predicate HasExponent(raw: string) {
    IndexOf(Unsigned(raw), 'e', 'E') < |Unsigned(raw)|
  }

  function ExponentText(raw: string): string {
    var u := Unsigned(raw);
    var i := IndexOf(u, 'e', 'E');
    if i < |u| then u[i + 1..] else ""
  }

  predicate HasPoint(raw: string) {
    IndexOf(Mantissa(raw), '.', '.') < |Mantissa(raw)|
  }

  function IntegerPart(raw: string): string {
    var m := Mantissa(raw);
    m[..IndexOf(m, '.', '.')]
  }

  function Fraction(raw: string): string {
    var m := Mantissa(raw);
    var i := IndexOf(m, '.', '.');
    if i < |m| then m[i + 1..] else ""
  }

  predicate IsExponentText(s: string) {
    var digits := if s != [] && (s[0] == '+' || s[0] == '-') then s[1..] else s;
    digits != [] && AllDigits(digits)
  }

  function ExponentValue(s: string): int
    requires IsExponentText(s)
  {
    if s[0] == '-' then 0 - NatValue(s[1..]) else if s[0] == '+' then NatValue(s[1..]) else NatValue(s)
  }

  /** The grammar of section 6 of RFC 8259. */
  predicate IsNumber(raw: string) {
    Plain(IntegerPart(raw)) &&
    AllDigits(Fraction(raw)) && (HasPoint(raw) ==> Fraction(raw) != []) &&
    (HasExponent(raw) ==> IsExponentText(ExponentText(raw)))
  }

  function Exponent(raw: string): int
    requires IsNumber(raw)
  {
    if HasExponent(raw) then ExponentValue(ExponentText(raw)) else 0
  }

  function Digits(raw: string): (s: string)
    requires IsNumber(raw)
    ensures AllDigits(s) && s != []
  {
    IntegerPart(raw) + Fraction(raw)
  }

  function Signed(negative: bool, m: nat): int {
    if negative then 0 - m else m
  }

  /** The decimal the text denotes, with no rounding. */
  function Exact(raw: string): real
    requires IsNumber(raw)
  {
    Scale(Signed(Negative(raw), NatValue(Digits(raw))), Exponent(raw) - |Fraction(raw)|)
  }

  // ---------- texts built from a sign, integer digits and fraction digits ----------

  function PointText(negative: bool, integer: string, fraction: string): string {
    (if negative then "-" else "") + integer + (if fraction == "" then "" else "." + fraction)
  }

  /** A text without exponent is taken apart into the pieces it was built from. */
  lemma {:induction false} PointTextParts(negative: bool, integer: string, fraction: string)
    requires Plain(integer) && AllDigits(fraction)
    ensures var raw := PointText(negative, integer, fraction);
      && IsNumber(raw) && Negative(raw) == negative && !HasExponent(raw)
      && HasPoint(raw) == (fraction != "")
      && IntegerPart(raw) == integer && Fraction(raw) == fraction
  {
    var raw := PointText(negative, integer, fraction);
    var u := integer + (if fraction == "" then "" else "." + fraction);
    assert Negative(raw) == negative && Unsigned(raw) == u;
    PointTextChars(u, integer, fraction);
    IndexOfUnique(u, 'e', 'E', |u|);
    assert Mantissa(raw) == u;
    MantissaParts(u, integer, fraction);
  }

  lemma {:induction false} PointTextChars(u: string, integer: string, fraction: string)
    requires AllDigits(integer) && AllDigits(fraction)
    requires u == integer + (if fraction == "" then "" else "." + fraction)
    ensures forall k | 0 <= k < |u| :: u[k] != 'e' && u[k] != 'E'
    ensures forall k | 0 <= k < |u| :: u[k] == '.' <==> fraction != "" && k == |integer|
  {}

  lemma {:induction false} MantissaParts(u: string, integer: string, fraction: string)
    requires AllDigits(integer) && AllDigits(fraction)
    requires u == integer + (if fraction == "" then "" else "." + fraction)
    ensures var i := IndexOf(u, '.', '.');
      && u[..i] == integer && (i < |u|) == (fraction != "")
      && (i < |u| ==> u[i + 1..] == fraction)
  {
    IndexOfUnique(u, '.', '.', |integer|);
  }

  /** An integer printed in base ten is a JSON number denoting that integer. */
  lemma {:induction false} ExactIntText(n: int)
    ensures IsNumber(IntText(n)) && Exact(IntText(n)) == n as real
  {
    var m := if n < 0 then -n else n;
    assert IntText(n) == PointText(n < 0, NatText(m), "");
    PointTextParts(n < 0, NatText(m), "");
    assert NatText(m) + "" == NatText(m);
  }

  /** Different integers have different texts. */
  lemma {:induction false} IntTextsApart(a: int, b: int)
    requires IntText(a) == IntText(b)
    ensures a == b
  {
    ExactIntText(a);
    ExactIntText(b);
  }
}
