/** Names, and decimal text as the standard library writes and reads integers. */
module Text {
  import opened Options

  /** userNamePattern of internal/compiler/helpers.go. */
  predicate Identifier(name: string) {
    name != "" && 'a' <= name[0] <= 'z' &&
    forall i | 0 <= i < |name| :: 'a' <= name[i] <= 'z' || '0' <= name[i] <= '9' || name[i] == '_'
  }

  predicate IsDigit(c: char) {
    '0' <= c <= '9'
  }

  function DigitValue(c: char): (d: nat)
    requires IsDigit(c)
  {
    c as int - '0' as int
  }

  function DigitChar(d: nat): (c: char)
    requires d < 10
    ensures IsDigit(c) && DigitValue(c) == d
  {
    ('0' as int + d) as char
  }

  predicate AllDigits(s: string) {
    forall i | 0 <= i < |s| :: IsDigit(s[i])
  }

  /** The number a string of digits denotes, most significant digit first. */
  function NatValue(s: string): nat
    requires AllDigits(s)
  {
    if s == [] then 0 else NatValue(s[..|s| - 1]) * 10 + DigitValue(s[|s| - 1])
  }

  /** A digit string as `strconv` prints it: no leading zero, except for zero itself. */
  predicate Plain(s: string) {
    AllDigits(s) && s != [] && (s[0] == '0' ==> s == "0")
  }

  /** strconv.FormatUint(n, 10). */
  function NatText(n: nat): (s: string)
    ensures Plain(s) && NatValue(s) == n
    ensures n > 0 ==> s[0] != '0'
  {
    if n < 10 then
      var s := [DigitChar(n)];
      assert s[..|s| - 1] == [];
      s
    else
      var s := NatText(n / 10) + [DigitChar(n % 10)];
      assert s[..|s| - 1] == NatText(n / 10);
      s
  }

  /** strconv.FormatInt(n, 10). */
  function IntText(n: int): (s: string) {
    if n < 0 then "-" + NatText(-n) else NatText(n)
  }

  lemma {:induction false} PositiveValue(s: string)
    requires Plain(s) && s != "0"
    ensures NatValue(s) > 0
  {
    if |s| > 1 {
      assert s[..|s| - 1][0] == s[0];
      PositiveValue(s[..|s| - 1]);
    } else {
      assert s[..|s| - 1] == [];
    }
  }

  /** Printing what was read gives the same digits back. */
  lemma {:induction false} NatTextOfValue(s: string)
    requires Plain(s)
    ensures NatText(NatValue(s)) == s
  {
    var front, last := s[..|s| - 1], s[|s| - 1];
    assert s == front + [last];
    if front == [] {
      assert NatValue(s) == DigitValue(last);
    } else {
      assert front[0] == s[0];
      NatTextOfValue(front);
      PositiveValue(front);
      assert NatValue(s) / 10 == NatValue(front) && NatValue(s) % 10 == DigitValue(last);
    }
  }

  function Pow10(n: nat): (p: nat)
    ensures p >= 1
  {
    if n == 0 then 1 else 10 * Pow10(n - 1)
  }

  // ---------- strconv.ParseInt and ParseUint ----------

  function DigitIn(c: char): Option<nat> {
    if '0' <= c <= '9' then Some(c as int - '0' as int)
    else if 'a' <= c <= 'z' then Some(c as int - 'a' as int + 10)
    else if 'A' <= c <= 'Z' then Some(c as int - 'A' as int + 10)
    else None
  }

  function DigitsValue(s: string, base: nat): Option<nat> {
    if s == [] then Some(0) else
    var front :- DigitsValue(s[..|s| - 1], base);
    var digit :- DigitIn(s[|s| - 1]);
    if digit < base then Some(front * base + digit) else None
  }

  /** Base zero reads the base from the prefix. Underscores never reach this point. */
  function ParseUnsigned(s: string, base: int): Option<nat> {
    if s == [] then None
    else if base == 0 then
      if s[0] != '0' then DigitsValue(s, 10)
      else if |s| >= 3 && (s[1] == 'b' || s[1] == 'B') then DigitsValue(s[2..], 2)
      else if |s| >= 3 && (s[1] == 'o' || s[1] == 'O') then DigitsValue(s[2..], 8)
      else if |s| >= 3 && (s[1] == 'x' || s[1] == 'X') then DigitsValue(s[2..], 16)
      else DigitsValue(s[1..], 8)
    else if 2 <= base <= 36 then DigitsValue(s, base)
    else None
  }

  function ParseSigned(s: string, base: int): Option<int> {
    if s != [] && s[0] == '-' then
      var n :- ParseUnsigned(s[1..], base);
      Some(0 - n)
    else
      var n :- ParseUnsigned(if s != [] && s[0] == '+' then s[1..] else s, base);
      Some(n as int)
  }

  lemma {:induction false} DecimalReadsBack(n: nat)
    ensures DigitsValue(NatText(n), 10) == Some(n)
    decreases n
  {
    if n >= 10 {
      DecimalReadsBack(n / 10);
      assert NatText(n)[..|NatText(n)| - 1] == NatText(n / 10);
    } else {
      assert NatText(n)[..0] == "";
    }
  }

  lemma {:induction false} PlainIntText(n: int)
    ensures IntText(n) != "" && '_' !in IntText(n)
    ensures (IntText(n)[0] == '-') == (n < 0) && IntText(n)[0] != '+'
  {
    var m := if n < 0 then -n else n;
    forall c | c in NatText(m) ensures IsDigit(c) {}
  }

  /** Reading an integer back in base ten. */
  lemma {:induction false} ParseSignedIntText(n: int)
    ensures ParseSigned(IntText(n), 10) == Some(n)
  {
    hide NatText, DigitsValue;
    var m := if n < 0 then -n else n;
    DecimalReadsBack(m);
    NoSign(m);
    assert n < 0 ==> IntText(n)[1..] == NatText(m);
  }

  lemma {:induction false} NoSign(m: nat)
    ensures NatText(m) != "" && NatText(m)[0] != '-' && NatText(m)[0] != '+'
  {
    hide NatText;
    assert IsDigit(NatText(m)[0]);
  }

  /** fmt's %x: lower-case hexadecimal. */
  function HexText(n: nat): (s: string)
    ensures s != ""
  {
    if n < 16 then [HexDigit(n)] else HexText(n / 16) + [HexDigit(n % 16)]
  }

  function HexDigit(d: nat): (c: char)
    requires d < 16
    ensures IsDigit(c) || 'a' <= c <= 'f'
    ensures DigitIn(c) == Some(d)
  {
    if d < 10 then ('0' as int + d) as char else ('a' as int + d - 10) as char
  }

  lemma {:induction false} HexReadsBack(n: nat)
    ensures DigitsValue(HexText(n), 16) == Some(n)
    ensures forall i | 0 <= i < |HexText(n)| :: IsDigit(HexText(n)[i]) || 'a' <= HexText(n)[i] <= 'f'
    decreases n
  {
    hide DigitIn, HexDigit;
    if n >= 16 {
      HexReadsBack(n / 16);
      assert HexText(n)[..|HexText(n)| - 1] == HexText(n / 16);
    } else {
      assert HexText(n)[..0] == "";
      assert DigitsValue("", 16) == Some(0);
    }
  }

  lemma {:induction false} ParseSignedHexText(n: nat)
    ensures ParseSigned(HexText(n), 16) == Some(n)
  {
    hide HexText, DigitsValue;
    HexReadsBack(n);
    assert IsDigit(HexText(n)[0]) || 'a' <= HexText(n)[0] <= 'f';
  }
}
