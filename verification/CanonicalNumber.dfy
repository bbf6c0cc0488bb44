/** canonicalNumber of internal/canonicaljson/canonical.go. */
module CanonicalNumber {
  import opened Options
  import opened Text
  import opened Decimal
  import opened Floats

  const MIN_INT32 := -0x8000_0000
  const MAX_INT32 := 0x7fff_ffff

  function Zeros(n: nat): (s: string)
    ensures |s| == n && AllDigits(s)
    ensures forall k | 0 <= k < n :: s[k] == '0'
  {
    if n == 0 then "" else "0" + Zeros(n - 1)
  }

  function TrimLeftZeros(s: string): (r: string)
    ensures |r| <= |s| && r == s[|s| - |r|..]
    ensures r != [] ==> r[0] != '0'
  {
    if s != [] && s[0] == '0' then TrimLeftZeros(s[1..]) else s
  }

  function TrimRightZeros(s: string): (r: string)
    ensures r <= s
    ensures r != [] ==> r[|r| - 1] != '0'
    ensures forall k | |r| <= k < |s| :: s[k] == '0'
  {
    if s != [] && s[|s| - 1] == '0' then TrimRightZeros(s[..|s| - 1]) else s
  }

  /** A number spelled with a point or an exponent. */
  predicate Floaty(raw: string) {
    '.' in raw || 'e' in raw || 'E' in raw
  }

  /** Sign, significant digits and power of ten. */
  datatype Normal = Normal(negative: bool, digits: string, exponent: int) {
    predicate Valid() {
      AllDigits(digits) && digits != [] && digits[0] != '0' && digits[|digits| - 1] != '0'
    }

    function Value(): real
      requires AllDigits(digits)
    {
      Scale(Signed(negative, NatValue(digits)), exponent)
    }

    function Render(): string {
      var at := |digits| + exponent;
      if exponent >= 0 then PointText(negative, digits + Zeros(exponent), "")
      else if at > 0 then PointText(negative, digits[..at], digits[at..])
      else PointText(negative, "0", Zeros(-at) + digits)
    }
  }

  function NormalOf(raw: string): (n: Normal)
    requires IsNumber(raw)
    ensures AllDigits(n.digits)
  {
    var significant := TrimLeftZeros(Digits(raw));
    var digits := TrimRightZeros(significant);
    Normal(Negative(raw), digits, Exponent(raw) - |Fraction(raw)| + |significant| - |digits|)
  }

  function Canonical(round64: real -> Float, raw: string): Option<string>
    requires IsNumber(raw)
  {
    if !Floaty(raw) then Some(IntText(Signed(Negative(raw), NatValue(Digits(raw)))))
    else if !round64(Exact(raw)).Finite? then None
    else if round64(Exact(raw)).value == 0.0 then Some("0")
    else if !(MIN_INT32 <= Exponent(raw) <= MAX_INT32) then None
    else if NormalOf(raw).digits == "" then Some("0")
    else Some(NormalOf(raw).Render())
  }

  /** The source's loop: zeros are taken off the right one at a time. */
  method StripTrailingZeros(digits: string, exponent: int) returns (d: string, e: int)
    ensures d == TrimRightZeros(digits) && e == exponent + |digits| - |d|
  {
    d, e := digits, exponent;
    while d != [] && d[|d| - 1] == '0'
      invariant TrimRightZeros(d) == TrimRightZeros(digits)
      invariant e + |d| == exponent + |digits|
    {
      d := d[..|d| - 1];
      e := e + 1;
    }
  }

  method CanonicalNumber(round64: real -> Float, raw: string) returns (r: Option<string>)
    requires IsNumber(raw)
    ensures r == Canonical(round64, raw)
  {
    hide IsNumber, Exact, NatValue, Normal.Render, IntText, Zeros, Scale, Exponent, IntegerPart, Fraction, Negative, TrimLeftZeros, TrimRightZeros, AllDigits;
    if !('.' in raw || 'e' in raw || 'E' in raw) {
      return Some(IntText(Signed(Negative(raw), NatValue(Digits(raw)))));
    }
    var parsed := round64(Exact(raw));
    if !parsed.Finite? {
      return None;
    }
    if parsed.value == 0.0 {
      return Some("0");
    }
    var exponent := Exponent(raw);
    if !(MIN_INT32 <= exponent <= MAX_INT32) {
      return None;
    }
    var digits := TrimLeftZeros(IntegerPart(raw) + Fraction(raw));
    if digits == "" {
      return Some("0");
    }
    SomethingLeft(digits);
    digits, exponent := StripTrailingZeros(digits, exponent - |Fraction(raw)|);
    assert NormalOf(raw) == Normal(Negative(raw), digits, exponent);
    var text := WriteDecimal(Negative(raw), digits, exponent);
    return Some(text);
  }

  /** The point is put among the digits, or zeros are added on one side of them. */
  method WriteDecimal(negative: bool, digits: string, exponent: int) returns (text: string)
    requires digits != ""
    ensures text == Normal(negative, digits, exponent).Render()
  {
    RenderText(Normal(negative, digits, exponent));
    var sign := if negative then "-" else "";
    if exponent >= 0 {
      return sign + digits + Zeros(exponent);
    }
    var at := |digits| + exponent;
    if at > 0 {
      return sign + digits[..at] + "." + digits[at..];
    }
    return sign + "0." + Zeros(-at) + digits;
  }

  lemma {:induction false} SomethingLeft(s: string)
    requires s != "" && s[0] != '0'
    ensures TrimRightZeros(s) != ""
  {}

  lemma {:induction false} RenderText(n: Normal)
    requires n.digits != ""
    ensures var sign := if n.negative then "-" else "";
      var at := |n.digits| + n.exponent;
      n.Render() ==
        if n.exponent >= 0 then sign + n.digits + Zeros(n.exponent)
        else if at > 0 then sign + n.digits[..at] + "." + n.digits[at..]
        else sign + "0." + Zeros(-at) + n.digits
  {
    hide Zeros;
    var sign := if n.negative then "-" else "";
    var at := |n.digits| + n.exponent;
    if n.exponent >= 0 {
      assert PointText(n.negative, n.digits + Zeros(n.exponent), "") == sign + n.digits + Zeros(n.exponent);
    } else if at > 0 {
      var front, back := n.digits[..at], n.digits[at..];
      assert PointText(n.negative, front, back) == sign + front + "." + back;
    } else {
      var zeros := Zeros(-at);
      assert PointText(n.negative, "0", zeros + n.digits) == sign + "0." + zeros + n.digits;
    }
  }

  // ---------- digits and powers of ten ----------

  lemma {:induction false} LeadingZeros(k: nat, s: string)
    requires AllDigits(s)
    ensures AllDigits(Zeros(k) + s) && NatValue(Zeros(k) + s) == NatValue(s)
  {
    if s == [] {
      assert Zeros(k) + s == Zeros(k);
      if k > 0 {
        assert Zeros(k)[..k - 1] == Zeros(k - 1) by {
          assert forall i | 0 <= i < k - 1 :: Zeros(k)[i] == Zeros(k - 1)[i];
        }
        LeadingZeros(k - 1, s);
        assert Zeros(k - 1) + s == Zeros(k - 1);
      }
    } else {
      LeadingZeros(k, s[..|s| - 1]);
      assert (Zeros(k) + s)[..k + |s| - 1] == Zeros(k) + s[..|s| - 1];
    }
  }

  lemma {:induction false} ZerosSnoc(k: nat)
    requires k > 0
    ensures Zeros(k) == Zeros(k - 1) + "0"
  {
    if k > 1 {
      ZerosSnoc(k - 1);
    }
  }

  lemma {:induction false} TrailingZeros(s: string, k: nat)
    requires AllDigits(s)
    ensures AllDigits(s + Zeros(k)) && NatValue(s + Zeros(k)) == NatValue(s) * Pow10(k)
  {
    hide NatValue;
    if k == 0 {
      assert s + Zeros(0) == s;
    } else {
      ZerosSnoc(k);
      TrailingZeros(s, k - 1);
      var front := s + Zeros(k - 1);
      assert s + Zeros(k) == front + "0";
      NatValueSnoc(front, '0');
      assert Pow10(k) == 10 * Pow10(k - 1);
    }
  }

  lemma {:induction false} NatValueSnoc(s: string, c: char)
    requires AllDigits(s) && IsDigit(c)
    ensures AllDigits(s + [c]) && NatValue(s + [c]) == NatValue(s) * 10 + DigitValue(c)
  {
    assert (s + [c])[..|s|] == s;
  }

  lemma {:induction false} ScaleStep(m: int, e: int)
    ensures Scale(10 * m, e) == Scale(m, e + 1)
  {
    if e >= 0 {
      assert 10 * m * Pow10(e) == m * Pow10(e + 1);
    } else {
      Cancel(m, Pow10(-e - 1));
    }
  }

  lemma {:induction false} Cancel(m: int, p: nat)
    requires p > 0
    ensures (10 * m) as real / (10 * p) as real == m as real / p as real
  {
    var q := m as real / p as real;
    assert q * p as real == m as real;
    assert q * (10 * p) as real == (10 * m) as real;
  }

  lemma {:induction false} ScaleShift(m: int, k: nat, e: int)
    ensures Scale(m * Pow10(k), e) == Scale(m, e + k)
    decreases k
  {
    if k > 0 {
      assert m * Pow10(k) == 10 * (m * Pow10(k - 1));
      ScaleStep(m * Pow10(k - 1), e);
      ScaleShift(m, k - 1, e + 1);
    }
  }

  lemma {:induction false} ScaleInjective(m: int, n: int, e: int)
    requires Scale(m, e) == Scale(n, e)
    ensures m == n
  {
    if e >= 0 {
      var p := Pow10(e);
      assert m * p == n * p;
    } else {
      var p := Pow10(-e) as real;
      assert (m as real / p) * p == m as real;
      assert (n as real / p) * p == n as real;
    }
  }

  lemma {:induction false} LastDigit(s: string)
    requires AllDigits(s) && s != [] && s[|s| - 1] != '0'
    ensures NatValue(s) % 10 != 0
  {}

  // ---------- the normal form ----------

  /** Stripping zeros keeps the value, and leaves nothing exactly when the value is zero. */
  lemma {:induction false} NormalKeepsValue(raw: string)
    requires IsNumber(raw)
    ensures NormalOf(raw).Value() == Exact(raw)
    ensures NormalOf(raw).digits != "" <==> Exact(raw) != 0.0
    ensures NormalOf(raw).digits != "" ==> NormalOf(raw).Valid()
  {
    hide NatValue, Scale, Pow10, Zeros, IsNumber, TrimLeftZeros, TrimRightZeros, Exponent, Fraction, Negative, Digits;
    var all := Digits(raw);
    var s := TrimLeftZeros(all);
    var n := NormalOf(raw);
    var d := n.digits;
    TrimLeftValue(all);
    var e := Exponent(raw) - |Fraction(raw)|;
    StripRight(s, d, n.negative, e);
    if d != "" {
      assert d[0] == s[0];
      NonZero(Signed(n.negative, NatValue(d)), n.exponent);
    } else {
      ZeroValue(n.exponent);
    }
  }

  lemma {:induction false} ZeroValue(e: int)
    ensures Scale(Signed(true, NatValue("")), e) == 0.0 == Scale(Signed(false, NatValue("")), e)
  {}

  lemma {:induction false} StripRight(s: string, d: string, negative: bool, e: int)
    requires AllDigits(s) && d == TrimRightZeros(s)
    ensures AllDigits(d) && Scale(Signed(negative, NatValue(s)), e) == Scale(Signed(negative, NatValue(d)), e + |s| - |d|)
    ensures d != "" ==> NatValue(d) != 0
  {
    hide Scale, Pow10, NatValue, TrimRightZeros;
    var k := |s| - |d|;
    assert s == d + Zeros(k);
    TrailingZeros(d, k);
    var m := Signed(negative, NatValue(d));
    SignedTimes(negative, NatValue(d), Pow10(k));
    ScaleShift(m, k, e);
    if d != "" {
      LastDigit(d);
    }
  }

  lemma {:induction false} SignedTimes(negative: bool, m: nat, p: nat)
    ensures Signed(negative, m * p) == Signed(negative, m) * p
  {
    assert (0 - m) * p == 0 - m * p;
  }

  lemma {:induction false} TrimLeftValue(s: string)
    requires AllDigits(s)
    ensures AllDigits(TrimLeftZeros(s)) && NatValue(TrimLeftZeros(s)) == NatValue(s)
  {
    if s != [] && s[0] == '0' {
      TrimLeftValue(s[1..]);
      LeadingZeros(1, s[1..]);
      assert Zeros(1) == "0";
      assert s == Zeros(1) + s[1..];
    }
  }

  lemma {:induction false} NonZero(m: int, e: int)
    requires m != 0
    ensures Scale(m, e) != 0.0
  {
    if Scale(m, e) == Scale(0, e) {
      ScaleInjective(m, 0, e);
    }
  }

  /** A value has one normal form. */
  lemma {:induction false} NormalUnique(a: Normal, b: Normal)
    requires a.Valid() && b.Valid() && a.Value() == b.Value()
    ensures a == b
    decreases a.exponent > b.exponent
  {
    hide NatValue, Scale, Pow10;
    if a.exponent > b.exponent {
      NormalUnique(b, a);
    } else {
      var k := b.exponent - a.exponent;
      var m, n := NatValue(a.digits), NatValue(b.digits);
      SameMantissa(Signed(a.negative, m), Signed(b.negative, n), k, a.exponent);
      LastDigit(a.digits);
      LastDigit(b.digits);
      if k > 0 {
        TenDivides(Signed(b.negative, n), k);
        assert false;
      }
      NatTextOfValue(a.digits);
      NatTextOfValue(b.digits);
    }
  }

  lemma {:induction false} SameMantissa(m: int, n: int, k: nat, e: int)
    requires Scale(m, e) == Scale(n, e + k)
    ensures m == n * Pow10(k)
    ensures k == 0 ==> m == n
  {
    ScaleShift(n, k, e);
    ScaleInjective(m, n * Pow10(k), e);
  }

  lemma {:induction false} TenDivides(n: int, k: nat)
    requires k > 0
    ensures (n * Pow10(k)) % 10 == 0 && (0 - n * Pow10(k)) % 10 == 0
  {
    var q := Pow10(k - 1);
    assert Pow10(k) == 10 * q;
    TensDivide(n, q);
  }

  lemma {:induction false} TensDivide(n: int, q: int)
    ensures (n * (10 * q)) % 10 == 0 && (0 - n * (10 * q)) % 10 == 0
  {
    var p := n * q;
    assert n * (10 * q) == 10 * p;
    assert (10 * p) % 10 == 0 && (0 - 10 * p) % 10 == 0;
  }

  /** The rendered text is a JSON number with the value of the normal form, and has no exponent. */
  lemma {:induction false} RenderKeepsValue(n: Normal)
    requires n.Valid()
    ensures var t := n.Render(); IsNumber(t) && Exact(t) == n.Value() && !HasExponent(t)
    ensures Negative(n.Render()) == n.negative
  {
    hide NatValue, Scale, Pow10, PointText, IsNumber, Zeros, Exact, HasExponent, Negative;
    var d, e := n.digits, n.exponent;
    var at := |d| + e;
    if e >= 0 {
      var whole := d + Zeros(e);
      assert whole[0] == d[0];
      TrailingZeros(d, e);
      PointTextValue(n.negative, whole, "");
      assert whole + "" == whole;
      var m := Signed(n.negative, NatValue(d));
      SignedTimes(n.negative, NatValue(d), Pow10(e));
      ScaleShift(m, e, 0);
    } else if at > 0 {
      assert d[..at][0] == d[0];
      PointTextValue(n.negative, d[..at], d[at..]);
      assert d[..at] + d[at..] == d;
    } else {
      var fraction := Zeros(-at) + d;
      PointTextValue(n.negative, "0", fraction);
      LeadingZeros(1 - at, d);
      ZerosCons(-at);
      assert "0" + fraction == Zeros(1 - at) + d;
    }
  }

  lemma {:induction false} ZerosCons(k: nat)
    ensures "0" + Zeros(k) == Zeros(k + 1)
  {}

  lemma {:induction false} PointTextValue(negative: bool, integer: string, fraction: string)
    requires Plain(integer) && AllDigits(fraction)
    ensures var t := PointText(negative, integer, fraction);
      && IsNumber(t) && !HasExponent(t) && Negative(t) == negative
      && Exact(t) == Scale(Signed(negative, NatValue(integer + fraction)), -|fraction|)
  {
    hide NatValue, Scale, PointText, IndexOf, Mantissa, Unsigned, Negative, IntegerPart, Fraction, HasExponent, HasPoint, IsNumber;
    PointTextParts(negative, integer, fraction);
  }

  // ---------- the canonical text ----------

  /** An integer is printed without the point, a number with a fraction has one. */
  lemma {:induction false} FloatyIff(raw: string)
    requires IsNumber(raw)
    ensures Floaty(raw) <==> HasPoint(raw) || HasExponent(raw)
  {
    var u := Unsigned(raw);
    var e := IndexOf(u, 'e', 'E');
    var m := u[..e];
    assert forall k | 0 <= k < |m| :: m[k] != 'e' && m[k] != 'E' && u[k] == m[k];
    var p := IndexOf(m, '.', '.');
    assert raw == (if Negative(raw) then "-" else "") + u;
    if p < |m| {
      assert u[p] == '.' && u[p] in raw;
    } else if e < |u| {
      assert u[e] in raw;
    }
  }

  lemma {:induction false} IntegerSpelling(raw: string)
    requires IsNumber(raw) && !Floaty(raw)
    ensures Fraction(raw) == "" && Exponent(raw) == 0 && Digits(raw) == IntegerPart(raw)
    ensures Exact(raw) == Signed(Negative(raw), NatValue(Digits(raw))) as real
  {
    hide NatValue, Floaty, IndexOf, Unsigned, IsExponentText;
    FloatyIff(raw);
    assert Digits(raw) == IntegerPart(raw);
  }

  /** Both branches of the source print the normal form. */
  lemma {:induction false} IntegerRender(raw: string)
    requires IsNumber(raw) && !Floaty(raw)
    ensures Exact(raw) != 0.0 ==> IntText(Signed(Negative(raw), NatValue(Digits(raw)))) == NormalOf(raw).Render()
    ensures Exact(raw) == 0.0 ==> IntText(Signed(Negative(raw), NatValue(Digits(raw)))) == "0"
  {
    hide Exact, NatValue, Floaty, IndexOf, Unsigned, Exponent, Fraction, Mantissa, HasPoint, HasExponent, TrimLeftZeros, TrimRightZeros, Zeros, Negative, IntegerPart, Digits;
    IntegerSpelling(raw);
    var whole := IntegerPart(raw);
    NatTextOfValue(whole);
    if Exact(raw) != 0.0 {
      NormalKeepsValue(raw);
      var n := NormalOf(raw);
      PlainTrim(whole, n.digits);
      RenderText(n);
    } else {
      assert NatValue(whole) == 0;
      assert NatText(0) == "0";
    }
  }

  lemma {:induction false} PlainTrim(whole: string, d: string)
    requires Plain(whole) && d == TrimRightZeros(TrimLeftZeros(whole)) && d != ""
    ensures d + Zeros(|TrimLeftZeros(whole)| - |d|) == whole
  {}

  predicate Underflows(round64: real -> Float, raw: string)
    requires IsNumber(raw)
  {
    Floaty(raw) && Exact(raw) != 0.0 && round64(Exact(raw)) == Finite(0.0)
  }

  lemma {:induction false} CanonicalText(round64: real -> Float, raw: string)
    requires IsNumber(raw) && Lawful(round64) && Canonical(round64, raw).Some?
    ensures Canonical(round64, raw).value ==
      if Exact(raw) == 0.0 || Underflows(round64, raw) then "0" else NormalOf(raw).Render()
  {
    hide Exact, NatValue, Floaty, Exponent, Normal.Render, NormalOf, IsNumber;
    NormalKeepsValue(raw);
    if !Floaty(raw) {
      IntegerRender(raw);
    }
  }

  lemma {:induction false} ZeroText()
    ensures IsNumber("0") && Exact("0") == 0.0 && !Floaty("0")
  {
    hide IsNumber, Exact;
    ExactIntText(0);
    assert NatText(0) == "0";
  }

  /** Canonicalising keeps the exact decimal value, except where the number underflows to zero. */
  lemma {:induction false} CanonicalKeepsValue(round64: real -> Float, raw: string)
    requires IsNumber(raw) && Lawful(round64) && Canonical(round64, raw).Some?
    ensures var t := Canonical(round64, raw).value;
      IsNumber(t) && (Exact(t) == Exact(raw) <==> !Underflows(round64, raw))
  {
    hide Exact, IsNumber, Normal.Render, NormalOf, Canonical, Floaty, Lawful;
    CanonicalText(round64, raw);
    ZeroText();
    NormalKeepsValue(raw);
    if Exact(raw) != 0.0 {
      RenderKeepsValue(NormalOf(raw));
    }
  }

  /** A decimal without exponent and without a zero too many. */
  ghost predicate Shortest(t: string) {
    t == "0" ||
    exists negative, whole, fraction ::
      && t == PointText(negative, whole, fraction) && Plain(whole) && AllDigits(fraction)
      && (fraction != "" ==> fraction[|fraction| - 1] != '0') && (whole == "0" ==> fraction != "")
  }

  lemma {:induction false} RenderIsShortest(n: Normal)
    requires n.Valid()
    ensures Shortest(n.Render())
  {
    hide Zeros, Plain, PointText;
    var at := |n.digits| + n.exponent;
    if n.exponent >= 0 {
      var whole := n.digits + Zeros(n.exponent);
      assert whole[0] == n.digits[0];
      assert Plain(whole) && whole != "0" by { NoLeadingZero(whole); }
      assert n.Render() == PointText(n.negative, whole, "");
    } else if at > 0 {
      var whole, fraction := n.digits[..at], n.digits[at..];
      assert Plain(whole) && whole != "0" by { NoLeadingZero(whole); }
      assert fraction[|fraction| - 1] == n.digits[|n.digits| - 1];
      assert n.Render() == PointText(n.negative, whole, fraction);
    } else {
      var fraction := Zeros(-at) + n.digits;
      assert Plain("0") by { ZeroIsPlain(); }
      assert fraction[|fraction| - 1] == n.digits[|n.digits| - 1];
      assert n.Render() == PointText(n.negative, "0", fraction);
    }
  }

  lemma {:induction false} NoLeadingZero(s: string)
    requires s != "" && AllDigits(s) && s[0] != '0'
    ensures Plain(s) && s != "0"
  {}

  lemma {:induction false} ZeroIsPlain()
    ensures Plain("0")
  {}

  lemma {:induction false} ZeroIsShortest()
    ensures Shortest("0")
  {}

  /** The canonical text has no exponent and no zero too many. */
  lemma {:induction false} CanonicalIsShortest(round64: real -> Float, raw: string)
    requires IsNumber(raw) && Lawful(round64) && Canonical(round64, raw).Some?
    ensures Shortest(Canonical(round64, raw).value)
  {
    hide Exact, IsNumber, Normal.Render, NormalOf, Canonical, Floaty, Lawful, Shortest;
    CanonicalText(round64, raw);
    NormalKeepsValue(raw);
    if Exact(raw) == 0.0 || Underflows(round64, raw) {
      ZeroIsShortest();
    } else {
      RenderIsShortest(NormalOf(raw));
    }
  }

  /** Any two accepted spellings of one value get the same text. */
  lemma {:induction false} CanonicalUnique(round64: real -> Float, a: string, b: string)
    requires IsNumber(a) && IsNumber(b) && Lawful(round64) && Exact(a) == Exact(b)
    requires Canonical(round64, a).Some? && Canonical(round64, b).Some?
    ensures Canonical(round64, a) == Canonical(round64, b)
  {
    hide Exact, IsNumber, Normal.Render, NormalOf, Canonical, Floaty, Normal.Value;
    CanonicalText(round64, a);
    CanonicalText(round64, b);
    if Underflows(round64, a) != Underflows(round64, b) {
      IntegersDoNotUnderflow(round64, if Underflows(round64, a) then b else a);
    } else if Exact(a) != 0.0 && !Underflows(round64, a) {
      NormalKeepsValue(a);
      NormalKeepsValue(b);
      NormalUnique(NormalOf(a), NormalOf(b));
    }
  }

  lemma {:induction false} IntegersDoNotUnderflow(round64: real -> Float, raw: string)
    requires IsNumber(raw) && Lawful(round64) && !Floaty(raw)
    ensures Exact(raw) != 0.0 ==> round64(Exact(raw)) != Finite(0.0)
  {
    hide Exact, IsNumber, Floaty, NatValue, Digits;
    IntegerSpelling(raw);
  }

  /** A canonical text is its own canonical text. */
  lemma {:induction false} CanonicalIdempotent(round64: real -> Float, raw: string)
    requires IsNumber(raw) && Lawful(round64) && Canonical(round64, raw).Some?
    ensures var t := Canonical(round64, raw).value;
      IsNumber(t) && Canonical(round64, t) == Some(t)
  {
    hide Exact, IsNumber, Normal.Render, NormalOf, Floaty, NatValue, Digits, IntText;
    CanonicalText(round64, raw);
    CanonicalKeepsValue(round64, raw);
    var t := Canonical(round64, raw).value;
    if t == "0" {
      ZeroText();
      CanonicalText(round64, t);
    } else {
      NormalKeepsValue(raw);
      RenderKeepsValue(NormalOf(raw));
      RenderAccepted(round64, raw, t);
      CanonicalUnique(round64, t, raw);
    }
  }

  /** The text printed for an accepted number is itself accepted. */
  lemma {:induction false} RenderAccepted(round64: real -> Float, raw: string, t: string)
    requires IsNumber(raw) && IsNumber(t) && Lawful(round64) && Exact(t) == Exact(raw)
    requires Canonical(round64, raw) == Some(t) && !HasExponent(t)
    requires t == NormalOf(raw).Render() && Exact(raw) != 0.0
    ensures Canonical(round64, t).Some?
  {
    hide Exact, IsNumber, Normal.Render, NormalOf, NatValue, Digits, IntText, IntegerPart, Fraction, Mantissa, Unsigned;
    if Floaty(t) && !Floaty(raw) {
      IntegerRenderPlain(raw);
      assert false;
    }
  }

  lemma {:induction false} IntegerRenderPlain(raw: string)
    requires IsNumber(raw) && !Floaty(raw) && Exact(raw) != 0.0
    ensures !Floaty(NormalOf(raw).Render())
  {
    hide Exact, IsNumber, Normal.Render, NormalOf, NatValue, Digits;
    IntegerRender(raw);
    var v := Signed(Negative(raw), NatValue(Digits(raw)));
    IntTextChars(v);
  }

  lemma {:induction false} IntTextChars(v: int)
    ensures !Floaty(IntText(v))
  {}
}
