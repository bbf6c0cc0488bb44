/** What is assumed of library functions can hold all at once: a host whose floats are the integers. */
module Assumptions {
  import opened Options
  import opened Text
  import opened Floats
  import opened Values
  import Decimal
  import Printing
  import Frontend

  function Truncated(r: real): int {
    if r >= 0.0 then r.Floor else 0 - (0.0 - r).Floor
  }

  function Truncate(r: real): Float {
    Finite(Truncated(r) as real)
  }

  function ParseNumber(text: string): Option<Float> {
    if Decimal.IsNumber(text) then Some(Truncate(Decimal.Exact(text))) else None
  }

  /** Rounding cuts off the fraction, and floats are written as integers. */
  function IntegerHost(): Host {
    var write: (bool, real) -> string := (single: bool, r: real) => IntText(Truncated(r));
    Host(Truncate, Truncate, write, write, (r: real) => IntText(Truncated(r)),
      (single: bool, text: string) => ParseNumber(text),
      (s: string) => s, (s: string) => s, (name, s, arguments) => None, (name, s, arguments) => None,
      (a, b) => None, (name, v) => None)
  }

  lemma {:induction false} TruncatedInteger(n: int)
    ensures Truncated(n as real) == n
  {
    assert (0.0 - n as real) == (-n) as real;
  }

  lemma {:induction false} TruncationIsLawful()
    ensures Floats.Lawful(Truncate)
  {
    forall r: real ensures Truncate(Truncate(r).value) == Truncate(r) {
      TruncatedInteger(Truncated(r));
    }
    TruncatedInteger(0);
  }

  lemma {:induction false} TimesTen(n: int)
    ensures Decimal.Scale(10 * n, -1) == n as real
  {
    assert Pow10(1) == 10 * Pow10(0);
    assert (10 * n) as real == 10.0 * n as real;
  }

  /** An integer with a point and a zero denotes that integer. */
  lemma {:induction false} ExactWithPoint(n: int)
    ensures var t := IntText(n) + ".0"; Decimal.IsNumber(t) && Decimal.Exact(t) == n as real
  {
    hide Decimal.IsNumber, Decimal.Scale, NatText, Decimal.IntegerPart, Decimal.Fraction, Decimal.HasExponent, Decimal.Negative;
    var m := if n < 0 then -n else n;
    var t := IntText(n) + ".0";
    assert t == Decimal.PointText(n < 0, NatText(m), "0");
    Decimal.PointTextParts(n < 0, NatText(m), "0");
    assert (NatText(m) + "0")[..|NatText(m)|] == NatText(m);
    assert NatValue(Decimal.Digits(t)) == 10 * m;
    assert Decimal.Signed(n < 0, 10 * m) == 10 * n;
    TimesTen(n);
  }

  lemma {:induction false} IntegerText(n: int)
    ensures Printing.Pieces(IntText(n), if n < 0 then "-" else "", NatText(if n < 0 then -n else n), "", "")
    ensures forall i | 0 <= i < |IntText(n)| :: IntText(n)[i] != '.' && IntText(n)[i] != 'e' && IntText(n)[i] != 'E'
  {
    var s := NatText(if n < 0 then -n else n);
    assert forall i | 0 <= i < |s| :: IsDigit(s[i]);
  }

  lemma {:induction false} HostIsLawful()
    ensures IntegerHost().Lawful()
  {
    hide Decimal.IsNumber, Decimal.Exact, Truncated, IntText, Floats.Lawful;
    var h := IntegerHost();
    TruncationIsLawful();
    forall r: real | h.Representable(r) ensures Decimal.IsNumber(h.jsonFloat(r)) && h.round64(Decimal.Exact(h.jsonFloat(r))) == Finite(r) {
      Decimal.ExactIntText(Truncated(r));
    }
    forall a: real, b: real | h.Representable(a) && h.Representable(b) && h.display(false, a) == h.display(false, b) ensures a == b {
      Decimal.IntTextsApart(Truncated(a), Truncated(b));
    }
  }

  lemma {:induction false} HostReadsBack()
    ensures Printing.FloatsReadBack(IntegerHost())
  {
    hide Decimal.IsNumber, Decimal.Exact, Truncated, IntText, Printing.Pieces;
    var h := IntegerHost();
    forall r: real | h.Representable(r)
      ensures exists sign, integer, fraction, exponent :: Printing.Pieces(h.shortest(false, r), sign, integer, fraction, exponent)
      ensures h.parseFloat(false, Printing.FloatText(h, r)) == Some(Finite(r))
    {
      var n := Truncated(r);
      IntegerText(n);
      assert Printing.Pieces(h.shortest(false, r), if n < 0 then "-" else "", NatText(if n < 0 then -n else n), "", "");
      ExactWithPoint(Truncated(r));
      TruncatedInteger(Truncated(r));
    }
  }

  lemma {:induction false} ParsedAreRepresentable()
    ensures Frontend.FloatsAreRepresentable(IntegerHost())
  {
    hide Decimal.IsNumber, Decimal.Exact, Truncated;
    var h := IntegerHost();
    forall t | h.parseFloat(false, t).Some? && h.parseFloat(false, t).value.Finite? ensures h.Representable(h.parseFloat(false, t).value.value) {
      TruncatedInteger(Truncated(Decimal.Exact(t)));
    }
  }

  /** There is a host that meets every assumption. */
  lemma {:induction false} AssumptionsHold()
    ensures exists h: Host :: h.Lawful() && Printing.FloatsReadBack(h) && Frontend.FloatsAreRepresentable(h)
  {
    hide Host.Lawful, Printing.FloatsReadBack, Frontend.FloatsAreRepresentable, IntegerHost;
    HostIsLawful();
    HostReadsBack();
    ParsedAreRepresentable();
  }
}
