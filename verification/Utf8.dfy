/** UTF-8 (section 3 of RFC 3629). */
module Utf8 {

  type Byte = b: int | 0 <= b < 256

  /** The encoding of one character. */
  function EncodeChar(c: char): (r: seq<Byte>)
    ensures 1 <= |r| <= 4
  {
    var n := c as int;
    if n < 0x80 then [n]
    else if n < 0x800 then [0xC0 + n / 0x40, Tail(n)]
    else if n < 0x10000 then [0xE0 + n / 0x40 / 0x40, Tail(n / 0x40), Tail(n)]
    else [0xF0 + n / 0x40 / 0x40 / 0x40, Tail(n / 0x40 / 0x40), Tail(n / 0x40), Tail(n)]
  }

  function Tail(n: nat): Byte {
    0x80 + n % 0x40
  }

  function Encode(s: string): seq<Byte> {
    if s == "" then [] else EncodeChar(s[0]) + Encode(s[1..])
  }

  /** Lexicographic order, on bytes or on code points. */
  predicate Less(a: seq<int>, b: seq<int>) {
    if b == [] then false
    else if a == [] then true
    else if a[0] == b[0] then Less(a[1..], b[1..])
    else a[0] < b[0]
  }

  function CodePoints(s: string): (r: seq<int>)
    ensures |r| == |s| && forall i | 0 <= i < |s| :: r[i] == s[i] as int
  {
    seq(|s|, i requires 0 <= i < |s| => s[i] as int)
  }

  /** The encodings of two characters differ at some byte, and the first such byte orders them. */
  lemma {:induction false} CharsDiffer(c: char, d: char) returns (k: nat)
    requires c < d
    ensures k < |EncodeChar(c)| && k < |EncodeChar(d)|
    ensures EncodeChar(c)[..k] == EncodeChar(d)[..k] && EncodeChar(c)[k] < EncodeChar(d)[k]
  {
    hide Tail;
    var m, n := c as int, d as int;
    LowerDigits(m, n);
    if |EncodeChar(c)| < |EncodeChar(d)| || |EncodeChar(c)| == 1 {
      k := 0;
    } else if |EncodeChar(c)| == 2 {
      k := if m / 0x40 < n / 0x40 then 0 else 1;
    } else if |EncodeChar(c)| == 3 {
      k := if m / 0x40 / 0x40 < n / 0x40 / 0x40 then 0 else if m / 0x40 < n / 0x40 then 1 else 2;
    } else {
      k := if m / 0x40 / 0x40 / 0x40 < n / 0x40 / 0x40 / 0x40 then 0
           else if m / 0x40 / 0x40 < n / 0x40 / 0x40 then 1
           else if m / 0x40 < n / 0x40 then 2 else 3;
    }
  }

  /** Numbers in order, digit by digit in base 64. */
  lemma {:induction false} LowerDigits(m: nat, n: nat)
    requires m <= n
    ensures m / 0x40 / 0x40 / 0x40 <= n / 0x40 / 0x40 / 0x40 && m / 0x40 / 0x40 <= n / 0x40 / 0x40 && m / 0x40 <= n / 0x40
    ensures m / 0x40 == n / 0x40 && m < n ==> Tail(m) < Tail(n)
    ensures m / 0x40 / 0x40 == n / 0x40 / 0x40 && m / 0x40 < n / 0x40 ==> Tail(m / 0x40) < Tail(n / 0x40)
    ensures m / 0x40 / 0x40 / 0x40 == n / 0x40 / 0x40 / 0x40 && m / 0x40 / 0x40 < n / 0x40 / 0x40 ==>
      Tail(m / 0x40 / 0x40) < Tail(n / 0x40 / 0x40)
  {
    OneDigit(m, n);
    OneDigit(m / 0x40, n / 0x40);
    OneDigit(m / 0x40 / 0x40, n / 0x40 / 0x40);
  }

  lemma {:induction false} OneDigit(m: nat, n: nat)
    requires m <= n
    ensures m / 0x40 <= n / 0x40 && (m / 0x40 == n / 0x40 && m < n ==> Tail(m) < Tail(n))
  {}

  lemma {:induction false} LessAfter(prefix: seq<int>, a: seq<int>, b: seq<int>)
    ensures Less(prefix + a, prefix + b) == Less(a, b)
  {
    if prefix == [] {
      assert prefix + a == a && prefix + b == b;
    } else {
      assert (prefix + a)[1..] == prefix[1..] + a && (prefix + b)[1..] == prefix[1..] + b;
      LessAfter(prefix[1..], a, b);
    }
  }

  lemma {:induction false} LessAt(a: seq<int>, b: seq<int>, k: nat)
    requires k < |a| && k < |b| && a[..k] == b[..k] && a[k] != b[k]
    ensures Less(a, b) == (a[k] < b[k])
  {
    var p := a[..k];
    assert a == p + a[k..] && b == p + b[k..];
    LessAfter(p, a[k..], b[k..]);
  }

  /** Sorting texts by their UTF-8 bytes is sorting them by code points. */
  lemma {:induction false} BytesOrderCodePoints(a: string, b: string)
    ensures Less(Encode(a), Encode(b)) == Less(CodePoints(a), CodePoints(b))
  {
    hide EncodeChar;
    if a != "" && b != "" {
      var p, q := EncodeChar(a[0]), EncodeChar(b[0]);
      if a[0] == b[0] {
        BytesOrderCodePoints(a[1..], b[1..]);
        LessAfter(p, Encode(a[1..]), Encode(b[1..]));
        assert CodePoints(a)[1..] == CodePoints(a[1..]) && CodePoints(b)[1..] == CodePoints(b[1..]);
      } else if a[0] < b[0] {
        var k := CharsDiffer(a[0], b[0]);
        HeadsOrder(p, Encode(a[1..]), q, Encode(b[1..]), k);
      } else {
        var k := CharsDiffer(b[0], a[0]);
        HeadsOrder(p, Encode(a[1..]), q, Encode(b[1..]), k);
      }
    }
  }

  lemma {:induction false} HeadsOrder(p: seq<int>, a: seq<int>, q: seq<int>, b: seq<int>, k: nat)
    requires k < |p| && k < |q| && p[..k] == q[..k] && p[k] != q[k]
    ensures Less(p + a, q + b) == (p[k] < q[k])
  {
    assert (p + a)[..k] == p[..k] && (q + b)[..k] == q[..k];
    LessAt(p + a, q + b, k);
  }

  lemma {:induction false} LessTotal(a: seq<int>, b: seq<int>)
    ensures Less(a, b) || Less(b, a) || a == b
    ensures !(Less(a, b) && Less(b, a)) && !Less(a, a)
  {
    if a != [] {
      LessTotal(a[1..], a[1..]);
      if b != [] && a[0] == b[0] {
        LessTotal(a[1..], b[1..]);
        assert a == [a[0]] + a[1..] && b == [b[0]] + b[1..];
      }
    }
  }

  lemma {:induction false} LessTransitive(a: seq<int>, b: seq<int>, c: seq<int>)
    requires Less(a, b) && Less(b, c)
    ensures Less(a, c)
  {
    if a != [] && a[0] == b[0] && b[0] == c[0] {
      LessTransitive(a[1..], b[1..], c[1..]);
    }
  }

  /** Different texts have different encodings. */
  lemma {:induction false} EncodeInjective(a: string, b: string)
    requires Encode(a) == Encode(b)
    ensures a == b
  {
    LessTotal(Encode(a), Encode(b));
    BytesOrderCodePoints(a, b);
    BytesOrderCodePoints(b, a);
    LessTotal(CodePoints(a), CodePoints(b));
    assert forall i | 0 <= i < |a| && i < |b| && CodePoints(a) == CodePoints(b) :: a[i] as int == CodePoints(a)[i] == b[i] as int;
  }
}
