/** Sorting strings as sort.Strings does: by their UTF-8 bytes, which is by code points. */
module Sorting {
  import opened Utf8

  /** Section 1 of RFC 3629: the order of the bytes is the order of the code points. */
  predicate Before(a: string, b: string) {
    Less(CodePoints(a), CodePoints(b))
  }

  lemma {:induction false} BeforeIsByteOrder(a: string, b: string)
    ensures Before(a, b) == Less(Encode(a), Encode(b))
  {
    BytesOrderCodePoints(a, b);
  }

  predicate Increasing(keys: seq<string>) {
    forall i, j | 0 <= i < j < |keys| :: Before(keys[i], keys[j])
  }

  lemma {:induction false} BeforeTotal(a: string, b: string)
    ensures Before(a, b) || Before(b, a) || a == b
    ensures !(Before(a, b) && Before(b, a)) && !Before(a, a)
  {
    LessTotal(CodePoints(a), CodePoints(b));
    LessTotal(CodePoints(a), CodePoints(a));
    if CodePoints(a) == CodePoints(b) {
      assert forall i | 0 <= i < |a| :: a[i] as int == CodePoints(a)[i] == b[i] as int;
    }
  }

  lemma {:induction false} BeforeTransitive(a: string, b: string, c: string)
    requires Before(a, b) && Before(b, c)
    ensures Before(a, c)
  {
    LessTransitive(CodePoints(a), CodePoints(b), CodePoints(c));
  }

  /** A set has one increasing enumeration. */
  lemma {:induction false} IncreasingUnique(a: seq<string>, b: seq<string>)
    requires Increasing(a) && Increasing(b) && (forall x :: x in a <==> x in b)
    ensures a == b
    decreases |a|
  {
    hide Before;
    if a == [] {
      NoMembers(b);
    } else {
      assert a[0] in b;
      var x, y := a[0], b[0];
      SmallestFirst(a, y);
      SmallestFirst(b, x);
      BeforeTotal(x, y);
      assert x == y;
      forall z ensures z in a[1..] <==> z in b[1..] {
        TailMembers(a, z);
        TailMembers(b, z);
      }
      IncreasingUnique(a[1..], b[1..]);
      assert a == [x] + a[1..] && b == [y] + b[1..];
    }
  }

  lemma {:induction false} NoMembers(keys: seq<string>)
    requires forall x :: x !in keys
    ensures keys == []
  {
    if keys != [] {
      HasMember(keys);
    }
  }

  lemma {:induction false} HasMember(keys: seq<string>)
    requires keys != []
    ensures exists x :: x in keys
  {
    assert keys[0] in keys;
  }

  lemma {:induction false} SmallestFirst(a: seq<string>, x: string)
    requires Increasing(a) && x in a
    ensures x == a[0] || Before(a[0], x)
  {}

  lemma {:induction false} TailMembers(a: seq<string>, z: string)
    requires Increasing(a) && a != []
    ensures z in a[1..] <==> z in a && z != a[0]
  {
    BeforeTotal(a[0], a[0]);
    if z in a[1..] {
      var k :| 0 <= k < |a[1..]| && a[1..][k] == z;
      assert a[k + 1] == z && Before(a[0], z);
    }
    assert a == [a[0]] + a[1..];
  }

  /** Where a new key goes among sorted ones. */
  method Insert(keys: seq<string>, key: string) returns (r: seq<string>)
    requires Increasing(keys) && key !in keys
    ensures Increasing(r) && forall x :: x in r <==> x in keys || x == key
  {
    hide Before;
    var i := 0;
    while i < |keys| && Before(keys[i], key)
      invariant i <= |keys| && forall k | 0 <= k < i :: Before(keys[k], key)
    {
      i := i + 1;
    }
    r := keys[..i] + [key] + keys[i..];
    Inserted(keys, key, i);
  }

  lemma {:induction false} Inserted(keys: seq<string>, key: string, i: nat)
    requires Increasing(keys) && key !in keys && i <= |keys|
    requires (forall k | 0 <= k < i :: Before(keys[k], key)) && (i < |keys| ==> !Before(keys[i], key))
    ensures Increasing(keys[..i] + [key] + keys[i..])
    ensures forall x :: x in keys[..i] + [key] + keys[i..] <==> x in keys || x == key
  {
    hide Before, Increasing;
    var r := keys[..i] + [key] + keys[i..];
    assert keys == keys[..i] + keys[i..];
    Comparisons(keys, key, i);
    OrderedAround(keys[..i], key, keys[i..]);
  }

  lemma {:induction false} Comparisons(keys: seq<string>, key: string, i: nat)
    requires Increasing(keys) && key !in keys && i <= |keys| && (i < |keys| ==> !Before(keys[i], key))
    requires forall k | 0 <= k < i :: Before(keys[k], key)
    ensures Increasing(keys[..i]) && Increasing(keys[i..])
    ensures forall k | 0 <= k < |keys[..i]| :: Before(keys[..i][k], key)
    ensures forall k | 0 <= k < |keys[i..]| :: Before(key, keys[i..][k])
  {
    hide Before;
    forall k | i <= k < |keys| ensures Before(key, keys[k]) {
      BeforeTotal(keys[i], key);
      if k > i {
        BeforeTransitive(key, keys[i], keys[k]);
      }
    }
  }

  lemma {:induction false} OrderedAround(a: seq<string>, key: string, b: seq<string>)
    requires Increasing(a) && Increasing(b)
    requires (forall k | 0 <= k < |a| :: Before(a[k], key)) && forall k | 0 <= k < |b| :: Before(key, b[k])
    ensures Increasing(a + [key] + b)
  {
    hide Before;
    var r := a + [key] + b;
    forall x, y | 0 <= x < y < |r| ensures Before(r[x], r[y]) {
      if x < |a| && y > |a| {
        BeforeTransitive(a[x], key, b[y - |a| - 1]);
      }
    }
  }

  /** sort.Strings on distinct strings. */
  method SortKeys(keys: set<string>) returns (r: seq<string>)
    ensures Increasing(r) && forall x :: x in r <==> x in keys
  {
    r := [];
    var left := keys;
    while left != {}
      invariant left <= keys && Increasing(r)
      invariant forall x :: x in r <==> x in keys && x !in left
      decreases |left|
    {
      var key :| key in left;
      r := Insert(r, key);
      left := left - {key};
    }
  }
}
