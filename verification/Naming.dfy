/** What names stand for: resolveTransform of internal/compiler/transforms.go. */
module Naming {
  import opened Options
  import opened Builtins

  /** What a document can name: its own transforms, and those of its imports by alias. */
  datatype Scope = Scope(local: map<string, string>, imports: map<string, map<string, string>>)

  /** A plain name stands for a transform of the document, `alias.name` for one of the document imported
      under that alias, and nothing else for anything. */
  predicate Names(s: Scope, name: string, symbol: string) {
    || ('.' !in name && name in s.local && symbol == s.local[name])
    || exists k | 0 <= k < |name| :: name[k] == '.' && Qualified(s, name[..k], name[k + 1..], symbol)
  }

  predicate Qualified(s: Scope, alias: string, name: string, symbol: string) {
    '.' !in alias && '.' !in name && alias in s.imports && name in s.imports[alias] && symbol == s.imports[alias][name]
  }

  function Resolve(s: Scope, name: string): (r: Option<string>)
    ensures forall symbol :: Names(s, name, symbol) <==> r == Some(symbol)
  {
    if '.' in name then
      var parts := SplitBy(name, ".");
      var r := if |parts| == 2 && parts[0] in s.imports && parts[1] in s.imports[parts[0]] then Some(s.imports[parts[0]][parts[1]]) else None;
      ResolveDotted(s, name);
      r
    else if name in s.local then Some(s.local[name]) else None
  }

  lemma {:induction false} FirstDot(s: string)
    ensures var i := FindText(s, ".");
      '.' !in s[..i] && (i < |s| ==> s[i] == '.')
  {
    if s != "" && s[0] != '.' {
      FirstDot(s[1..]);
      var i := FindText(s[1..], ".");
      assert s[..i + 1] == [s[0]] + s[1..][..i];
    }
  }

  lemma {:induction false} FirstDotAt(s: string, k: nat)
    requires k < |s| && s[k] == '.' && '.' !in s[..k]
    ensures FindText(s, ".") == k
  {
    if k > 0 {
      assert s[..k][0] == s[0] && s[..k][1..] == s[1..][..k - 1];
      FirstDotAt(s[1..], k - 1);
    }
  }

  lemma {:induction false} OnePart(s: string)
    ensures SplitBy(s, ".") == [s] <==> '.' !in s
  {
    FirstDot(s);
    var i := FindText(s, ".");
    assert i == |s| ==> s[..i] == s;
  }

  /** Exactly the names with one dot have two parts, those around the dot. */
  lemma {:induction false} TwoParts(name: string, k: nat)
    requires k < |name| && name[k] == '.'
    ensures '.' !in name[..k] && '.' !in name[k + 1..] <==> SplitBy(name, ".") == [name[..k], name[k + 1..]]
  {
    hide FindText;
    FirstDot(name);
    OnePart(name[k + 1..]);
    assert SplitBy(name, ".")[0] == name[..FindText(name, ".")];
    if '.' !in name[..k] {
      FirstDotAt(name, k);
    }
  }

  lemma {:induction false} ResolveDotted(s: Scope, name: string)
    requires '.' in name
    ensures var parts := SplitBy(name, ".");
      forall symbol :: Names(s, name, symbol) <==>
        |parts| == 2 && parts[0] in s.imports && parts[1] in s.imports[parts[0]] && symbol == s.imports[parts[0]][parts[1]]
  {
    hide FindText, SplitBy;
    var parts := SplitBy(name, ".");
    forall k | 0 <= k < |name| && name[k] == '.' ensures '.' !in name[..k] && '.' !in name[k + 1..] <==> parts == [name[..k], name[k + 1..]] {
      TwoParts(name, k);
    }
    if |parts| == 2 {
      var k := PartsAround(name);
      forall symbol | parts[0] in s.imports && parts[1] in s.imports[parts[0]] && symbol == s.imports[parts[0]][parts[1]] ensures Names(s, name, symbol) {
        assert name[k] == '.' && Qualified(s, name[..k], name[k + 1..], symbol);
      }
    }
  }

  lemma {:induction false} PartsAround(name: string) returns (k: nat)
    requires |SplitBy(name, ".")| == 2
    ensures k < |name| && name[k] == '.' && SplitBy(name, ".") == [name[..k], name[k + 1..]]
  {
    FirstDot(name);
    k := FindText(name, ".");
    var rest := name[k + 1..];
    FirstDot(rest);
    assert |SplitBy(rest, ".")| == 1;
    assert FindText(rest, ".") == |rest|;
  }
}
