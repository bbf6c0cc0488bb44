/** What strings.TrimSpace and strings.Fields do, by positions. */
module Words {
  import opened Types
  import opened Builtins

  predicate IsSpace(s: string) {
    forall i | 0 <= i < |s| :: IsUnicodeSpace(s[i])
  }

  predicate IsWord(w: string) {
    w != "" && forall i | 0 <= i < |w| :: !IsUnicodeSpace(w[i])
  }

  // ---------- trimming ----------

  lemma {:induction false} TrimLeftDrops(s: string)
    ensures |TrimLeft(s)| <= |s|
    ensures var k := |s| - |TrimLeft(s)|; IsSpace(s[..k]) && TrimLeft(s) == s[k..] && (k < |s| ==> !IsUnicodeSpace(s[k]))
  {
    hide IsUnicodeSpace;
    if s != "" && IsUnicodeSpace(s[0]) {
      TrimLeftDrops(s[1..]);
      var k := |s| - |TrimLeft(s)|;
      assert s[..k] == [s[0]] + s[1..][..k - 1];
    }
  }

  lemma {:induction false} TrimRightDrops(s: string)
    ensures |TrimRight(s)| <= |s|
    ensures var k := |TrimRight(s)|; TrimRight(s) == s[..k] && IsSpace(s[k..]) && (k > 0 ==> !IsUnicodeSpace(s[k - 1]))
  {
    hide IsUnicodeSpace, IsSpace;
    if s != "" && IsUnicodeSpace(s[|s| - 1]) {
      var front, last := s[..|s| - 1], s[|s| - 1];
      TrimRightDrops(front);
      var k := |TrimRight(front)|;
      assert TrimRight(s) == TrimRight(front) && front[..k] == s[..k];
      assert s[k..] == front[k..] + [last];
      OneMoreSpace(front[k..], last);
    } else {
      NoSpace();
      assert s[|s|..] == "" && s[..|s|] == s;
    }
  }

  lemma {:induction false} OneMoreSpace(s: string, c: char)
    requires IsSpace(s) && IsUnicodeSpace(c)
    ensures IsSpace(s + [c])
  {
    hide IsUnicodeSpace;
  }

  lemma {:induction false} NoSpace()
    ensures IsSpace("")
  {}

  lemma {:induction false} SpaceBefore(s: string, m: nat, k: nat)
    requires k < m <= |s| && IsSpace(s[..m])
    ensures IsUnicodeSpace(s[k])
  {
    hide IsUnicodeSpace;
    assert s[..m][k] == s[k];
  }

  lemma {:induction false} SpaceFrom(s: string, m: nat, k: nat)
    requires m <= k < |s| && IsSpace(s[m..])
    ensures IsUnicodeSpace(s[k])
  {
    hide IsUnicodeSpace;
    assert s[m..][k - m] == s[k];
  }

  /** The spaces at the start end where something else begins. */
  lemma {:induction false} LeadingSpace(s: string, k: nat)
    requires k < |s| && IsSpace(s[..k]) && !IsUnicodeSpace(s[k])
    ensures TrimLeft(s) == s[k..]
  {
    hide IsUnicodeSpace, IsSpace, TrimLeft;
    TrimLeftDrops(s);
    var m := |s| - |TrimLeft(s)|;
    if m < k {
      SpaceBefore(s, k, m);
    } else if k < m {
      SpaceBefore(s, m, k);
    }
  }

  lemma {:induction false} TrailingSpace(s: string, k: nat)
    requires 0 < k <= |s| && IsSpace(s[k..]) && !IsUnicodeSpace(s[k - 1])
    ensures TrimRight(s) == s[..k]
  {
    hide IsUnicodeSpace, IsSpace, TrimRight;
    TrimRightDrops(s);
    var m := |TrimRight(s)|;
    if m < k {
      SpaceFrom(s, m, k - 1);
    } else if k < m {
      SpaceFrom(s, k, m - 1);
    }
  }

  lemma {:induction false} AllSpace(s: string)
    requires IsSpace(s)
    ensures TrimLeft(s) == ""
  {
    hide IsUnicodeSpace, TrimLeft;
    TrimLeftDrops(s);
  }

  /** TrimSpace takes the spaces away at both ends, and nothing else. */
  lemma {:induction false} TrimSpaceMeaning(s: string, a: string, t: string, b: string)
    requires s == a + t + b && IsSpace(a) && IsSpace(b)
    requires t != "" ==> !IsUnicodeSpace(t[0]) && !IsUnicodeSpace(t[|t| - 1])
    ensures TrimSpace(s) == t
  {
    hide IsUnicodeSpace, TrimLeft, TrimRight;
    if t == "" {
      AllSpace(s);
      TrimRightDrops("");
    } else {
      assert s[..|a|] == a && s[|a|] == t[0];
      LeadingSpace(s, |a|);
      var left := t + b;
      assert s[|a|..] == left && left[|t|..] == b && left[|t| - 1] == t[|t| - 1] && left[..|t|] == t;
      TrailingSpace(left, |t|);
    }
  }

  /** And every text can be taken apart like that. */
  lemma {:induction false} TrimSpaceParts(s: string) returns (a: string, b: string)
    ensures s == a + TrimSpace(s) + b && IsSpace(a) && IsSpace(b)
    ensures var t := TrimSpace(s); t != "" ==> !IsUnicodeSpace(t[0]) && !IsUnicodeSpace(t[|t| - 1])
  {
    hide IsUnicodeSpace, TrimLeft, TrimRight;
    TrimLeftDrops(s);
    var left := TrimLeft(s);
    TrimRightDrops(left);
    a, b := s[..|s| - |left|], left[|TrimSpace(s)|..];
    assert left == TrimSpace(s) + b;
  }

  // ---------- words ----------

  lemma {:induction false} WordIsMaximal(s: string)
    ensures var n := WordLength(s);
      (forall i | 0 <= i < n :: !IsUnicodeSpace(s[i])) && (n < |s| ==> IsUnicodeSpace(s[n]))
  {
    if s != "" && !IsUnicodeSpace(s[0]) {
      WordIsMaximal(s[1..]);
    }
  }

  /** `w` stands in `s` from i on: no spaces in it, and spaces or an end around it. */
  predicate StandsAt(s: string, w: string, i: nat) {
    && IsWord(w) && i + |w| <= |s| && s[i..i + |w|] == w
    && (i > 0 ==> IsUnicodeSpace(s[i - 1])) && (i + |w| < |s| ==> IsUnicodeSpace(s[i + |w|]))
  }

  /** The words of a text are the longest pieces without spaces. */
  lemma {:induction false} FieldsMeaning(s: string, w: string)
    ensures w in Fields(s) <==> exists i :: 0 <= i <= |s| && StandsAt(s, w, i)
    decreases |s|
  {
    hide IsUnicodeSpace, WordLength, TrimLeft, StandsAt;
    var t := TrimLeft(s);
    TrimLeftDrops(s);
    var k := |s| - |t|;
    if t == "" {
      NoWordIn(s, w);
    } else {
      var n := WordLength(t);
      WordIsMaximal(t);
      assert n > 0 by { TrimLeftShorter(s); WordStarts(t); }
      var rest := t[n..];
      FieldsMeaning(rest, w);
      assert rest == s[k + n..];
      assert Fields(s) == [t[..n]] + Fields(rest);
      forall i | 0 <= i <= |s| && StandsAt(s, w, i) ensures w in Fields(s) {
        PlaceOfWord(s, w, i, k, n);
        if i == k {
          assert w == s[k..k + n] == t[..n] == Fields(s)[0];
        } else {
          assert StandsAt(rest, w, i - k - n) && 0 <= i - k - n <= |rest|;
          assert w in Fields(rest);
        }
      }
      if w == t[..n] {
        FirstStands(s, k, n);
        assert w == s[k..k + n] && StandsAt(s, w, k);
      } else if w in Fields(s) {
        assert w in Fields(rest);
        var i :| 0 <= i <= |rest| && StandsAt(rest, w, i);
        LaterStands(s, w, k + n, i);
        assert StandsAt(s, w, k + n + i);
      }
    }
  }

  lemma {:induction false} WordStarts(t: string)
    requires t != "" && !IsUnicodeSpace(t[0])
    ensures WordLength(t) > 0
  {}

  lemma {:induction false} WordIsNoSpace(s: string, w: string, i: nat)
    requires StandsAt(s, w, i)
    ensures i < |s| && !IsUnicodeSpace(s[i])
  {
    hide IsUnicodeSpace;
    assert w[0] == s[i..i + |w|][0] == s[i];
  }

  lemma {:induction false} NoWordIn(s: string, w: string)
    requires IsSpace(s)
    ensures forall i | 0 <= i <= |s| :: !StandsAt(s, w, i)
  {
    hide IsUnicodeSpace, StandsAt;
    forall i | 0 <= i <= |s| ensures !StandsAt(s, w, i) {
      if StandsAt(s, w, i) {
        WordIsNoSpace(s, w, i);
      }
    }
  }

  lemma {:induction false} FirstStands(s: string, k: nat, n: nat)
    requires 0 < n && k + n <= |s| && IsSpace(s[..k]) && (forall i | k <= i < k + n :: !IsUnicodeSpace(s[i]))
    requires k + n < |s| ==> IsUnicodeSpace(s[k + n])
    ensures StandsAt(s, s[k..k + n], k)
  {
    hide IsUnicodeSpace;
    if k > 0 {
      assert s[..k][k - 1] == s[k - 1];
    }
  }

  lemma {:induction false} LaterStands(s: string, w: string, from: nat, i: nat)
    requires 0 < from <= |s| && StandsAt(s[from..], w, i)
    requires from < |s| ==> IsUnicodeSpace(s[from])
    ensures StandsAt(s, w, from + i)
  {
    hide IsUnicodeSpace;
    var rest := s[from..];
    assert s[from + i..from + i + |w|] == rest[i..i + |w|];
    WordIsNoSpace(rest, w, i);
    assert rest[i] == s[from + i];
    assert i > 0;
    assert rest[i - 1] == s[from + i - 1];
  }

  lemma {:induction false} CharsOfWord(s: string, w: string, i: nat)
    requires StandsAt(s, w, i)
    ensures forall j | i <= j < i + |w| :: !IsUnicodeSpace(s[j])
  {
    hide IsUnicodeSpace;
    forall j | i <= j < i + |w| ensures !IsUnicodeSpace(s[j]) {
      assert s[j] == s[i..i + |w|][j - i];
    }
  }

  /** After k spaces and a word of n characters, a word stands at k or after it. */
  lemma {:induction false} PlaceOfWord(s: string, w: string, i: nat, k: nat, n: nat)
    requires StandsAt(s, w, i) && 0 < n && k + n <= |s| && IsSpace(s[..k]) && (forall j | k <= j < k + n :: !IsUnicodeSpace(s[j]))
    requires k + n < |s| ==> IsUnicodeSpace(s[k + n])
    ensures i >= k && (i == k ==> w == s[k..k + n])
    ensures i > k ==> i > k + n && StandsAt(s[k + n..], w, i - k - n)
  {
    hide IsUnicodeSpace, IsSpace;
    CharsOfWord(s, w, i);
    if i < k {
      SpaceBefore(s, k, i);
    }
    var rest := s[k + n..];
    if i > k + n {
      assert rest[i - k - n..i - k - n + |w|] == s[i..i + |w|];
      assert rest[i - k - n - 1] == s[i - 1];
    }
  }

  // ---------- words and the spaces between them ----------

  /** Spaces before, between and after words. */
  predicate Laid(words: seq<string>, gaps: seq<string>) {
    && |gaps| == |words| + 1
    && (forall i | 0 <= i < |words| :: IsWord(words[i]))
    && (forall i | 0 <= i < |gaps| :: IsSpace(gaps[i]) && (0 < i < |words| ==> gaps[i] != ""))
  }

  function Woven(words: seq<string>, gaps: seq<string>): string
    requires |gaps| == |words| + 1
  {
    if words == [] then gaps[0] else gaps[0] + words[0] + Woven(words[1..], gaps[1..])
  }

  /** The words come out in order, whatever spaces are around them. */
  lemma {:induction false} FieldsOfWoven(words: seq<string>, gaps: seq<string>)
    requires Laid(words, gaps)
    ensures Fields(Woven(words, gaps)) == words
    decreases |words|
  {
    hide IsUnicodeSpace, Fields;
    if words == [] {
      OnlySpace(gaps[0]);
    } else {
      var rest := Woven(words[1..], gaps[1..]);
      FieldsOfWoven(words[1..], gaps[1..]);
      RestStartsWithSpace(words, gaps);
      SpaceAndWord(gaps[0], words[0], rest);
    }
  }

  lemma {:induction false} RestStartsWithSpace(words: seq<string>, gaps: seq<string>)
    requires Laid(words, gaps) && words != []
    ensures var rest := Woven(words[1..], gaps[1..]); rest != "" ==> IsUnicodeSpace(rest[0])
  {
    hide IsUnicodeSpace;
    assert IsSpace(gaps[1]);
  }

  lemma {:induction false} OnlySpace(s: string)
    requires IsSpace(s)
    ensures Fields(s) == []
  {
    hide IsUnicodeSpace, TrimLeft;
    TrimLeftDrops(s);
  }

  lemma {:induction false} SpaceAndWord(gap: string, w: string, rest: string)
    requires IsSpace(gap) && IsWord(w) && (rest != "" ==> IsUnicodeSpace(rest[0]))
    ensures Fields(gap + w + rest) == [w] + Fields(rest)
  {
    hide IsUnicodeSpace, TrimLeft, WordLength;
    var s := gap + w + rest;
    assert s[..|gap|] == gap && s[|gap|] == w[0];
    LeadingSpace(s, |gap|);
    var t := w + rest;
    assert s[|gap|..] == t;
    WordLengthOf(w, rest);
    assert t[..|w|] == w && t[|w|..] == rest;
  }

  lemma {:induction false} WordLengthOf(w: string, rest: string)
    requires forall i | 0 <= i < |w| :: !IsUnicodeSpace(w[i])
    requires rest != "" ==> IsUnicodeSpace(rest[0])
    ensures WordLength(w + rest) == |w|
  {
    hide IsUnicodeSpace;
    if w == "" {
      assert w + rest == rest;
    } else {
      assert (w + rest)[1..] == w[1..] + rest;
      WordLengthOf(w[1..], rest);
    }
  }

  /** Every text is laid out like that. */
  lemma {:induction false} FieldsAreLaid(s: string) returns (gaps: seq<string>)
    ensures Laid(Fields(s), gaps) && Woven(Fields(s), gaps) == s
    decreases |s|
  {
    hide IsUnicodeSpace, TrimLeft, WordLength, Laid, Woven, IsSpace;
    TrimLeftDrops(s);
    var t := TrimLeft(s);
    var gap := s[..|s| - |t|];
    if t == "" {
      gaps := [s];
      assert gap == s;
      NothingLaid(s);
    } else {
      var n := WordLength(t);
      WordIsMaximal(t);
      WordStarts(t);
      var more := FieldsAreLaid(t[n..]);
      gaps := [gap] + more;
      assert Fields(s) == [t[..n]] + Fields(t[n..]);
      assert s == gap + t[..n] + t[n..];
      OneMoreLaid(gap, t[..n], Fields(t[n..]), more, t[n..]);
    }
  }

  lemma {:induction false} NothingLaid(s: string)
    requires IsSpace(s)
    ensures Laid([], [s]) && Woven([], [s]) == s
  {}

  lemma {:induction false} StartsWithWord(words: seq<string>, gaps: seq<string>)
    requires Laid(words, gaps) && words != [] && gaps[0] == ""
    ensures Woven(words, gaps) != "" && !IsUnicodeSpace(Woven(words, gaps)[0])
  {
    hide IsUnicodeSpace;
    assert Woven(words, gaps)[0] == words[0][0];
  }

  lemma {:induction false} OneMoreLaid(gap: string, w: string, words: seq<string>, gaps: seq<string>, rest: string)
    requires Laid(words, gaps) && Woven(words, gaps) == rest && IsSpace(gap) && IsWord(w) && (rest != "" ==> IsUnicodeSpace(rest[0]))
    ensures Laid([w] + words, [gap] + gaps) && Woven([w] + words, [gap] + gaps) == gap + w + rest
  {
    hide IsUnicodeSpace, IsSpace;
    assert ([w] + words)[1..] == words && ([gap] + gaps)[1..] == gaps;
    if words != [] && gaps[0] == "" {
      StartsWithWord(words, gaps);
    }
    var all := [gap] + gaps;
    forall i | 0 <= i < |all| ensures IsSpace(all[i]) && (0 < i < |words| + 1 ==> all[i] != "") {
      if i > 0 {
        assert all[i] == gaps[i - 1];
      }
    }
  }
}
