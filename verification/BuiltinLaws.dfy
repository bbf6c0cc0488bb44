/** Laws of the built-ins across their typing and their execution. */
module BuiltinLaws {
  import opened Options
  import opened Text
  import opened Types
  import opened Values
  import opened IR
  import opened Builtins
  import opened Words
  import opened Emission
  import K = KDLTree

  // ---------- split and join ----------

  /** join undoes split. */
  lemma {:induction false} JoinAfterSplit(s: string, separator: string)
    requires separator != ""
    ensures JoinWith(SplitBy(s, separator), separator) == s
    decreases |s|
  {
    hide FindText, JoinWith;
    var i := FindText(s, separator);
    if i < |s| {
      var rest := s[i + |separator|..];
      JoinAfterSplit(rest, separator);
      JoinFirst(s[..i], SplitBy(rest, separator), separator);
      assert s == s[..i] + separator + rest;
    } else {
      JoinOne(s, separator);
    }
  }

  lemma {:induction false} JoinFirst(first: string, rest: seq<string>, separator: string)
    requires rest != []
    ensures JoinWith([first] + rest, separator) == first + separator + JoinWith(rest, separator)
  {
    assert ([first] + rest)[1..] == rest;
  }

  lemma {:induction false} JoinOne(first: string, separator: string)
    ensures JoinWith([first], separator) == first
  {}

  /** No part still holds the separator. */
  lemma {:induction false} PartsHaveNoSeparator(s: string, separator: string, k: nat)
    requires separator != "" && k < |SplitBy(s, separator)|
    ensures !Contains(SplitBy(s, separator)[k], separator)
    decreases |s|
  {
    var i := FindText(s, separator);
    if i < |s| {
      if k == 0 {
        NothingBefore(s, separator);
      } else {
        PartsHaveNoSeparator(s[i + |separator|..], separator, k - 1);
      }
    }
  }

  lemma {:induction false} NothingBefore(s: string, t: string)
    requires t != "" && FindText(s, t) < |s|
    ensures !Contains(s[..FindText(s, t)], t)
  {
    var i := FindText(s, t);
    if i > 0 {
      NothingBefore(s[1..], t);
      assert s[..i][1..] == s[1..][..i - 1];
      assert t <= s[..i] ==> t <= s;
    }
  }

  // ---------- normalize-whitespace ----------

  lemma {:induction false} FieldsAreWords(s: string, k: nat)
    requires k < |Fields(s)|
    ensures IsWord(Fields(s)[k])
    decreases |s|
  {
    hide IsUnicodeSpace;
    var t := TrimLeft(s);
    TrimLeftShorter(s);
    WordIsMaximal(t);
    if k > 0 {
      FieldsAreWords(t[WordLength(t)..], k - 1);
    }
  }

  lemma {:induction false} FieldsOfWordThen(w: string, rest: string)
    requires IsWord(w) && (rest != "" ==> IsUnicodeSpace(rest[0]))
    ensures Fields(w + rest) == [w] + Fields(rest)
  {
    hide IsUnicodeSpace;
    var s := w + rest;
    assert s[0] == w[0];
    assert TrimLeft(s) == s;
    WordLengthOf(w, rest);
    assert s[..|w|] == w && s[|w|..] == rest;
  }

  lemma {:induction false} FieldsSkipSpace(s: string)
    ensures Fields(" " + s) == Fields(s)
  {
    assert (" " + s)[1..] == s;
    assert TrimLeft(" " + s) == TrimLeft(s);
  }

  /** Joining words by single spaces and taking them apart again. */
  lemma {:induction false} FieldsOfJoin(words: seq<string>)
    requires forall w | w in words :: IsWord(w)
    ensures Fields(JoinWith(words, " ")) == words
  {
    hide IsUnicodeSpace, Fields;
    if words == [] {
      NoFields();
    } else if |words| == 1 {
      FieldsOfWordThen(words[0], "");
      NoFields();
      assert words[0] + "" == words[0];
    } else {
      var rest := JoinWith(words[1..], " ");
      FieldsOfJoin(words[1..]);
      assert words[0] + " " + rest == words[0] + (" " + rest);
      SpaceIsSpace();
      FieldsOfWordThen(words[0], " " + rest);
      FieldsSkipSpace(rest);
    }
  }

  lemma {:induction false} NoFields()
    ensures Fields("") == []
  {}

  lemma {:induction false} SpaceIsSpace()
    ensures IsUnicodeSpace(' ')
  {}

  /** normalize-whitespace is idempotent, and leaves the words as they are. */
  lemma {:induction false} NormalizeWhitespaceTwice(s: string)
    ensures var once := JoinWith(Fields(s), " ");
      Fields(once) == Fields(s) && JoinWith(Fields(once), " ") == once
  {
    forall w | w in Fields(s) ensures IsWord(w) {
      var k :| 0 <= k < |Fields(s)| && Fields(s)[k] == w;
      FieldsAreWords(s, k);
    }
    FieldsOfJoin(Fields(s));
  }

  // ---------- to-string and parse-int ----------

  /** parse-int reads back what to-string writes, for every integer type and every integer in its range. */
  lemma {:induction false} ParseIntAfterToString(h: Host, kind: IntKind, n: int, name: string, arguments: map<string, Raw>)
    requires KindOf(name) == Some(kind) && InRange(kind, n)
    requires arguments == map["as" := Decoded(Str(name))]
    ensures RunToString(h, Int(kind, n)) == Some(Str(IntText(n)))
    ensures RunParseInt(IntText(n), arguments) == Some(Int(kind, n))
  {
    hide KindOf, NatText, DigitsValue;
    PlainIntText(n);
    DecimalReadsBack(if n < 0 then -n else n);
    var s := IntText(n);
    assert n < 0 ==> s[1..] == NatText(-n);
    assert RequiredText(arguments, "as") == Some(name);
    assert kind in {U8, U16, U32, U64} ==> n >= 0;
  }

  // ---------- the argument `as` of parse-int ----------

  /** The executor looks the name up as it is written, so a parse-int can succeed exactly for the
      plain names of the integer types. */
  lemma {:induction false} ParseIntUsableIff(h: Host, name: string, arguments: map<string, Raw>)
    requires arguments == map["as" := Decoded(Str(name))]
    ensures KindOf(name).Some? <==> exists s :: RunParseInt(s, arguments).Some?
  {
    hide KindOf, ParseUnsignedInput, ParseSigned;
    if KindOf(name).Some? {
      ParseIntAfterToString(h, KindOf(name).value, 0, name, arguments);
    }
    assert RequiredText(arguments, "as") == Some(name);
  }

  /** The compiler parses the name as a type instead: ` int` compiles and then always fails. */
  lemma {:induction false} SpacedIntCompilesAndFails(s: string, arguments: map<string, Raw>)
    requires arguments == map["as" := Decoded(Str(" int"))]
    ensures TypeOf(ParseInt, STRING, Some(" int")) == Some(Primitive("int"))
    ensures RunParseInt(s, arguments) == None
  {
    hide Parse, KindOf, ParseSigned, ParseUnsignedInput;
    SpacedName("int");
    assert " " + "int" == " int";
    NoSuchKind();
    assert RequiredText(arguments, "as") == Some(" int");
    IntIsKind();
    KindNamesType("int");
  }

  lemma {:induction false} IntIsKind()
    ensures KindOf("int") == Some(I64)
  {}

  lemma {:induction false} NoSuchKind()
    ensures KindOf(" int") == None
  {}

  lemma {:induction false} SpacedName(name: string)
    ensures Parse(" " + name) == Parse(name)
  {
    hide TypeAt, TrimRight;
    SpaceIsSpace();
    assert (" " + name)[1..] == name;
    assert TrimLeft(" " + name) == TrimLeft(name);
  }

  // ---------- coalesce ----------

  /** A coalesce the compiler accepts never fails: its literal fits the type the null is replaced in. */
  lemma {:induction false} CoalesceNeverFails(h: Host, v: Value, call: Call, literal: K.Value)
    requires h.Lawful() && ValidLiteral(h, literal) && LiteralAssignable(literal, call.output)
    requires "value" in Arguments(call.named) && Arguments(call.named)["value"] == RawOf(h, literal)
    ensures Run(h, Coalesce, v, call).Some?
  {
    hide Arguments, Host.Lawful, LiteralAssignable, ValidLiteral, RawOf, Normalize;
    LiteralNormalizes(h, literal, call.output);
  }
}
