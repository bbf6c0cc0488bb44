/** A reader of JSON text (RFC 8259, without insignificant blanks), and that it reads canonical text
    back: every value is printed as itself. */
module JSONReading {
  import opened Options
  import opened Text
  import opened Floats
  import opened Decimal
  import opened Sorting
  import opened CanonicalJSON
  import N = CanonicalNumber

  // ---------- strings (section 7 of RFC 8259) ----------

  function Hex(c: char): Option<nat> {
    if '0' <= c <= '9' then Some(c as int - '0' as int)
    else if 'a' <= c <= 'f' then Some(c as int - 'a' as int + 10)
    else if 'A' <= c <= 'F' then Some(c as int - 'A' as int + 10)
    else None
  }

  /** The character of four hexadecimal digits; surrogates stand for nothing by themselves. */
  function FourDigits(s: string): Option<char>
    requires |s| == 4
  {
    var a :- Hex(s[0]);
    var b :- Hex(s[1]);
    var c :- Hex(s[2]);
    var d :- Hex(s[3]);
    var n := ((a * 16 + b) * 16 + c) * 16 + d;
    if n < 0xD800 || 0xE000 <= n < 0x1_0000 then Some(n as char) else None
  }

  /** The letters of escapes. */
  function Letter(c: char): Option<char> {
    if c == '\"' || c == '\\' || c == '/' then Some(c)
    else if c == 'b' then Some('\U{0008}')
    else if c == 'f' then Some('\U{000c}')
    else if c == 'n' then Some('\n')
    else if c == 'r' then Some('\r')
    else if c == 't' then Some('\t')
    else None
  }

  /** The rest of a string after its opening quote, and what follows it. */
  function ReadText(s: string): (r: Option<(string, string)>)
    ensures r.Some? ==> |r.value.1| < |s|
    decreases |s|
  {
    if s == "" || s[0] < ' ' then None
    else if s[0] == '\"' then Some(("", s[1..]))
    else if s[0] == '\\' then
      if |s| >= 6 && s[1] == 'u' then
        var c :- FourDigits(s[2..6]);
        var rest :- ReadText(s[6..]);
        Some(([c] + rest.0, rest.1))
      else if |s| >= 2 then
        var c :- Letter(s[1]);
        var rest :- ReadText(s[2..]);
        Some(([c] + rest.0, rest.1))
      else None
    else
      var rest :- ReadText(s[1..]);
      Some(([s[0]] + rest.0, rest.1))
  }

  // ---------- values (sections 3 to 6 of RFC 8259) ----------

  predicate InNumber(c: char) {
    IsDigit(c) || c == '-' || c == '+' || c == '.' || c == 'e' || c == 'E'
  }

  function NumberLength(s: string): (n: nat)
    ensures n <= |s|
  {
    if s != "" && InNumber(s[0]) then 1 + NumberLength(s[1..]) else 0
  }

  /** The first value of a text, and what follows it. */
  function ReadValue(s: string): (r: Option<(Document, string)>)
    ensures r.Some? ==> |r.value.1| < |s|
    decreases |s|, 0
  {
    if s == "" then None
    else if "null" <= s then Some((DLeaf(Null), s[4..]))
    else if "true" <= s then Some((DLeaf(Bool(true)), s[4..]))
    else if "false" <= s then Some((DLeaf(Bool(false)), s[5..]))
    else if s[0] == '\"' then
      var text :- ReadText(s[1..]);
      Some((DLeaf(String(text.0)), text.1))
    else if s[0] == '[' then
      if "[]" <= s then Some((DArray([]), s[2..])) else
      var items :- ReadItems(s[1..]);
      Some((DArray(items.0), items.1))
    else if s[0] == '{' then
      if "{}" <= s then Some((DObject([]), s[2..])) else
      var members :- ReadMembers(s[1..]);
      Some((DObject(members.0), members.1))
    else
      var n := NumberLength(s);
      if n > 0 && IsNumber(s[..n]) then Some((DLeaf(Number(s[..n])), s[n..])) else None
  }

  /** Values with commas between them, up to the closing bracket. */
  function ReadItems(s: string): (r: Option<(seq<Document>, string)>)
    ensures r.Some? ==> |r.value.1| < |s|
    decreases |s|, 1
  {
    var first :- ReadValue(s);
    if first.1 == "" then None
    else if first.1[0] == ']' then Some(([first.0], first.1[1..]))
    else if first.1[0] == ',' then
      var rest :- ReadItems(first.1[1..]);
      Some(([first.0] + rest.0, rest.1))
    else None
  }

  /** Members with commas between them, up to the closing brace. */
  function ReadMembers(s: string): (r: Option<(seq<Member>, string)>)
    ensures r.Some? ==> |r.value.1| < |s|
    decreases |s|, 1
  {
    if s == "" || s[0] != '\"' then None else
    var key :- ReadText(s[1..]);
    if key.1 == "" || key.1[0] != ':' then None else
    var value :- ReadValue(key.1[1..]);
    var first := Member(key.0, value.0);
    if value.1 == "" then None
    else if value.1[0] == '}' then Some(([first], value.1[1..]))
    else if value.1[0] == ',' then
      var rest :- ReadMembers(value.1[1..]);
      Some(([first] + rest.0, rest.1))
    else None
  }

  // ---------- what canonical text is read as ----------

  /** The value with its numbers in canonical form, and the members of objects in the order of keys. */
  ghost function Canonical(round64: real -> Float, v: JSON): Document
    requires Proper(v) && Print(round64, v).Some?
    decreases v, 1
  {
    match v
    case Number(text) => DLeaf(Number(N.Canonical(round64, text).value))
    case Array(items) => DArray(CanonicalItems(round64, items))
    case Object(fields) => DObject(CanonicalMembers(round64, v, Sorted(fields.Keys)))
    case _ => DLeaf(v)
  }

  ghost function CanonicalItems(round64: real -> Float, items: seq<JSON>): (r: seq<Document>)
    requires (forall i | 0 <= i < |items| :: Proper(items[i])) && PrintItems(round64, items).Some?
    ensures |r| == |items|
    decreases items, 0
  {
    if items == [] then [] else [Canonical(round64, items[0])] + CanonicalItems(round64, items[1..])
  }

  ghost function CanonicalMembers(round64: real -> Float, o: JSON, keys: seq<string>): (r: seq<Member>)
    requires o.Object? && Proper(o) && (forall k | k in keys :: k in o.fields) && PrintMembers(round64, o, keys).Some?
    ensures |r| == |keys| && forall i | 0 <= i < |keys| :: r[i].key == keys[i]
    decreases o, 0, |keys|
  {
    if keys == [] then [] else
    FieldIsProper(o, keys[0]);
    assert PrintMember(round64, o, keys[0]).Some?;
    [Member(keys[0], Canonical(round64, o.fields[keys[0]]))] + CanonicalMembers(round64, o, keys[1..])
  }

  // ---------- reading what was printed ----------

  lemma {:induction false} CharReads(c: char, rest: string)
    ensures ReadText(EscapeChar(c) + rest) == if ReadText(rest).None? then None else Some(([c] + ReadText(rest).value.0, ReadText(rest).value.1))
  {
    hide ReadText;
    var e := EscapeChar(c);
    if e == [c] {
      PlainReads(c, rest);
    } else if |e| == 2 {
      LetterReads(c, e[1], rest);
      assert e == ['\\', e[1]];
    } else {
      ControlReads(c, rest);
    }
  }

  lemma {:induction false} PlainReads(c: char, rest: string)
    requires c >= ' ' && c != '\"' && c != '\\'
    ensures ReadText([c] + rest) == if ReadText(rest).None? then None else Some(([c] + ReadText(rest).value.0, ReadText(rest).value.1))
  {
    assert ([c] + rest)[0] == c && ([c] + rest)[1..] == rest;
  }

  lemma {:induction false} LetterReads(c: char, letter: char, rest: string)
    requires Letter(letter) == Some(c) && letter != 'u'
    ensures ReadText(['\\', letter] + rest) == if ReadText(rest).None? then None else Some(([c] + ReadText(rest).value.0, ReadText(rest).value.1))
  {
    hide Letter;
    var s := ['\\', letter] + rest;
    assert s[0] == '\\' && s[1] == letter && s[2..] == rest;
  }

  lemma {:induction false} ControlReads(c: char, rest: string)
    requires c < ' '
    ensures var e := "\\u00" + [HEXADECIMAL[c as int / 16], HEXADECIMAL[c as int % 16]];
      ReadText(e + rest) == if ReadText(rest).None? then None else Some(([c] + ReadText(rest).value.0, ReadText(rest).value.1))
  {
    var m, n := c as int / 16, c as int % 16;
    var e := "\\u00" + [HEXADECIMAL[m], HEXADECIMAL[n]];
    var s := e + rest;
    assert s[0] == '\\' && s[1] == 'u' && s[6..] == rest && s[2..6] == ['0', '0', HEXADECIMAL[m], HEXADECIMAL[n]];
    HexReads(m);
    HexReads(n);
    assert FourDigits(s[2..6]) == Some(c);
  }

  lemma {:induction false} HexReads(d: nat)
    requires d < 16
    ensures Hex(HEXADECIMAL[d]) == Some(d)
  {}

  /** A quoted string is read as that string, whatever follows. */
  lemma {:induction false} TextReads(s: string, rest: string)
    ensures ReadText(EscapeText(s) + ("\"" + rest)) == Some((s, rest))
    decreases |s|
  {
    hide EscapeText, EscapeChar, ReadText;
    if s == "" {
      NothingEscaped();
      assert EscapeText(s) + ("\"" + rest) == "\"" + rest;
      QuoteReads(rest);
    } else {
      EscapeHead(s);
      var more := EscapeText(s[1..]) + ("\"" + rest);
      assert EscapeText(s) + ("\"" + rest) == EscapeChar(s[0]) + more;
      CharReads(s[0], more);
      TextReads(s[1..], rest);
      assert [s[0]] + s[1..] == s;
    }
  }

  lemma {:induction false} QuoteReads(rest: string)
    ensures ReadText("\"" + rest) == Some(("", rest))
  {
    assert ("\"" + rest)[0] == '\"' && ("\"" + rest)[1..] == rest;
  }

  lemma {:induction false} NumberLengthOf(t: string, rest: string)
    requires (forall i | 0 <= i < |t| :: NumberChar(t[i])) && Ends(rest)
    ensures NumberLength(t + rest) == |t|
  {
    if t == "" {
      assert t + rest == rest;
    } else {
      assert (t + rest)[1..] == t[1..] + rest;
      NumberLengthOf(t[1..], rest);
    }
  }

  lemma {:induction false} NumberReads(t: string, rest: string)
    requires IsNumber(t) && t != "" && (forall i | 0 <= i < |t| :: NumberChar(t[i])) && Ends(rest)
    ensures ReadValue(t + rest) == Some((DLeaf(Number(t)), rest))
  {
    hide IsNumber, NumberLength;
    var s := t + rest;
    NumberLengthOf(t, rest);
    assert s[0] == t[0] && s[..|t|] == t && s[|t|..] == rest;
  }

  /** Canonical text is read as the value it was printed from, up to where it ends. */
  lemma {:induction false} ValueReads(round64: real -> Float, v: JSON, rest: string)
    requires Proper(v) && Lawful(round64) && Print(round64, v).Some? && Ends(rest)
    ensures ReadValue(Print(round64, v).value + rest) == Some((Canonical(round64, v), rest))
    decreases v, 2
  {
    hide EscapeText, PrintItems, PrintMembers, N.Canonical, IsNumber, Lawful, ReadText, ReadItems, ReadMembers, ReadValue, NumberChar, CanonicalItems, CanonicalMembers;
    var t := Print(round64, v).value;
    match v {
      case Null => WordReads("null", Null, rest);
      case Bool(b) => WordReads(if b then "true" else "false", v, rest);
      case String(s) => StringReads(s, rest);
      case Number(text) =>
        CanonicalChars(round64, text);
        DenotedText(round64, text);
        NumberReads(t, rest);
      case Array(items) =>
        if items == [] {
          EmptyArrayReads(round64, rest);
        } else {
          ItemsRead(round64, items, rest);
          ArrayReads(round64, items, rest);
        }
      case Object(fields) =>
        var keys := Sorted(fields.Keys);
        if keys == [] {
          EmptyObjectReads(round64, v, rest);
        } else {
          MembersRead(round64, v, keys, rest);
          ObjectReads(round64, v, keys, rest);
        }
    }
  }

  lemma {:induction false} WordReads(word: string, v: JSON, rest: string)
    requires (word == "null" && v == Null) || (word == "true" && v == Bool(true)) || (word == "false" && v == Bool(false))
    ensures ReadValue(word + rest) == Some((DLeaf(v), rest))
  {
    var s := word + rest;
    assert s[..|word|] == word && s[|word|..] == rest && s[0] == word[0];
  }

  lemma {:induction false} StringReads(x: string, rest: string)
    ensures ReadValue(Quote(x) + rest) == Some((DLeaf(String(x)), rest))
  {
    hide EscapeText, ReadText;
    var s := Quote(x) + rest;
    assert s[0] == '\"' && s[1..] == EscapeText(x) + ("\"" + rest);
    TextReads(x, rest);
  }

  lemma {:induction false} EmptyArrayReads(round64: real -> Float, rest: string)
    ensures PrintItems(round64, []) == Some("") && CanonicalItems(round64, []) == []
    ensures ReadValue("[" + "" + "]" + rest) == Some((DArray([]), rest))
  {
    var s := "[" + "" + "]" + rest;
    assert s[0] == '[' && s[1] == ']' && s[..2] == "[]" && s[2..] == rest;
  }

  lemma {:induction false} EmptyObjectReads(round64: real -> Float, o: JSON, rest: string)
    requires o.Object? && Proper(o)
    ensures PrintMembers(round64, o, []) == Some("") && CanonicalMembers(round64, o, []) == []
    ensures ReadValue("{" + "" + "}" + rest) == Some((DObject([]), rest))
  {
    var s := "{" + "" + "}" + rest;
    assert s[0] == '{' && s[1] == '}' && s[..2] == "{}" && s[2..] == rest;
  }

  lemma {:induction false} ArrayReads(round64: real -> Float, items: seq<JSON>, rest: string)
    requires items != [] && (forall i | 0 <= i < |items| :: Proper(items[i])) && Lawful(round64) && PrintItems(round64, items).Some?
    requires ReadItems(PrintItems(round64, items).value + ("]" + rest)) == Some((CanonicalItems(round64, items), rest))
    ensures ReadValue("[" + PrintItems(round64, items).value + "]" + rest) == Some((DArray(CanonicalItems(round64, items)), rest))
  {
    hide Print, ReadItems, Lawful, PrintItems;
    var inner := PrintItems(round64, items).value;
    var s := "[" + inner + "]" + rest;
    assert s[0] == '[' && s[1..] == inner + ("]" + rest);
    ItemsBegin(round64, items);
    assert s[1] == inner[0];
  }

  lemma {:induction false} ItemsBegin(round64: real -> Float, items: seq<JSON>)
    requires items != [] && (forall i | 0 <= i < |items| :: Proper(items[i])) && Lawful(round64) && PrintItems(round64, items).Some?
    ensures var t := PrintItems(round64, items).value; t != "" && t[0] != ']'
  {
    hide Print, Lawful;
    BeginsAs(round64, items[0]);
  }

  lemma {:induction false} ObjectReads(round64: real -> Float, o: JSON, keys: seq<string>, rest: string)
    requires o.Object? && Proper(o) && keys != [] && (forall k | k in keys :: k in o.fields) && PrintMembers(round64, o, keys).Some?
    requires ReadMembers(PrintMembers(round64, o, keys).value + ("}" + rest)) == Some((CanonicalMembers(round64, o, keys), rest))
    ensures ReadValue("{" + PrintMembers(round64, o, keys).value + "}" + rest) == Some((DObject(CanonicalMembers(round64, o, keys)), rest))
  {
    hide Print, Proper, ReadMembers, EscapeText, CanonicalMembers;
    var inner := PrintMembers(round64, o, keys).value;
    var s := "{" + inner + "}" + rest;
    assert s[0] == '{' && s[1..] == inner + ("}" + rest);
    assert PrintMember(round64, o, keys[0]).value[0] == '\"';
    assert inner[0] == '\"' && s[1] == inner[0];
  }

  lemma {:induction false} ItemsRead(round64: real -> Float, items: seq<JSON>, rest: string)
    requires items != [] && (forall i | 0 <= i < |items| :: Proper(items[i])) && Lawful(round64) && PrintItems(round64, items).Some?
    ensures ReadItems(PrintItems(round64, items).value + ("]" + rest)) == Some((CanonicalItems(round64, items), rest))
    decreases items, 1
  {
    hide Print, Proper, Lawful, ReadValue, Canonical;
    var first := Print(round64, items[0]).value;
    if |items| == 1 {
      assert items[1..] == [] && PrintItems(round64, items).value == first;
      ValueReads(round64, items[0], "]" + rest);
      assert ("]" + rest)[0] == ']' && ("]" + rest)[1..] == rest;
      assert CanonicalItems(round64, items) == [Canonical(round64, items[0])];
    } else {
      var more := PrintItems(round64, items[1..]).value;
      ItemsRead(round64, items[1..], rest);
      var after := "," + (more + ("]" + rest));
      assert PrintItems(round64, items).value + ("]" + rest) == first + after;
      assert after[0] == ',' && after[1..] == more + ("]" + rest);
      ValueReads(round64, items[0], after);
    }
  }

  lemma {:induction false} MembersRead(round64: real -> Float, o: JSON, keys: seq<string>, rest: string)
    requires o.Object? && Proper(o) && keys != [] && (forall k | k in keys :: k in o.fields) && Lawful(round64) && PrintMembers(round64, o, keys).Some?
    ensures ReadMembers(PrintMembers(round64, o, keys).value + ("}" + rest)) == Some((CanonicalMembers(round64, o, keys), rest))
    decreases o, 1, |keys|
  {
    hide Print, Proper, Lawful, ReadValue, Canonical, ReadText, EscapeText, PrintMember, ReadMembers;
    var first := PrintMember(round64, o, keys[0]).value;
    if |keys| == 1 {
      var after := "}" + rest;
      assert keys[1..] == [] && PrintMembers(round64, o, keys).value == first;
      assert after[0] == '}' && after[1..] == rest;
      MemberReads(round64, o, keys[0], after);
      assert CanonicalMembers(round64, o, keys) == [Member(keys[0], Canonical(round64, o.fields[keys[0]]))];
    } else {
      var more := PrintMembers(round64, o, keys[1..]).value;
      MembersRead(round64, o, keys[1..], rest);
      var after := "," + (more + ("}" + rest));
      assert PrintMembers(round64, o, keys).value + ("}" + rest) == first + after;
      assert after[0] == ',' && after[1..] == more + ("}" + rest);
      MemberReads(round64, o, keys[0], after);
    }
  }

  /** One member, in front of a closing brace or of a comma and more members. */
  lemma {:induction false} MemberReads(round64: real -> Float, o: JSON, key: string, after: string)
    requires o.Object? && Proper(o) && key in o.fields && Lawful(round64) && PrintMember(round64, o, key).Some?
    requires after != "" && (after[0] == '}' || after[0] == ',')
    ensures Print(round64, o.fields[key]).Some? && Proper(o.fields[key])
    ensures var member := Member(key, Canonical(round64, o.fields[key]));
      ReadMembers(PrintMember(round64, o, key).value + after) ==
        if after[0] == '}' then Some(([member], after[1..]))
        else if ReadMembers(after[1..]).None? then None
        else Some(([member] + ReadMembers(after[1..]).value.0, ReadMembers(after[1..]).value.1))
    decreases o, 0
  {
    hide Print, Proper, Lawful, ReadValue, Canonical, ReadText, EscapeText;
    FieldIsProper(o, key);
    var value := Print(round64, o.fields[key]).value;
    var s := PrintMember(round64, o, key).value + after;
    assert s[0] == '\"' && s[1..] == EscapeText(key) + ("\"" + (":" + (value + after)));
    TextReads(key, ":" + (value + after));
    assert (":" + (value + after))[0] == ':' && (":" + (value + after))[1..] == value + after;
    ValueReads(round64, o.fields[key], after);
  }

  /** The keys are printed in the order of their bytes. */
  lemma {:induction false} KeysAreSorted(round64: real -> Float, o: JSON)
    requires o.Object? && Proper(o) && Print(round64, o).Some?
    ensures var members := Canonical(round64, o).members;
      exists keys :: Increasing(keys) && (forall k :: k in keys <==> k in o.fields) && |members| == |keys| &&
        forall i | 0 <= i < |keys| :: members[i].key == keys[i]
  {
    hide Increasing, CanonicalMembers;
  }

  /** And the value read is the value printed, up to the spelling of numbers. */
  lemma {:induction false} CanonicalDecodes(round64: real -> Float, v: JSON)
    requires Proper(v) && Lawful(round64) && Print(round64, v).Some?
    ensures var w := Decode(Canonical(round64, v)); w.Some? && Proper(w.value) && Same(round64, v, w.value)
    decreases v, 2
  {
    hide N.Canonical, IsNumber, Lawful, Denoted, PrintItems, PrintMembers, CanonicalItems, CanonicalMembers, DecodeItems, DecodeMembers, EscapeText, Increasing;
    match v {
      case Number(text) => NumberDecodes(round64, text);
      case Array(items) => ItemsDecode(round64, items);
      case Object(fields) => ObjectDecodes(round64, v);
      case _ =>
    }
  }

  lemma {:induction false} NumberDecodes(round64: real -> Float, text: string)
    requires IsNumber(text) && Lawful(round64) && N.Canonical(round64, text).Some?
    ensures var t := N.Canonical(round64, text).value; IsNumber(t) && Denoted(round64, t) == Denoted(round64, text)
  {
    hide N.Canonical, IsNumber, Lawful, Denoted, Exact, N.Underflows;
    DenotedText(round64, text);
    N.CanonicalIdempotent(round64, text);
    var t := N.Canonical(round64, text).value;
    NumbersApart(round64, text, t);
  }

  lemma {:induction false} ItemsDecode(round64: real -> Float, items: seq<JSON>)
    requires (forall i | 0 <= i < |items| :: Proper(items[i])) && Lawful(round64) && PrintItems(round64, items).Some?
    ensures var ws := DecodeItems(CanonicalItems(round64, items));
      ws.Some? && |ws.value| == |items| && forall i | 0 <= i < |items| :: Proper(ws.value[i]) && Same(round64, items[i], ws.value[i])
    decreases items, 1
  {
    hide Print, Proper, Lawful, Canonical, Same, Decode;
    if items != [] {
      CanonicalDecodes(round64, items[0]);
      ItemsDecode(round64, items[1..]);
      assert ([Canonical(round64, items[0])] + CanonicalItems(round64, items[1..]))[1..] == CanonicalItems(round64, items[1..]);
    }
  }

  lemma {:induction false} ObjectDecodes(round64: real -> Float, o: JSON)
    requires o.Object? && Proper(o) && Lawful(round64) && Print(round64, o).Some?
    ensures var w := Decode(Canonical(round64, o)); w.Some? && Proper(w.value) && Same(round64, o, w.value)
    decreases o, 1
  {
    hide Lawful, Increasing, CanonicalMembers, PrintMembers, EscapeText, Same, Decode, DecodeMembers;
    var keys := Sorted(o.fields.Keys);
    var members := CanonicalMembers(round64, o, keys);
    MembersDecode(round64, o, keys);
    KeysDistinct(keys, members);
    DecodeMembersMeaning(members);
    DecodedObject(round64, o, keys, members, DecodeMembers(members).value);
  }

  lemma {:induction false} KeysDistinct(keys: seq<string>, members: seq<Member>)
    requires Increasing(keys) && |members| == |keys| && forall i | 0 <= i < |keys| :: members[i].key == keys[i]
    ensures KeysDiffer(members) && KeysOf(members) == set k | k in keys
  {
    hide Before;
    forall i, j | 0 <= i < j < |members| ensures members[i].key != members[j].key {
      BeforeTotal(keys[i], keys[j]);
    }
    forall k | k in keys ensures k in KeysOf(members) {
      var i :| 0 <= i < |keys| && keys[i] == k;
      assert members[i].key == k;
    }
  }

  lemma {:induction false} DecodedObject(round64: real -> Float, o: JSON, keys: seq<string>, members: seq<Member>, fields: map<string, JSON>)
    requires o.Object? && Proper(o) && (set k | k in keys) == o.fields.Keys == fields.Keys && DecodeMembers(members) == Some(fields)
    requires forall i | 0 <= i < |keys| :: keys[i] in fields && Proper(fields[keys[i]]) && Same(round64, o.fields[keys[i]], fields[keys[i]])
    ensures var w := Decode(DObject(members)); w.Some? && Proper(w.value) && Same(round64, o, w.value)
  {
    hide DecodeMembers;
    assert Decode(DObject(members)) == Some(Object(fields));
    forall k | k in o.fields ensures k in fields && Proper(fields[k]) && Same(round64, o.fields[k], fields[k]) {
      assert k in keys;
      var i :| 0 <= i < |keys| && keys[i] == k;
    }
  }

  lemma {:induction false} MembersDecode(round64: real -> Float, o: JSON, keys: seq<string>)
    requires o.Object? && Proper(o) && (forall k | k in keys :: k in o.fields) && Lawful(round64) && PrintMembers(round64, o, keys).Some?
    ensures var members := CanonicalMembers(round64, o, keys);
      forall i | 0 <= i < |keys| ::
        Decode(members[i].value).Some? && Proper(Decode(members[i].value).value) && Same(round64, o.fields[keys[i]], Decode(members[i].value).value)
    decreases o, 0, |keys|
  {
    hide Print, Lawful, Canonical, Same, Decode, EscapeText;
    if keys != [] {
      FieldIsProper(o, keys[0]);
      assert PrintMember(round64, o, keys[0]).Some?;
      CanonicalDecodes(round64, o.fields[keys[0]]);
      MembersDecode(round64, o, keys[1..]);
    }
  }
}
