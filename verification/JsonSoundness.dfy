/** Whatever is read is a strict text of the grammar; with `JsonCompleteness`, the parser accepts
    exactly those texts. */
module JsonSoundness {
  import opened Text
  import opened JsonGrammar
  import opened JsonReading
  import opened JsonParser
  import opened JsonCompleteness

  lemma {:induction false} SkipSpacesSplits(t: string) returns (w: string)
    ensures Spaces(w) && t == w + SkipSpaces(t)
    ensures SkipSpaces(t) == "" || !IsSpace(SkipSpaces(t)[0])
  {
    if t != "" && IsSpace(t[0]) {
      w := SkipSpacesSplits(t[1..]);
      w := [t[0]] + w;
    } else {
      w := "";
    }
  }

  lemma {:induction false} SkipDigitsSplits(t: string) returns (w: string)
    ensures forall i :: 0 <= i < |w| ==> IsDigit(w[i])
    ensures t == w + SkipDigits(t)
  {
    if StartsWithDigit(t) {
      w := SkipDigitsSplits(t[1..]);
      w := [t[0]] + w;
    } else {
      w := "";
    }
  }

  lemma {:induction false} HexDigitsRead(t: string, digits: nat, value: nat)
    requires ReadHex(t, digits, value).0.Ok?
    ensures |t| >= digits && forall i :: 0 <= i < digits ==> IsHex(t[i])
  {
    if digits > 0 {
      HexDigitsRead(t[1..], digits - 1, value * 16 + HexDigit(t[0]));
      forall i | 1 <= i < digits ensures IsHex(t[i]) {
        assert t[i] == t[1..][i - 1];
      }
    }
  }

  lemma HexPrefix(t: string)
    requires |t| >= 4 && forall i :: 0 <= i < 4 ==> IsHex(t[i])
    ensures IsHex4(t[..4]) && ReadHex(t, 4, 0) == (Ok(HexValue(t[..4])), t[4..])
  {
    var h := t[..4];
    assert t == h + t[4..];
    HexComplete(h, t[4..]);
  }

  lemma HexSound(t: string)
    requires ReadHex(t, 4, 0).0.Ok?
    ensures |t| >= 4 && IsHex4(t[..4])
    ensures ReadHex(t, 4, 0) == (Ok(HexValue(t[..4])), t[4..])
  {
    HexDigitsRead(t, 4, 0);
    HexPrefix(t);
  }

  lemma UnicodeSound(t: string) returns (c: CharText)
    requires ReadUnicode(t).0.Ok?
    ensures StrictChar(c) && ReadUnicode(t).0.value == DenoteChar(c)
    ensures "\\u" + t == SpellChar(c) + ReadUnicode(t).1
  {
    HexSound(t);
    var high := t[..4];
    var t1 := t[4..];
    assert t == high + t1;
    if IsHighSurrogate(HexValue(high)) {
      c := PairSound(t, high, t1);
    } else {
      c := Unit(high);
      assert "\\u" + t == "\\u" + high + t1;
    }
  }

  lemma PairSound(t: string, high: string, t1: string) returns (c: CharText)
    requires IsHex4(high) && IsHighSurrogate(HexValue(high)) && t == high + t1
    requires ReadHex(t, 4, 0) == (Ok(HexValue(high)), t1) && ReadUnicode(t).0.Ok?
    ensures StrictChar(c) && ReadUnicode(t).0.value == DenoteChar(c)
    ensures "\\u" + t == SpellChar(c) + ReadUnicode(t).1
  {
    assert t1[1..][0] == t1[1];
    var t2 := t1[2..];
    HexSound(t2);
    var low := t2[..4];
    c := Pair(high, low);
    assert t1 == "\\u" + t2 && t2 == low + t2[4..];
    assert "\\u" + (high + ("\\u" + (low + t2[4..]))) == "\\u" + high + "\\u" + low + t2[4..];
  }

  /** One step of reading a string: the character taken and the text behind it. */
  lemma CharSound(t: string, output: string) returns (c: CharText, rest: string)
    requires ReadChars(t, output).0.Ok? && t[0] != '"'
    ensures StrictChar(c) && t == SpellChar(c) + rest && |rest| < |t|
    ensures ReadChars(t, output) == ReadChars(rest, output + [DenoteChar(c)])
  {
    if t[0] != '\\' {
      c, rest := Plain(t[0]), t[1..];
    } else if ShortEscape(t[1]).Some? {
      c, rest := Short(t[1]), t[2..];
    } else {
      c := UnicodeSound(t[2..]);
      rest := ReadUnicode(t[2..]).1;
      assert t == "\\u" + t[2..];
    }
  }

  lemma {:induction false} CharsSound(t: string, output: string) returns (cs: seq<CharText>)
    requires ReadChars(t, output).0.Ok?
    ensures StrictChars(cs) && t == SpellChars(cs) + ("\"" + ReadChars(t, output).1)
    ensures ReadChars(t, output).0.value == output + DenoteChars(cs)
    decreases |t|
  {
    if t[0] == '"' {
      cs := [];
      assert output + "" == output;
    } else {
      var c, rest := CharSound(t, output);
      var more := CharsSound(rest, output + [DenoteChar(c)]);
      cs := [c] + more;
      CharsGlue(c, more, output, "\"" + ReadChars(t, output).1);
    }
  }

  lemma CharsGlue(c: CharText, more: seq<CharText>, output: string, post: string)
    requires StrictChar(c) && StrictChars(more)
    ensures StrictChars([c] + more)
    ensures SpellChar(c) + (SpellChars(more) + post) == SpellChars([c] + more) + post
    ensures output + [DenoteChar(c)] + DenoteChars(more) == output + DenoteChars([c] + more)
  {
    assert ([c] + more)[1..] == more;
  }

  lemma StringSound(t: string) returns (cs: seq<CharText>)
    requires ReadString(t).0.Ok?
    ensures StrictChars(cs) && t == Quoted(cs) + ReadString(t).1
    ensures ReadString(t).0.value == DenoteChars(cs)
  {
    cs := CharsSound(t[1..], "");
    assert t == "\"" + t[1..];
  }

  lemma DigitsSound(t: string) returns (w: string)
    requires StartsWithDigit(t)
    ensures Digits(w) && w[0] == t[0] && t == w + SkipDigits(t[1..])
  {
    w := SkipDigitsSplits(t[1..]);
    w := [t[0]] + w;
  }

  lemma WholeSound(t: string) returns (w: string)
    requires ReadWhole(t).0.Ok?
    ensures Digits(w) && (w[0] == '0' ==> |w| == 1) && t == w + ReadWhole(t).1
  {
    if t[0] == '0' { w := "0"; } else { w := DigitsSound(t); }
  }

  lemma FractionSound(t: string) returns (f: Option<string>)
    requires ReadFraction(t).0.Ok?
    ensures (f.Some? ==> Digits(f.value)) && t == SpellFraction(f) + ReadFraction(t).1
  {
    f := None;
    if Peek(t) == Some('.') {
      var w := DigitsSound(t[1..]);
      f := Some(w);
    }
  }

  lemma SignSound(t: string) returns (sign: string)
    ensures sign in {"", "+", "-"} && t == sign + SkipSign(t)
  {
    sign := if t != "" && (t[0] == '+' || t[0] == '-') then [t[0]] else "";
  }

  lemma ExponentSound(t: string) returns (e: Option<Exponent>)
    requires ReadExponent(t).0.Ok?
    ensures StrictNumber(NumberText(false, "0", None, e)) && t == SpellExponent(e) + ReadExponent(t).1
  {
    if t == "" || (t[0] != 'e' && t[0] != 'E') {
      e := None;
      assert t == "" + t;
    } else {
      e := MarkedExponentSound(t);
    }
  }

  lemma MarkedExponentSound(t: string) returns (e: Option<Exponent>)
    requires t != "" && (t[0] == 'e' || t[0] == 'E') && ReadExponent(t).0.Ok?
    ensures StrictNumber(NumberText(false, "0", None, e)) && t == SpellExponent(e) + ReadExponent(t).1
  {
    var sign := SignSound(t[1..]);
    var digits := DigitsSound(SkipSign(t[1..]));
    e := Some(Exponent(t[0], sign, digits));
    ExponentGlue(t[0], sign, digits, ReadExponent(t).1);
  }

  lemma ExponentGlue(mark: char, sign: string, digits: string, post: string)
    ensures [mark] + (sign + (digits + post)) == SpellExponent(Some(Exponent(mark, sign, digits))) + post
  {
    Assoc([mark], sign, digits);
    Assoc([mark] + sign, digits, post);
    Assoc([mark], sign, digits + post);
  }

  lemma NumberSound(t: string) returns (n: NumberText)
    requires ReadNumber(t).0.Ok?
    ensures StrictNumber(n) && t == SpellNumber(n) + ReadNumber(t).1
    ensures ReadNumber(t).0.value == SpellNumber(n)
  {
    var t0 := SkipMinus(t);
    var whole := WholeSound(t0);
    var t1 := ReadWhole(t0).1;
    var fraction := FractionSound(t1);
    var t2 := ReadFraction(t1).1;
    var exponent := ExponentSound(t2);
    n := NumberText(Peek(t) == Some('-'), whole, fraction, exponent);
    NumberGlue(n, t, t0, t1, t2, ReadExponent(t2).1);
  }

  lemma NumberGlue(n: NumberText, t: string, t0: string, t1: string, t2: string, t3: string)
    requires t == (if n.minus then "-" else "") + t0
    requires t0 == n.whole + t1 && t1 == SpellFraction(n.fraction) + t2 && t2 == SpellExponent(n.exponent) + t3
    ensures t == SpellNumber(n) + t3 && |t3| <= |t| && t[..|t| - |t3|] == SpellNumber(n)
  {
    assert t0 == n.whole + (SpellFraction(n.fraction) + SpellExponent(n.exponent)) + t3;
  }

  lemma LiteralSound(t: string, literal: string, v: JsonValue)
    requires ReadLiteral(t, literal, v).0.Ok?
    ensures t == literal + ReadLiteral(t, literal, v).1
  {
  }

  lemma {:induction false} ValueSound(t0: string, depth: nat) returns (before: string, d: Syntax)
    requires ReadValue(t0, depth).0.Ok?
    ensures Spaces(before) && Strict(d, depth) && t0 == before + (Spell(d) + ReadValue(t0, depth).1)
    ensures ReadValue(t0, depth).0.value == Denote(d, depth)
    decreases |t0|, 2
  {
    before := SkipSpacesSplits(t0);
    var t := SkipSpaces(t0);
    ReadValueSkips(before, t, depth);
    Dispatch(t, depth);
    d := TrimmedSound(t, depth);
  }

  lemma {:induction false} TrimmedSound(t: string, depth: nat) returns (d: Syntax)
    requires t != "" && !IsSpace(t[0]) && depth <= MAX_DEPTH && ReadValue(t, depth).0.Ok?
    ensures Strict(d, depth) && t == Spell(d) + ReadValue(t, depth).1
    ensures ReadValue(t, depth).0.value == Denote(d, depth)
    decreases |t|, 1
  {
    Dispatch(t, depth);
    match t[0]
    case '{' => d := ObjectSound(t, depth);
    case '[' => d := ArraySound(t, depth);
    case '"' => var cs := StringSound(t); d := StrText(cs);
    case 't' => LiteralSound(t, "true", Bool(true)); d := BoolText(true);
    case 'f' => LiteralSound(t, "false", Bool(false)); d := BoolText(false);
    case 'n' => LiteralSound(t, "null", Null); d := NullText;
    case _ => var n := NumberSound(t); d := NumText(n);
  }

  lemma {:induction false} ArraySound(t: string, depth: nat) returns (d: Syntax)
    requires depth <= MAX_DEPTH && ReadArray(t, depth + 1).0.Ok?
    ensures Strict(d, depth) && t == Spell(d) + ReadArray(t, depth + 1).1
    ensures ReadArray(t, depth + 1).0.value == Denote(d, depth)
    decreases |t|, 0
  {
    var w := SkipSpacesSplits(t[1..]);
    assert t == "[" + t[1..];
    if Peek(SkipSpaces(t[1..])) == Some(']') {
      d := EmptyArrayText(w);
    } else {
      ItemsSkip(t[1..], depth + 1);
      var items := ItemsSound(t[1..], depth + 1, []);
      d := ArrayText(items);
      assert [] + DenoteItems(items, depth + 1) == DenoteItems(items, depth + 1);
    }
  }

  lemma ItemsSkip(t: string, depth: nat)
    requires ReadItems(SkipSpaces(t), depth, []).0.Ok?
    ensures ReadItems(SkipSpaces(t), depth, []) == ReadItems(t, depth, [])
  {
    SkipSpacesTwice(t);
    assert ReadValue(SkipSpaces(t), depth) == ReadValue(t, depth);
  }

  lemma {:induction false} ItemsSound(t: string, depth: nat, values: seq<JsonValue>) returns (items: Items)
    requires ReadItems(t, depth, values).0.Ok?
    ensures StrictItems(items, depth) && t == SpellItems(items) + ReadItems(t, depth, values).1
    ensures ReadItems(t, depth, values).0.value == Array(values + DenoteItems(items, depth))
    decreases |t|, 3
  {
    var before, d := ValueSound(t, depth);
    var (v, t1) := ReadValue(t, depth);
    var after := SkipSpacesSplits(t1);
    var t2 := SkipSpaces(t1);
    ItemStep(t, t1, depth, values, v.value);
    if t2[0] == ']' {
      items := LastItem(before, d, after);
      ItemGlue(items, t, t1, t2, t2[1..]);
    } else {
      var rest := ItemsSound(t2[1..], depth, values + [v.value]);
      items := NextItem(before, d, after, rest);
      ItemGlue(items, t, t1, t2, ReadItems(t, depth, values).1);
      Regroup(values, v.value, DenoteItems(rest, depth));
    }
  }

  lemma ItemGlue(items: Items, t: string, t1: string, t2: string, post: string)
    requires t == items.before + (Spell(items.v) + t1) && t1 == items.after + t2 && t2 == ItemTail(items, post)
    ensures t == SpellItems(items) + post
  {
    ItemShape(items, post);
  }

  lemma {:induction false} ObjectSound(t: string, depth: nat) returns (d: Syntax)
    requires depth <= MAX_DEPTH && ReadObject(t, depth + 1).0.Ok?
    ensures Strict(d, depth) && t == Spell(d) + ReadObject(t, depth + 1).1
    ensures ReadObject(t, depth + 1).0.value == Denote(d, depth)
    decreases |t|, 0
  {
    hide ReadMembers, StrictMembers, SpellMembers, DenoteMembers, SkipSpaces;
    var w := SkipSpacesSplits(t[1..]);
    assert t == "{" + t[1..];
    if Peek(SkipSpaces(t[1..])) == Some('}') {
      d := EmptyObjectText(w);
    } else {
      MembersSkip(t[1..], depth + 1);
      var members := MembersSound(t[1..], depth + 1, []);
      d := ObjectText(members);
      assert Keys([]) == {};
      assert [] + DenoteMembers(members, depth + 1, {}) == DenoteMembers(members, depth + 1, {});
    }
  }

  lemma MembersSkip(t: string, depth: nat)
    ensures ReadMembers(SkipSpaces(t), depth, []) == ReadMembers(t, depth, [])
  {
    SkipSpacesTwice(t);
    assert ReadKey(SkipSpaces(t), []) == ReadKey(t, []);
  }

  lemma KeySound(t: string, fields: seq<Field>)
    returns (before: string, key: seq<CharText>, beforeColon: string)
    requires ReadKey(t, fields).0.Ok?
    ensures Spaces(before) && Spaces(beforeColon) && StrictChars(key)
    ensures t == before + (Quoted(key) + (beforeColon + ":")) + ReadKey(t, fields).1
    ensures ReadKey(t, fields).0.value == DenoteChars(key) && DenoteChars(key) !in Keys(fields)
  {
    before := SkipSpacesSplits(t);
    var t0 := SkipSpaces(t);
    key := StringSound(t0);
    var t1 := ReadString(t0).1;
    beforeColon := SkipSpacesSplits(t1);
    NotTaken(fields, DenoteChars(key));
    var post := SkipSpaces(t1)[1..];
    assert ReadKey(t, fields) == (Ok(DenoteChars(key)), post);
    assert SkipSpaces(t1) == ":" + post;
    KeyGlue(before, Quoted(key), beforeColon, post);
  }

  lemma KeyGlue(before: string, quoted: string, beforeColon: string, post: string)
    ensures before + (quoted + (beforeColon + (":" + post))) == before + (quoted + (beforeColon + ":")) + post
  {
    Assoc(beforeColon, ":", post);
    Assoc(quoted, beforeColon + ":", post);
    Assoc(before, quoted + (beforeColon + ":"), post);
  }

  /** What members that are read begin with. */
  lemma MembersGoOn(t: string, depth: nat, fields: seq<Field>)
    requires ReadMembers(t, depth, fields).0.Ok?
    ensures var (k, t1) := ReadKey(t, fields);
            k.Ok? && var (v, t2) := ReadValue(t1, depth);
                     v.Ok? && var t3 := SkipSpaces(t2);
                              && t3 != "" && (t3[0] == '}' || t3[0] == ',')
                              && (t3[0] == ',' ==>
                                    ReadMembers(t3[1..], depth, fields + [Field(k.value, v.value)]).0.Ok?)
  {
    hide ReadKey, ReadValue, SkipSpaces;
  }

  lemma {:induction false} MembersSound(t: string, depth: nat, fields: seq<Field>) returns (members: Members)
    requires ReadMembers(t, depth, fields).0.Ok?
    ensures StrictMembers(members, depth, Keys(fields))
    ensures t == SpellMembers(members) + ReadMembers(t, depth, fields).1
    ensures ReadMembers(t, depth, fields).0.value == Object(fields + DenoteMembers(members, depth, Keys(fields)))
    decreases |t|, 3
  {
    hide ReadKey, ReadValue, ReadMembers, Spell, Quoted, Keys;
    MembersGoOn(t, depth, fields);
    var before, key, beforeColon := KeySound(t, fields);
    var (k, t1) := ReadKey(t, fields);
    var afterColon, d := ValueSound(t1, depth);
    var (v, t2) := ReadValue(t1, depth);
    var after := SkipSpacesSplits(t2);
    var t3 := SkipSpaces(t2);
    var field := Field(k.value, v.value);
    MemberStep(t, t1, t2, depth, fields, field);
    if t3[0] == '}' {
      members := LastMember(before, key, beforeColon, afterColon, d, after);
      MemberGlue(members, t, t1, t2, t3, t3[1..]);
    } else {
      KeysGrow(fields, field);
      var rest := MembersSound(t3[1..], depth, fields + [field]);
      members := NextMember(before, key, beforeColon, afterColon, d, after, rest);
      MemberGlue(members, t, t1, t2, t3, ReadMembers(t, depth, fields).1);
      Regroup(fields, field, DenoteMembers(rest, depth, Keys(fields + [field])));
    }
  }

  lemma MemberGlue(members: Members, t: string, t1: string, t2: string, t3: string, post: string)
    requires t == SpellKey(members) + t1 && t1 == members.afterColon + (Spell(members.v) + t2)
    requires t2 == members.after + t3 && t3 == MemberTail(members, post)
    ensures t == SpellMembers(members) + post
  {
    MemberShape(members, post);
  }

  /** The parser accepts exactly the strict JSON texts, with the value they denote, and reads them whole. */
  lemma ParserIsGrammar(s: string, v: JsonValue)
    ensures ResultOf(s) == Parsed(v) <==> IsJsonText(s, v)
  {
    if IsJsonText(s, v) {
      TextComplete(s, v);
    }
    if ResultOf(s) == Parsed(v) {
      TextSound(s, v);
    }
  }

  lemma TextSound(s: string, v: JsonValue)
    requires ReadText(s).0 == Ok(v)
    ensures IsJsonText(s, v)
  {
    var before := SkipSpacesSplits(s);
    var t := SkipSpaces(s);
    var w, d := ValueSound(t, 0);
    var t1 := ReadValue(t, 0).1;
    var after := SkipSpacesSplits(t1);
    assert after + "" == after;
    Assoc(before, w, Spell(d) + after);
    assert SpellsAs(s, v, before + w, d, after);
  }

  /** A text has at most one value, whatever tree of the grammar it is spelt by. */
  lemma ValueUnique(s: string, v: JsonValue, w: JsonValue)
    requires IsJsonText(s, v) && IsJsonText(s, w)
    ensures v == w
  {
    ParserIsGrammar(s, v);
    ParserIsGrammar(s, w);
  }
}
