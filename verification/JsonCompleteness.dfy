/** Every strict text of the grammar is read, whole, as the value it denotes. */
module JsonCompleteness {
  import opened Text
  import opened JsonGrammar
  import opened JsonReading

  /** What may follow a value: nothing, white space, or a delimiter. */
  predicate Closes(post: string) {
    post == "" || IsSpace(post[0]) || post[0] == ',' || post[0] == ']' || post[0] == '}'
  }

  lemma {:induction false} SkipSpacesAll(w: string, post: string)
    requires Spaces(w) && (post == "" || !IsSpace(post[0]))
    ensures SkipSpaces(w + post) == post
  {
    if w == "" {
      assert w + post == post;
    } else {
      assert (w + post)[1..] == w[1..] + post;
      SkipSpacesAll(w[1..], post);
    }
  }

  lemma {:induction false} SkipDigitsAll(w: string, post: string)
    requires forall i :: 0 <= i < |w| ==> IsDigit(w[i])
    requires !StartsWithDigit(post)
    ensures SkipDigits(w + post) == post
  {
    if w == "" {
      assert w + post == post;
    } else {
      assert (w + post)[1..] == w[1..] + post;
      SkipDigitsAll(w[1..], post);
    }
  }

  lemma HexComplete(h: string, post: string)
    requires IsHex4(h)
    ensures ReadHex(h + post, 4, 0) == (Ok(HexValue(h)), post)
  {
    var t := h + post;
    assert t[1..][1..] == t[2..] && t[2..][1..] == t[3..] && t[3..][1..] == t[4..] == post;
    var v1 := HexDigit(t[0]);
    var v2 := v1 * 16 + HexDigit(t[1]);
    var v3 := v2 * 16 + HexDigit(t[2]);
    assert ReadHex(t, 4, 0) == ReadHex(t[1..], 3, v1);
    assert ReadHex(t[1..], 3, v1) == ReadHex(t[2..], 2, v2);
    assert ReadHex(t[2..], 2, v2) == ReadHex(t[3..], 1, v3);
    assert ReadHex(t[3..], 1, v3) == ReadHex(t[4..], 0, HexValue(h));
  }

  lemma UnicodeComplete(c: CharText, post: string)
    requires StrictChar(c) && (c.Unit? || c.Pair?)
    ensures ReadUnicode(SpellChar(c)[2..] + post) == (Ok(DenoteChar(c)), post)
  {
    match c
    case Unit(h) =>
      assert SpellChar(c)[2..] + post == h + post;
      HexComplete(h, post);
    case Pair(high, low) =>
      var t1 := "\\u" + (low + post);
      assert SpellChar(c)[2..] + post == high + t1;
      HexComplete(high, t1);
      assert t1[1..][0] == 'u' && t1[2..] == low + post;
      HexComplete(low, post);
  }

  lemma CharComplete(c: CharText, post: string, output: string)
    requires StrictChar(c)
    ensures ReadChars(SpellChar(c) + post, output) == ReadChars(post, output + [DenoteChar(c)])
  {
    var t := SpellChar(c) + post;
    if c.Plain? {
      assert t[1..] == post;
    } else if c.Short? {
      assert t[2..] == post;
    } else {
      assert t[2..] == SpellChar(c)[2..] + post;
      UnicodeComplete(c, post);
    }
  }

  lemma {:induction false} CharsComplete(cs: seq<CharText>, post: string, output: string)
    requires StrictChars(cs)
    ensures ReadChars(SpellChars(cs) + ("\"" + post), output) == (Ok(output + DenoteChars(cs)), post)
    decreases |cs|
  {
    var rest := "\"" + post;
    if cs == [] {
      assert SpellChars(cs) + rest == rest && rest[1..] == post && output + "" == output;
    } else {
      var next := output + [DenoteChar(cs[0])];
      assert SpellChars(cs) + rest == SpellChar(cs[0]) + (SpellChars(cs[1..]) + rest);
      CharComplete(cs[0], SpellChars(cs[1..]) + rest, output);
      CharsComplete(cs[1..], post, next);
      assert next + DenoteChars(cs[1..]) == output + DenoteChars(cs);
    }
  }

  lemma StringComplete(cs: seq<CharText>, post: string)
    requires StrictChars(cs)
    ensures ReadString(Quoted(cs) + post) == (Ok(DenoteChars(cs)), post)
  {
    var t := Quoted(cs) + post;
    assert t[1..] == SpellChars(cs) + ("\"" + post);
    CharsComplete(cs, post, "");
    assert "" + DenoteChars(cs) == DenoteChars(cs);
  }

  lemma DigitsComplete(w: string, post: string)
    requires Digits(w) && !StartsWithDigit(post)
    ensures StartsWithDigit(w + post) && SkipDigits((w + post)[1..]) == post
  {
    assert (w + post)[1..] == w[1..] + post;
    SkipDigitsAll(w[1..], post);
  }

  lemma WholeComplete(w: string, post: string)
    requires Digits(w) && (w[0] == '0' ==> |w| == 1) && !StartsWithDigit(post)
    ensures ReadWhole(w + post) == (Ok(()), post)
  {
    DigitsComplete(w, post);
    if w[0] == '0' { assert (w + post)[1..] == post; }
  }

  lemma FractionComplete(f: Option<string>, post: string)
    requires f.Some? ==> Digits(f.value)
    requires !StartsWithDigit(post) && Peek(post) != Some('.')
    ensures ReadFraction(SpellFraction(f) + post) == (Ok(()), post)
  {
    if f.Some? {
      assert (SpellFraction(f) + post)[1..] == f.value + post;
      DigitsComplete(f.value, post);
    } else {
      assert SpellFraction(f) + post == post;
    }
  }

  lemma ExponentComplete(n: NumberText, post: string)
    requires StrictNumber(n) && Closes(post)
    ensures ReadExponent(SpellExponent(n.exponent) + post) == (Ok(()), post)
  {
    hide SkipSign, SkipDigits;
    var t := SpellExponent(n.exponent) + post;
    if n.exponent.Some? {
      var e := n.exponent.value;
      assert t[0] == e.mark && t[1..] == e.sign + (e.digits + post);
      SignComplete(e.sign, e.digits, post);
      DigitsFollow(e.digits, post);
    } else {
      assert t == post;
    }
  }

  lemma SignComplete(sign: string, digits: string, post: string)
    requires sign in {"", "+", "-"} && Digits(digits)
    ensures SkipSign(sign + (digits + post)) == digits + post
  {
    var t := sign + (digits + post);
    if sign == "" {
      assert t == digits + post;
      assert t[0] == digits[0];
    } else {
      assert t[0] == sign[0] && t[1..] == digits + post;
    }
  }

  lemma DigitsFollow(digits: string, post: string)
    requires Digits(digits) && !StartsWithDigit(post)
    ensures StartsWithDigit(digits + post) && SkipDigits(digits + post) == post
  {
    SkipDigitsAll(digits, post);
    assert (digits + post)[0] == digits[0];
  }

  lemma PartsComplete(n: NumberText, post: string)
    requires StrictNumber(n) && Closes(post)
    ensures ReadNumberParts(n.whole + (SpellFraction(n.fraction) + (SpellExponent(n.exponent) + post)))
            == (Ok(()), post)
  {
    var tail := SpellExponent(n.exponent) + post;
    ExponentComplete(n, post);
    FractionComplete(n.fraction, tail);
    WholeComplete(n.whole, SpellFraction(n.fraction) + tail);
  }

  lemma NumberComplete(n: NumberText, post: string)
    requires StrictNumber(n) && Closes(post)
    ensures ReadNumber(SpellNumber(n) + post) == (Ok(SpellNumber(n)), post)
    ensures SpellNumber(n) != "" && (SpellNumber(n)[0] == '-' || IsDigit(SpellNumber(n)[0]))
  {
    hide SpellFraction, SpellExponent, ReadNumberParts;
    var t := SpellNumber(n) + post;
    MinusComplete(n, post);
    PartsComplete(n, post);
    assert t[..|t| - |post|] == SpellNumber(n);
  }

  lemma MinusComplete(n: NumberText, post: string)
    requires StrictNumber(n)
    ensures SkipMinus(SpellNumber(n) + post)
            == n.whole + (SpellFraction(n.fraction) + (SpellExponent(n.exponent) + post))
    ensures SpellNumber(n) != "" && (SpellNumber(n)[0] == '-' || IsDigit(SpellNumber(n)[0]))
  {
    hide SpellFraction, SpellExponent;
    var t := SpellNumber(n) + post;
    var body := n.whole + (SpellFraction(n.fraction) + (SpellExponent(n.exponent) + post));
    if n.minus {
      assert t == "-" + body;
      assert t[1..] == body;
    } else {
      assert t == body;
      assert t[0] == n.whole[0];
    }
  }

  lemma SpellStart(d: Syntax, depth: nat)
    requires Strict(d, depth)
    ensures Spell(d) != "" && !IsSpace(Spell(d)[0]) && !Closes(Spell(d))
  {
    if d.NumText? { NumberComplete(d.n, ""); }
  }

  /** The first character of a value decides which rule reads it. */
  lemma Dispatch(t: string, depth: nat)
    requires t != "" && !IsSpace(t[0]) && depth <= MAX_DEPTH
    ensures t[0] == '{' ==> ReadValue(t, depth) == ReadObject(t, depth + 1)
    ensures t[0] == '[' ==> ReadValue(t, depth) == ReadArray(t, depth + 1)
    ensures t[0] == '"' ==> ReadValue(t, depth) == (Lift(ReadString(t).0, x => String(x)), ReadString(t).1)
    ensures t[0] == 't' ==> ReadValue(t, depth) == ReadLiteral(t, "true", Bool(true))
    ensures t[0] == 'f' ==> ReadValue(t, depth) == ReadLiteral(t, "false", Bool(false))
    ensures t[0] == 'n' ==> ReadValue(t, depth) == ReadLiteral(t, "null", Null)
    ensures t[0] == '-' || IsDigit(t[0]) ==>
              ReadValue(t, depth) == (Lift(ReadNumber(t).0, x => Number(x)), ReadNumber(t).1)
  {
    assert SkipSpaces(t) == t;
  }

  lemma LiteralComplete(literal: string, v: JsonValue, post: string)
    ensures ReadLiteral(literal + post, literal, v) == (Ok(v), post)
  {
    assert literal <= literal + post && (literal + post)[|literal|..] == post;
  }

  lemma EmptyArrayComplete(inside: string, depth: nat, post: string)
    requires Spaces(inside)
    ensures ReadArray("[" + inside + "]" + post, depth) == (Ok(Array([])), post)
  {
    assert ("[" + inside + "]" + post)[1..] == inside + ("]" + post) && ("]" + post)[1..] == post;
    SkipSpacesAll(inside, "]" + post);
  }

  lemma EmptyObjectComplete(inside: string, depth: nat, post: string)
    requires Spaces(inside)
    ensures ReadObject("{" + inside + "}" + post, depth) == (Ok(Object([])), post)
  {
    assert ("{" + inside + "}" + post)[1..] == inside + ("}" + post) && ("}" + post)[1..] == post;
    SkipSpacesAll(inside, "}" + post);
  }

  lemma LeafComplete(d: Syntax, depth: nat, post: string)
    requires Strict(d, depth) && Closes(post)
    requires !d.ArrayText? && !d.ObjectText?
    ensures ReadValue(Spell(d) + post, depth) == (Ok(Denote(d, depth)), post)
  {
    SpellStart(d, depth);
    Dispatch(Spell(d) + post, depth);
    match d
    case NullText => LiteralComplete("null", Null, post);
    case BoolText(flag) => LiteralComplete(if flag then "true" else "false", Bool(flag), post);
    case NumText(n) => NumberComplete(n, post);
    case StrText(cs) => StringComplete(cs, post);
    case EmptyArrayText(inside) => EmptyArrayComplete(inside, depth + 1, post);
    case EmptyObjectText(inside) => EmptyObjectComplete(inside, depth + 1, post);
  }

  /** A value may be read with the white space before it, which the parser skips first. */
  lemma ReadValueSkips(before: string, t: string, depth: nat)
    requires Spaces(before) && t != "" && !IsSpace(t[0]) && depth <= MAX_DEPTH
    ensures ReadValue(before + t, depth) == ReadValue(t, depth)
  {
    SkipSpacesAll(before, t);
    SkipSpacesAll("", t);
    assert "" + t == t;
  }

  lemma {:induction false} SkipSpacesTwice(t: string)
    ensures SkipSpaces(SkipSpaces(t)) == SkipSpaces(t)
  {
    if t != "" && IsSpace(t[0]) { SkipSpacesTwice(t[1..]); }
  }

  lemma Assoc(a: string, b: string, c: string)
    ensures a + b + c == a + (b + c)
  {
  }

  function ItemTail(items: Items, post: string): (tail: string)
    ensures |tail| > 0
    ensures tail[1..] == if items.LastItem? then post else SpellItems(items.rest) + post
    ensures tail[0] == if items.LastItem? then ']' else ','
  {
    if items.LastItem? then "]" + post else "," + (SpellItems(items.rest) + post)
  }

  lemma ItemShape(items: Items, post: string)
    ensures SpellItems(items) + post == items.before + (Spell(items.v) + (items.after + ItemTail(items, post)))
  {
    var x := if items.LastItem? then "]" else "," + SpellItems(items.rest);
    assert x + post == ItemTail(items, post);
    Assoc(items.after, x, post);
    Assoc(Spell(items.v), items.after + x, post);
    Assoc(items.before, Spell(items.v) + (items.after + x), post);
  }

  lemma {:induction false} ValueComplete(before: string, d: Syntax, depth: nat, post: string)
    requires Spaces(before) && Strict(d, depth) && Closes(post)
    ensures ReadValue(before + (Spell(d) + post), depth) == (Ok(Denote(d, depth)), post)
    decreases d, 2
  {
    SpellStart(d, depth);
    ReadValueSkips(before, Spell(d) + post, depth);
    if d.ArrayText? {
      Assoc("[", SpellItems(d.items), post);
      Dispatch(Spell(d) + post, depth);
      ArrayComplete(d.items, depth + 1, post);
    } else if d.ObjectText? {
      Assoc("{", SpellMembers(d.members), post);
      Dispatch(Spell(d) + post, depth);
      ObjectComplete(d.members, depth + 1, post);
    } else {
      LeafComplete(d, depth, post);
    }
  }

  lemma {:induction false} ArrayComplete(items: Items, depth: nat, post: string)
    requires StrictItems(items, depth)
    ensures ReadArray("[" + (SpellItems(items) + post), depth) == (Ok(Array(DenoteItems(items, depth))), post)
    decreases items, 4
  {
    var inner := SpellItems(items) + post;
    var head := Spell(items.v) + (items.after + ItemTail(items, post));
    assert ("[" + inner)[1..] == inner;
    ItemShape(items, post);
    SpellStart(items.v, depth);
    SkipSpacesAll(items.before, head);
    ReadValueSkips(items.before, head, depth);
    ItemsComplete(items, depth, post, []);
    assert ReadItems(head, depth, []) == ReadItems(inner, depth, []);
    assert [] + DenoteItems(items, depth) == DenoteItems(items, depth);
  }

  lemma ItemStep(t: string, t1: string, depth: nat, values: seq<JsonValue>, v: JsonValue)
    requires ReadValue(t, depth) == (Ok(v), t1)
    ensures Peek(SkipSpaces(t1)) == Some(']') ==>
              ReadItems(t, depth, values) == (Ok(Array(values + [v])), SkipSpaces(t1)[1..])
    ensures Peek(SkipSpaces(t1)) == Some(',') ==>
              ReadItems(t, depth, values) == ReadItems(SkipSpaces(t1)[1..], depth, values + [v])
  {
  }

  lemma {:induction false} ItemComplete(items: Items, depth: nat, post: string, values: seq<JsonValue>)
    requires StrictItems(items, depth)
    ensures ReadItems(SpellItems(items) + post, depth, values)
         == if items.LastItem? then (Ok(Array(values + [Denote(items.v, depth)])), post)
            else ReadItems(SpellItems(items.rest) + post, depth, values + [Denote(items.v, depth)])
    decreases items, 2
  {
    var tail := ItemTail(items, post);
    ItemShape(items, post);
    ValueComplete(items.before, items.v, depth, items.after + tail);
    SkipSpacesAll(items.after, tail);
    ItemStep(SpellItems(items) + post, items.after + tail, depth, values, Denote(items.v, depth));
  }

  lemma {:induction false} ItemsComplete(items: Items, depth: nat, post: string, values: seq<JsonValue>)
    requires StrictItems(items, depth)
    ensures ReadItems(SpellItems(items) + post, depth, values) == (Ok(Array(values + DenoteItems(items, depth))), post)
    decreases items, 3
  {
    var v := Denote(items.v, depth);
    ItemComplete(items, depth, post, values);
    if items.NextItem? {
      ItemsComplete(items.rest, depth, post, values + [v]);
      Regroup(values, v, DenoteItems(items.rest, depth));
    } else {
      assert DenoteItems(items, depth) == [v];
    }
  }

  lemma KeyComplete(members: Members, depth: nat, fields: seq<Field>, taken: set<string>, post: string)
    requires StrictMembers(members, depth, taken) && taken == Keys(fields)
    ensures ReadKey(SpellKey(members) + post, fields) == (Ok(DenoteChars(members.key)), post)
    ensures Peek(SkipSpaces(SpellKey(members) + post)) == Some('"')
  {
    var t3 := ":" + post;
    var t2 := members.beforeColon + t3;
    var t1 := Quoted(members.key) + t2;
    assert SpellKey(members) + post == members.before + t1;
    SkipSpacesAll(members.before, t1);
    StringComplete(members.key, t2);
    SkipSpacesAll(members.beforeColon, t3);
    assert t3[1..] == post;
    NotTaken(fields, DenoteChars(members.key));
  }

  lemma NotTaken(fields: seq<Field>, key: string)
    ensures HasKey(fields, key) <==> key in Keys(fields)
  {
  }

  ghost function Keys(fields: seq<Field>): set<string> {
    set i | 0 <= i < |fields| :: fields[i].name
  }

  lemma KeysGrow(fields: seq<Field>, field: Field)
    ensures Keys(fields + [field]) == Keys(fields) + {field.name}
  {
    var more := fields + [field];
    assert more[|fields|] == field;
    assert forall i :: 0 <= i < |fields| ==> more[i] == fields[i];
  }

  lemma {:induction false} ObjectComplete(members: Members, depth: nat, post: string)
    requires StrictMembers(members, depth, {})
    ensures ReadObject("{" + (SpellMembers(members) + post), depth)
            == (Ok(Object(DenoteMembers(members, depth, {}))), post)
    decreases members, 4
  {
    var inner := SpellMembers(members) + post;
    assert ("{" + inner)[1..] == inner;
    MemberShape(members, post);
    KeyComplete(members, depth, [], {},
                members.afterColon + (Spell(members.v) + (members.after + MemberTail(members, post))));
    SkipSpacesTwice(inner);
    MembersComplete(members, depth, post, [], {});
    assert ReadMembers(SkipSpaces(inner), depth, []) == ReadMembers(inner, depth, []);
    assert [] + DenoteMembers(members, depth, {}) == DenoteMembers(members, depth, {});
  }

  lemma MemberStep(t: string, t1: string, t2: string, depth: nat, fields: seq<Field>, field: Field)
    requires ReadKey(t, fields) == (Ok(field.name), t1)
    requires ReadValue(t1, depth) == (Ok(field.value), t2)
    ensures Peek(SkipSpaces(t2)) == Some('}') ==>
              ReadMembers(t, depth, fields) == (Ok(Object(fields + [field])), SkipSpaces(t2)[1..])
    ensures Peek(SkipSpaces(t2)) == Some(',') ==>
              ReadMembers(t, depth, fields) == ReadMembers(SkipSpaces(t2)[1..], depth, fields + [field])
  {
  }

  lemma Regroup<T>(a: seq<T>, x: T, b: seq<T>)
    ensures a + [x] + b == a + ([x] + b)
  {
  }

  function FirstField(members: Members, depth: nat, taken: set<string>): Field
    requires StrictMembers(members, depth, taken)
  {
    Field(DenoteChars(members.key), Denote(members.v, depth))
  }

  lemma {:induction false} MembersComplete(
    members: Members, depth: nat, post: string, fields: seq<Field>, taken: set<string>)
    requires StrictMembers(members, depth, taken) && taken == Keys(fields)
    ensures ReadMembers(SpellMembers(members) + post, depth, fields)
         == (Ok(Object(fields + DenoteMembers(members, depth, taken))), post)
    decreases members, 3
  {
    var field := FirstField(members, depth, taken);
    MemberComplete(members, depth, post, fields, taken);
    if members.NextMember? {
      KeysGrow(fields, field);
      MembersComplete(members.rest, depth, post, fields + [field], taken + {field.name});
      var more := DenoteMembers(members.rest, depth, taken + {field.name});
      assert DenoteMembers(members, depth, taken) == [field] + more;
      Regroup(fields, field, more);
    } else {
      assert fields + [field] == fields + DenoteMembers(members, depth, taken);
    }
  }

  lemma {:induction false} MemberComplete(
    members: Members, depth: nat, post: string, fields: seq<Field>, taken: set<string>)
    requires StrictMembers(members, depth, taken) && taken == Keys(fields)
    ensures ReadMembers(SpellMembers(members) + post, depth, fields)
         == if members.LastMember? then (Ok(Object(fields + [FirstField(members, depth, taken)])), post)
            else ReadMembers(SpellMembers(members.rest) + post, depth, fields + [FirstField(members, depth, taken)])
    decreases members, 2
  {
    var tail := MemberTail(members, post);
    var afterValue := members.after + tail;
    var afterKey := members.afterColon + (Spell(members.v) + afterValue);
    MemberShape(members, post);
    KeyComplete(members, depth, fields, taken, afterKey);
    ValueComplete(members.afterColon, members.v, depth, afterValue);
    SkipSpacesAll(members.after, tail);
    MemberStep(SpellMembers(members) + post, afterKey, afterValue, depth, fields, FirstField(members, depth, taken));
  }

  function MemberTail(members: Members, post: string): (tail: string)
    ensures |tail| > 0
    ensures tail[1..] == if members.LastMember? then post else SpellMembers(members.rest) + post
    ensures tail[0] == if members.LastMember? then '}' else ','
  {
    if members.LastMember? then "}" + post else "," + (SpellMembers(members.rest) + post)
  }

  lemma MemberShape(members: Members, post: string)
    ensures SpellMembers(members) + post
         == SpellKey(members) + (members.afterColon + (Spell(members.v) + (members.after + MemberTail(members, post))))
  {
    var x := if members.LastMember? then "}" else "," + SpellMembers(members.rest);
    assert x + post == MemberTail(members, post);
    Assoc(members.after, x, post);
    Assoc(Spell(members.v), members.after + x, post);
    Assoc(members.afterColon, Spell(members.v) + (members.after + x), post);
    Assoc(SpellKey(members), members.afterColon + (Spell(members.v) + (members.after + x)), post);
  }

  /** The accepting half of the parser's contract. */
  lemma TextComplete(s: string, v: JsonValue)
    requires IsJsonText(s, v)
    ensures ReadText(s) == (Ok(v), "")
  {
    var before, d, after :| SpellsAs(s, v, before, d, after);
    SpellStart(d, 0);
    SkipSpacesAll(before, Spell(d) + after);
    ValueComplete("", d, 0, after);
    assert "" + (Spell(d) + after) == Spell(d) + after;
    SkipSpacesAll(after, "");
    assert after + "" == after;
  }
}
