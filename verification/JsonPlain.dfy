/** The parser's own alphabet, in tables: what a lone character, an escape or a level of nesting is read as. */
module JsonPlain {
  import opened Text
  import opened JsonGrammar
  import opened JsonReading
  import opened JsonParser
  import opened JsonCompleteness
  import opened JsonSoundness

  const LOWER_DIGITS := "0123456789abcdef"
  const UPPER_DIGITS := "0123456789ABCDEF"

  /** Both tables of hexadecimal digits read as their places. */
  lemma DigitReads(n: nat)
    requires n < 16
    ensures IsHex(LOWER_DIGITS[n]) && HexDigit(LOWER_DIGITS[n]) == n
    ensures IsHex(UPPER_DIGITS[n]) && HexDigit(UPPER_DIGITS[n]) == n
  {
  }

  /** Nothing else is a hexadecimal digit. */
  lemma DigitsOnly(c: char)
    ensures IsHex(c) <==> c in LOWER_DIGITS || c in UPPER_DIGITS
  {
    if IsHex(c) {
      var n := HexDigit(c);
      assert c == LOWER_DIGITS[n] || c == UPPER_DIGITS[n];
    }
    if c in LOWER_DIGITS || c in UPPER_DIGITS {
      var n :| 0 <= n < 16 && (c == LOWER_DIGITS[n] || c == UPPER_DIGITS[n]);
      DigitReads(n);
    }
  }

  /** The character is the digit `n`, in either case. */
  predicate IsDigitFor(c: char, n: nat) {
    n < 16 && (c == LOWER_DIGITS[n] || c == UPPER_DIGITS[n])
  }

  /** The four characters are the digits of `n`, each in either case. */
  predicate SpellsHex(h: string, n: nat) {
    && |h| == 4 && n < 0x1_0000
    && IsDigitFor(h[0], n / 0x1000) && IsDigitFor(h[1], n / 0x100 % 0x10) && IsDigitFor(h[2], n / 0x10 % 0x10)
    && IsDigitFor(h[3], n % 0x10)
  }

  lemma Places(n: nat)
    requires n < 0x1_0000
    ensures n == ((n / 0x1000 * 16 + n / 0x100 % 0x10) * 16 + n / 0x10 % 0x10) * 16 + n % 0x10
  {
    assert n / 0x100 == n / 0x1000 * 16 + n / 0x100 % 0x10;
    assert n / 0x10 == n / 0x100 * 16 + n / 0x10 % 0x10;
  }

  lemma HexMeans(h: string, n: nat)
    requires SpellsHex(h, n)
    ensures IsHex4(h) && HexValue(h) == n
  {
    hide IsHex, HexDigit;
    Places(n);
    DigitReads(n / 0x1000);
    DigitReads(n / 0x100 % 0x10);
    DigitReads(n / 0x10 % 0x10);
    DigitReads(n % 0x10);
  }

  /** A quoted string of one character of the grammar. */
  lemma OneCharacter(t: CharText)
    requires StrictChar(t)
    ensures ResultOf("\"" + SpellChar(t) + "\"") == Parsed(String([DenoteChar(t)]))
  {
    hide StrictChar, SpellChar, DenoteChar, ResultOf;
    var d := StrText([t]);
    assert SpellChars([t]) == SpellChar(t) by { assert SpellChars([t][1..]) == ""; }
    assert DenoteChars([t]) == [DenoteChar(t)] by { assert DenoteChars([t][1..]) == ""; }
    var s := "\"" + SpellChar(t) + "\"";
    assert SpellsAs(s, String([DenoteChar(t)]), "", d, "") by { assert s == "" + (s + ""); }
    ParserIsGrammar(s, String([DenoteChar(t)]));
  }

  /** `\u` and the four digits of any scalar value of the basic plane read as that character. */
  lemma UnitReads(h: string, n: nat)
    requires SpellsHex(h, n) && !(0xD800 <= n < 0xE000)
    ensures ResultOf("\"\\u" + h + "\"") == Parsed(String([n as char]))
  {
    hide ResultOf;
    HexMeans(h, n);
    OneCharacter(Unit(h));
    assert "\"\\u" + h + "\"" == "\"" + ("\\u" + h) + "\"";
  }

  /** Every character above the basic plane is read from its pair of surrogates. */
  lemma PairReads(high: string, low: string, c: char)
    requires c >= '\U{10000}'
    requires SpellsHex(high, 0xD800 + (c as int - 0x1_0000) / 0x400)
    requires SpellsHex(low, 0xDC00 + (c as int - 0x1_0000) % 0x400)
    ensures ResultOf("\"\\u" + high + "\\u" + low + "\"") == Parsed(String([c]))
  {
    hide ResultOf, SpellsHex, IsHex4, HexValue;
    var m := c as int - 0x1_0000;
    var t := Pair(high, low);
    HexMeans(high, 0xD800 + m / 0x400);
    HexMeans(low, 0xDC00 + m % 0x400);
    assert m / 0x400 < 0x400 && m == m / 0x400 * 0x400 + m % 0x400;
    OneCharacter(t);
    assert DenoteChar(t) as int == c as int;
    assert "\"\\u" + high + "\\u" + low + "\"" == "\"" + ("\\u" + high + "\\u" + low) + "\"";
  }

  const ESCAPES := "\"\\/bfnrt"
  const ESCAPED := "\"\\/\U{08}\U{0C}\n\r\t"

  /** A text that starts with a quotation mark is one string, and nothing but white space behind it. */
  lemma QuotedText(x: string)
    ensures var (o, rest) := ReadChars(x, "");
            && (o.Ok? && SkipSpaces(rest) == "" ==> ResultOf("\"" + x) == Parsed(String(o.value)))
            && (o.Err? || SkipSpaces(rest) != "" ==> ResultOf("\"" + x).Rejected?)
  {
    hide ReadChars, ReadValue;
    var t := "\"" + x;
    assert t[1..] == x;
    Dispatch(t, 0);
  }

  /** The eight short escapes stand for these characters, and no other letter but `u` stands for one. */
  lemma ShortReads(letter: char)
    ensures forall k :: 0 <= k < 8 && letter == ESCAPES[k] ==>
              ResultOf("\"\\" + [letter] + "\"") == Parsed(String([ESCAPED[k]]))
    ensures letter !in ESCAPES ==> ResultOf("\"\\" + [letter] + "\"").Rejected?
  {
    hide ResultOf;
    if letter in ESCAPES {
      forall k | 0 <= k < 8 && letter == ESCAPES[k]
        ensures ResultOf("\"\\" + [letter] + "\"") == Parsed(String([ESCAPED[k]]))
      {
        OneCharacter(Short(letter));
        assert "\"\\" + [letter] + "\"" == "\"" + ['\\', letter] + "\"";
      }
    } else {
      var x := ['\\', letter, '"'];
      QuotedText(x);
      assert x[2..] == "\"";
      assert "\"\\" + [letter] + "\"" == "\"" + x;
    }
  }

  /** Half a pair of surrogates is not a character. */
  lemma HalfPairRejected(h: string, n: nat)
    requires SpellsHex(h, n) && 0xD800 <= n < 0xE000
    ensures ResultOf("\"\\u" + h + "\"").Rejected?
  {
    hide ResultOf, ReadHex;
    HexMeans(h, n);
    var x := "\\u" + (h + "\"");
    HexComplete(h, "\"");
    assert x[2..] == h + "\"";
    QuotedText(x);
    assert "\"\\u" + h + "\"" == "\"" + x;
  }

  /** Unescaped, a character stands for itself unless it is a quotation mark, a reverse solidus or a control: U+0000 to
      U+001F and U+007F to U+009F. */
  lemma PlainReads(c: char)
    ensures var n := c as int;
            if c == '"' || c == '\\' || n <= 0x1F || 0x7F <= n <= 0x9F
            then ResultOf("\"" + [c] + "\"").Rejected?
            else ResultOf("\"" + [c] + "\"") == Parsed(String([c]))
  {
    hide ResultOf;
    var x := [c, '"'];
    assert "\"" + [c] + "\"" == "\"" + x;
    if StrictChar(Plain(c)) {
      OneCharacter(Plain(c));
    } else {
      assert x[1..] == "\"" && x[1..][1..] == "";
      QuotedText(x);
    }
  }

  /** Four characters are white space between tokens, and no others. */
  lemma SpaceReads(c: char)
    ensures c in " \t\n\r" <==> ResultOf([c] + "null") == Parsed(Null)
  {
    hide ResultOf;
    var t := [c] + "null";
    assert t[1..] == "null";
    if IsSpace(c) {
      assert SpellsAs(t, Null, [c], NullText, "") by { assert t == [c] + ("null" + ""); }
      ParserIsGrammar(t, Null);
    } else if ResultOf(t) == Parsed(Null) {
      ParserIsGrammar(t, Null);
      NotNull(t);
    }
  }

  lemma NothingBefore(before: string, rest: string)
    requires Spaces(before) && before + rest != "" && !IsSpace((before + rest)[0])
    ensures before == ""
  {
    if before != "" { SpaceInFront(before, rest); }
  }

  lemma SpaceInFront(before: string, rest: string)
    requires Spaces(before) && before != ""
    ensures IsSpace((before + rest)[0])
  {
    assert (before + rest)[0] == before[0];
  }

  /** A text denotes null only if it is `null` in white space. */
  lemma NotNull(t: string)
    requires IsJsonText(t, Null) && t != "" && !IsSpace(t[0])
    ensures t[0] == 'n' && |t| >= 4 && t[..4] == "null"
  {
    var before, d, after :| SpellsAs(t, Null, before, d, after);
    assert d == NullText;
    NothingBefore(before, Spell(d) + after);
    assert t == "null" + after;
  }

  lemma DigitIsNumber(c: char)
    requires IsDigit(c)
    ensures IsJsonText([c], Number([c]))
  {
    var n := NumberText(false, [c], None, None);
    assert SpellNumber(n) == [c];
    assert SpellsAs([c], Number([c]), "", NumText(n), "") by { assert [c] == "" + ([c] + ""); }
  }

  lemma NumberIsDigit(c: char)
    requires IsJsonText([c], Number([c]))
    ensures IsDigit(c)
  {
    hide IsDigit;
    var before, d, after :| SpellsAs([c], Number([c]), before, d, after);
    NumberStarts(d.n);
    assert |Spell(d)| == 1 && Spell(d) == [c];
  }

  lemma DigitListed(c: char)
    ensures c in "0123456789" <==> IsDigit(c)
  {
    if IsDigit(c) { assert c == "0123456789"[c as int - 0x30]; }
  }

  /** The ten digits are numbers by themselves, and nothing else is one of one character. */
  lemma DigitsRead(c: char)
    ensures c in "0123456789" <==> ResultOf([c]) == Parsed(Number([c]))
  {
    hide *;
    DigitListed(c);
    ParserIsGrammar([c], Number([c]));
    if IsDigit(c) { DigitIsNumber(c); }
    if IsJsonText([c], Number([c])) { NumberIsDigit(c); }
  }

  lemma NumberStarts(n: NumberText)
    requires StrictNumber(n)
    ensures SpellNumber(n) != "" && (|SpellNumber(n)| == 1 ==> IsDigit(SpellNumber(n)[0]))
  {
  }

  // ---- nesting ----

  /** A zero in `k` arrays. */
  function Nested(k: nat): string {
    if k == 0 then "0" else "[" + (Nested(k - 1) + "]")
  }

  function NestedSyntax(k: nat): (d: Syntax) {
    if k == 0 then NumText(NumberText(false, "0", None, None)) else ArrayText(LastItem("", NestedSyntax(k - 1), ""))
  }

  lemma {:induction false} NestedSpells(k: nat, depth: nat)
    ensures Spell(NestedSyntax(k)) == Nested(k)
    ensures Strict(NestedSyntax(k), depth) <==> depth + k <= 64
  {
    if k > 0 {
      NestedSpells(k - 1, depth + 1);
      assert SpellItems(LastItem("", NestedSyntax(k - 1), "")) == "" + (Nested(k - 1) + ("" + "]"));
    }
  }

  lemma {:induction false} TooDeep(k: nat, depth: nat, post: string)
    requires depth + k > 64
    ensures ReadValue(Nested(k) + post, depth).0.Err?
  {
    if depth <= 64 {
      var inner := Nested(k - 1) + ("]" + post);
      var t := Nested(k) + post;
      assert t == "[" + inner && t[1..] == inner;
      Dispatch(t, depth);
      NestedStart(k - 1, "]" + post);
      TooDeep(k - 1, depth + 1, "]" + post);
    }
  }

  lemma NestedStart(k: nat, post: string)
    ensures Nested(k) + post != "" && !IsSpace((Nested(k) + post)[0]) && (Nested(k) + post)[0] != ']'
  {
  }

  /** Sixty-four levels are read, and not one more. */
  lemma DepthExactly(k: nat)
    ensures ResultOf(Nested(k)).Parsed? <==> k <= 64
  {
    hide ReadValue;
    var s := Nested(k);
    assert s + "" == s;
    if k <= 64 {
      NestedSpells(k, 0);
      var d := NestedSyntax(k);
      assert SpellsAs(s, Denote(d, 0), "", d, "") by { assert s == "" + (s + ""); }
      ParserIsGrammar(s, Denote(d, 0));
    } else {
      NestedStart(k, "");
      TooDeep(k, 0, "");
    }
  }

  // ---- names ----

  /** No object in it, at any depth, has a name twice. */
  predicate NamesOnce(v: JsonValue)
    decreases v
  {
    match v
    case Array(items) => forall i :: 0 <= i < |items| ==> NamesOnce(items[i])
    case Object(fields) =>
      && (forall i :: 0 <= i < |fields| ==> NamesOnce(fields[i].value))
      && (forall i, j :: 0 <= i < j < |fields| ==> fields[i].name != fields[j].name)
    case _ => true
  }

  lemma {:induction false} DenotedOnce(d: Syntax, depth: nat)
    requires Strict(d, depth)
    ensures NamesOnce(Denote(d, depth))
    decreases d
  {
    match d {
      case ArrayText(items) =>
        ItemsOnce(items, depth + 1);
        assert Denote(d, depth) == Array(DenoteItems(items, depth + 1));
      case ObjectText(members) =>
        MembersOnce(members, depth + 1, {});
        assert Denote(d, depth) == Object(DenoteMembers(members, depth + 1, {}));
      case _ =>
    }
  }

  lemma {:induction false} ItemsOnce(items: Items, depth: nat)
    requires StrictItems(items, depth)
    ensures forall i :: 0 <= i < |DenoteItems(items, depth)| ==> NamesOnce(DenoteItems(items, depth)[i])
    decreases items
  {
    DenotedOnce(items.v, depth);
    if items.NextItem? { ItemsOnce(items.rest, depth); }
  }

  /** The fields have names of their own, none of them taken, and no name twice within. */
  ghost predicate FieldsOnce(fields: seq<Field>, taken: set<string>) {
    && (forall i :: 0 <= i < |fields| ==> NamesOnce(fields[i].value) && fields[i].name !in taken)
    && (forall i, j :: 0 <= i < j < |fields| ==> fields[i].name != fields[j].name)
  }

  lemma FieldsMore(first: Field, rest: seq<Field>, taken: set<string>)
    requires NamesOnce(first.value) && first.name !in taken && FieldsOnce(rest, taken + {first.name})
    ensures FieldsOnce([first] + rest, taken)
  {
    hide NamesOnce;
    var fields := [first] + rest;
    forall i | 0 <= i < |fields| ensures NamesOnce(fields[i].value) && fields[i].name !in taken {
      if i > 0 { assert fields[i] == rest[i - 1]; }
    }
    forall i, j | 0 <= i < j < |fields| ensures fields[i].name != fields[j].name {
      assert fields[j] == rest[j - 1] && rest[j - 1].name !in taken + {first.name};
      if i > 0 { assert fields[i] == rest[i - 1]; }
    }
  }

  lemma {:induction false} MembersOnce(members: Members, depth: nat, taken: set<string>)
    requires StrictMembers(members, depth, taken)
    ensures FieldsOnce(DenoteMembers(members, depth, taken), taken)
    decreases members
  {
    hide NamesOnce, StrictChars, DenoteChars, Denote, Strict, FieldsOnce;
    DenotedOnce(members.v, depth);
    var key := DenoteChars(members.key);
    var first := Field(key, Denote(members.v, depth));
    if members.NextMember? {
      MembersOnce(members.rest, depth, taken + {key});
      FieldsMore(first, DenoteMembers(members.rest, depth, taken + {key}), taken);
    } else {
      NoFields(taken + {key});
      FieldsMore(first, [], taken);
    }
  }

  lemma NoFields(taken: set<string>)
    ensures FieldsOnce([], taken)
  {
  }

  /** What is parsed has no name twice in any object. */
  lemma NamesReadOnce(s: string)
    requires ResultOf(s).Parsed?
    ensures NamesOnce(ResultOf(s).value)
  {
    hide NamesOnce, Strict, Denote, ResultOf;
    var v := ResultOf(s).value;
    ParserIsGrammar(s, v);
    var before, d, after :| SpellsAs(s, v, before, d, after);
    DenotedOnce(d, 0);
  }
}
