/** The printers that feed the parser: `escape`, and the compact JSON the manifests and ledger records
    are written as. Reading a printed value gives the value back with its text cleaned. */
module JsonPrinter {
  import opened Text
  import opened JsonGrammar
  import opened JsonReading
  import opened JsonParser
  import opened JsonCompleteness
  import opened JsonSoundness

  function EscapeChar(c: char): string {
    match c
    case '"' => "\\\""
    case '\\' => "\\\\"
    case '\n' => "\\n"
    case '\r' => "\\r"
    case '\t' => "\\t"
    case _ => if IsControl(c) then " " else [c]
  }

  function Escape(s: string): string {
    if s == "" then "" else EscapeChar(s[0]) + Escape(s[1..])
  }

  method EscapeText(value: string) returns (output: string)
    ensures output == Escape(value)
  {
    output := "";
    for i := 0 to |value|
      invariant output + Escape(value[i..]) == Escape(value)
    {
      assert value[i..][1..] == value[i + 1..];
      Assoc(output, EscapeChar(value[i]), Escape(value[i + 1..]));
      output := output + EscapeChar(value[i]);
    }
    assert value[|value|..] == "" && output + "" == output;
  }

  /** The rule of the grammar an escaped character is spelt by. */
  function CharSyntax(c: char): (t: CharText)
    ensures StrictChar(t) && SpellChar(t) == EscapeChar(c) && DenoteChar(t) == CleanChar(c)
  {
    match c
    case '"' => Short('"')
    case '\\' => Short('\\')
    case '\n' => Short('n')
    case '\r' => Short('r')
    case '\t' => Short('t')
    case _ => if IsControl(c) then Plain(' ') else Plain(c)
  }

  function StringSyntax(s: string): (cs: seq<CharText>)
    ensures |cs| == |s| && forall i :: 0 <= i < |s| ==> cs[i] == CharSyntax(s[i])
  {
    seq(|s|, i requires 0 <= i < |s| => CharSyntax(s[i]))
  }

  lemma {:induction false} StringSyntaxMeaning(s: string)
    ensures StrictChars(StringSyntax(s))
    ensures SpellChars(StringSyntax(s)) == Escape(s)
    ensures DenoteChars(StringSyntax(s)) == Clean(s)
  {
    if s != "" {
      StringSyntaxMeaning(s[1..]);
      assert StringSyntax(s)[1..] == StringSyntax(s[1..]);
      assert Clean(s) == [CleanChar(s[0])] + Clean(s[1..]);
    } else {
      assert Clean(s) == "";
    }
  }

  /** A quoted, escaped text reads back as the text with its other control characters as spaces. */
  lemma EscapeRoundTrip(s: string, post: string)
    ensures ReadString("\"" + Escape(s) + "\"" + post) == (Ok(Clean(s)), post)
  {
    StringSyntaxMeaning(s);
    StringComplete(StringSyntax(s), post);
  }

  /** `{n}` for an integer. */
  function IntegerText(n: int): string {
    if n < 0 then "-" + Decimal(-n) else Decimal(n)
  }

  function Print(v: JsonValue): string
    decreases v
  {
    match v
    case Null => "null"
    case Bool(flag) => if flag then "true" else "false"
    case Number(digits) => digits
    case String(text) => "\"" + Escape(text) + "\""
    case Array(items) => "[" + PrintItems(items) + "]"
    case Object(fields) => "{" + PrintFields(fields) + "}"
  }

  function PrintItems(items: seq<JsonValue>): string
    decreases items
  {
    if items == [] then ""
    else Print(items[0]) + (if |items| == 1 then "" else "," + PrintItems(items[1..]))
  }

  function PrintKey(key: string): string {
    "\"" + Escape(key) + "\"" + ":"
  }

  function PrintFields(fields: seq<Field>): string
    decreases fields
  {
    if fields == [] then ""
    else
      PrintKey(fields[0].name)
      + (Print(fields[0].value) + (if |fields| == 1 then "" else "," + PrintFields(fields[1..])))
  }

  /** Integers, no key twice, not too deep: what the printed values of the repository are. */
  ghost predicate Printable(v: JsonValue, depth: nat)
    decreases v
  {
    && depth <= MAX_DEPTH
    && match v
       case Null => true
       case Bool(_) => true
       case Number(digits) => exists n: int :: digits == IntegerText(n)
       case String(_) => true
       case Array(items) => forall x :: x in items ==> Printable(x, depth + 1)
       case Object(fields) =>
         && (forall f :: f in fields ==> Printable(f.value, depth + 1))
         && (forall i, j :: 0 <= i < j < |fields| ==> Clean(fields[i].name) != Clean(fields[j].name))
  }

  function CleanValue(v: JsonValue): JsonValue
    decreases v
  {
    match v
    case String(text) => String(Clean(text))
    case Array(items) => Array(CleanItems(items))
    case Object(fields) => Object(CleanFields(fields))
    case _ => v
  }

  function CleanItems(items: seq<JsonValue>): (r: seq<JsonValue>)
    ensures |r| == |items| && forall i :: 0 <= i < |items| ==> r[i] == CleanValue(items[i])
    decreases items
  {
    if items == [] then [] else [CleanValue(items[0])] + CleanItems(items[1..])
  }

  function CleanFields(fields: seq<Field>): (r: seq<Field>)
    ensures |r| == |fields|
    ensures forall i :: 0 <= i < |fields| ==> r[i] == Field(Clean(fields[i].name), CleanValue(fields[i].value))
    decreases fields
  {
    if fields == [] then [] else [Field(Clean(fields[0].name), CleanValue(fields[0].value))] + CleanFields(fields[1..])
  }

  /** A printed value is a strict text of the grammar that denotes the cleaned value. */
  lemma {:induction false} PrintSyntax(v: JsonValue, depth: nat) returns (d: Syntax)
    requires Printable(v, depth)
    ensures Strict(d, depth) && Spell(d) == Print(v) && Denote(d, depth) == CleanValue(v)
    decreases v, 1
  {
    match v
    case Null => d := NullText;
    case Bool(flag) => d := BoolText(flag);
    case Number(digits) =>
      var n: int :| digits == IntegerText(n);
      d := NumText(NumberText(n < 0, Decimal(if n < 0 then -n else n), None, None));
    case String(text) =>
      StringSyntaxMeaning(text);
      d := StrText(StringSyntax(text));
    case Array(items) =>
      if items == [] {
        d := EmptyArrayText("");
        assert PrintItems(items) == "" && "[" + "" + "]" == "[" + "]";
      } else {
        var tree := PrintItemsSyntax(items, depth + 1);
        d := ArrayText(tree);
        Assoc("[", PrintItems(items), "]");
      }
    case Object(fields) =>
      if fields == [] {
        d := EmptyObjectText("");
        assert PrintFields(fields) == "" && "{" + "" + "}" == "{" + "}";
      } else {
        var tree := PrintFieldsSyntax(fields, depth + 1, {});
        d := ObjectText(tree);
        Assoc("{", PrintFields(fields), "}");
      }
  }

  lemma {:induction false} PrintItemsSyntax(items: seq<JsonValue>, depth: nat) returns (tree: Items)
    requires items != [] && forall x :: x in items ==> Printable(x, depth)
    ensures StrictItems(tree, depth) && SpellItems(tree) == PrintItems(items) + "]"
    ensures DenoteItems(tree, depth) == CleanItems(items)
    decreases items, 0
  {
    var d := PrintSyntax(items[0], depth);
    if |items| == 1 {
      tree := LastItem("", d, "");
      assert items[1..] == [];
    } else {
      var rest := PrintItemsSyntax(items[1..], depth);
      tree := NextItem("", d, "", rest);
      ItemsGlue(Print(items[0]), PrintItems(items[1..]));
    }
  }

  lemma ItemsGlue(first: string, rest: string)
    ensures "" + (first + ("" + ("," + (rest + "]")))) == first + ("," + rest) + "]"
  {
    Assoc(",", rest, "]");
    Assoc(first, "," + rest, "]");
    assert "" + ("," + (rest + "]")) == "," + (rest + "]");
  }

  lemma {:induction false} PrintFieldsSyntax(fields: seq<Field>, depth: nat, taken: set<string>)
    returns (tree: Members)
    requires fields != [] && forall f :: f in fields ==> Printable(f.value, depth)
    requires forall i, j :: 0 <= i < j < |fields| ==> Clean(fields[i].name) != Clean(fields[j].name)
    requires forall i :: 0 <= i < |fields| ==> Clean(fields[i].name) !in taken
    ensures StrictMembers(tree, depth, taken) && SpellMembers(tree) == PrintFields(fields) + "}"
    ensures DenoteMembers(tree, depth, taken) == CleanFields(fields)
    decreases fields, 0
  {
    var key := fields[0].name;
    assert fields[0] in fields;
    var d := PrintSyntax(fields[0].value, depth);
    StringSyntaxMeaning(key);
    KeyPrint(key);
    if |fields| == 1 {
      tree := LastMember("", StringSyntax(key), "", "", d, "");
      assert fields[1..] == [];
      FieldsGlue(PrintKey(key), Print(fields[0].value), "");
    } else {
      var rest := PrintFieldsSyntax(fields[1..], depth, taken + {Clean(key)});
      tree := NextMember("", StringSyntax(key), "", "", d, "", rest);
      assert "," + (PrintFields(fields[1..]) + "}") == "," + PrintFields(fields[1..]) + "}";
      FieldsGlue(PrintKey(key), Print(fields[0].value), "," + PrintFields(fields[1..]));
    }
  }

  lemma KeyPrint(key: string)
    ensures "" + (Quoted(StringSyntax(key)) + ("" + ":")) == PrintKey(key)
  {
    StringSyntaxMeaning(key);
  }

  lemma FieldsGlue(key: string, value: string, rest: string)
    ensures key + ("" + (value + ("" + (rest + "}")))) == key + (value + rest) + "}"
  {
    assert "" + (rest + "}") == rest + "}";
    Assoc(value, rest, "}");
    Assoc(key, value + rest, "}");
    assert "" + (value + (rest + "}")) == value + (rest + "}");
  }

  /** Parsing what was printed gives the value back, its text cleaned. */
  lemma PrintRoundTrip(v: JsonValue)
    requires Printable(v, 0)
    ensures ResultOf(Print(v)) == Parsed(CleanValue(v))
  {
    var d := PrintSyntax(v, 0);
    assert "" + (Spell(d) + "") == Print(v);
    assert SpellsAs(Print(v), CleanValue(v), "", d, "");
    ParserIsGrammar(Print(v), CleanValue(v));
  }

  /** A printed value stays on one line: nothing printed is a control character. */
  lemma {:induction false} EscapeOneLine(s: string)
    ensures forall i :: 0 <= i < |Escape(s)| ==> !IsControl(Escape(s)[i])
  {
    if s != "" { EscapeOneLine(s[1..]); }
  }

  lemma {:induction false} PrintOneLine(v: JsonValue, depth: nat)
    requires Printable(v, depth)
    ensures Print(v) != "" && forall i :: 0 <= i < |Print(v)| ==> !IsControl(Print(v)[i])
    decreases v, 1
  {
    match v
    case String(text) => EscapeOneLine(text);
    case Array(items) => ItemsOneLine(items, depth + 1);
    case Object(fields) => FieldsOneLine(fields, depth + 1);
    case _ =>
  }

  lemma {:induction false} ItemsOneLine(items: seq<JsonValue>, depth: nat)
    requires forall x :: x in items ==> Printable(x, depth)
    ensures forall i :: 0 <= i < |PrintItems(items)| ==> !IsControl(PrintItems(items)[i])
    decreases items, 0
  {
    if items != [] {
      PrintOneLine(items[0], depth);
      ItemsOneLine(items[1..], depth);
    }
  }

  lemma {:induction false} FieldsOneLine(fields: seq<Field>, depth: nat)
    requires forall f :: f in fields ==> Printable(f.value, depth)
    ensures forall i :: 0 <= i < |PrintFields(fields)| ==> !IsControl(PrintFields(fields)[i])
    decreases fields, 0
  {
    if fields != [] {
      assert fields[0] in fields;
      PrintOneLine(fields[0].value, depth);
      EscapeOneLine(fields[0].name);
      FieldsOneLine(fields[1..], depth);
    }
  }
}
