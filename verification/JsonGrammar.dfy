/** The JSON grammar of RFC 8259, sections 2 to 7, as trees: `Spell` gives the text a tree stands
    for and `Denote` the value. `Strict` adds the parser's own limits: no repeated decoded key, no
    raw control character (C0, DEL or C1), no unpaired surrogate, no value deeper than 64. */
module JsonGrammar {
  import opened Text

  const MAX_DEPTH: nat := 64

  datatype JsonValue =
    | Null
    | Bool(flag: bool)
    | Number(digits: string)
    | String(text: string)
    | Array(items: seq<JsonValue>)
    | Object(fields: seq<Field>)
  datatype Field = Field(name: string, value: JsonValue)

  predicate IsSpace(c: char) {
    c == ' ' || c == '\t' || c == '\n' || c == '\r'
  }

  /** Section 2: `ws`. */
  predicate Spaces(s: string) {
    forall i :: 0 <= i < |s| ==> IsSpace(s[i])
  }

  /** Section 7: one `char` of a string. */
  datatype CharText =
    | Plain(c: char)
    | Short(letter: char)
    | Unit(hex: string)
    | Pair(high: string, low: string)

  predicate IsHex4(h: string) {
    |h| == 4 && forall i :: 0 <= i < 4 ==> IsHex(h[i])
  }

  function HexValue(h: string): (n: nat)
    requires IsHex4(h)
    ensures n < 0x1_0000
  {
    ((HexDigit(h[0]) * 16 + HexDigit(h[1])) * 16 + HexDigit(h[2])) * 16 + HexDigit(h[3])
  }

  predicate IsHighSurrogate(n: nat) {
    0xd800 <= n <= 0xdbff
  }

  predicate IsLowSurrogate(n: nat) {
    0xdc00 <= n <= 0xdfff
  }

  /** What the letter after a reverse solidus stands for. */
  function ShortEscape(letter: char): Option<char> {
    match letter
    case '"' => Some('"')
    case '\\' => Some('\\')
    case '/' => Some('/')
    case 'b' => Some('\U{08}')
    case 'f' => Some('\U{0C}')
    case 'n' => Some('\n')
    case 'r' => Some('\r')
    case 't' => Some('\t')
    case _ => None
  }

  predicate StrictChar(t: CharText) {
    match t
    case Plain(c) => c != '"' && c != '\\' && !IsControl(c)
    case Short(letter) => ShortEscape(letter).Some?
    case Unit(h) => IsHex4(h) && !IsHighSurrogate(HexValue(h)) && !IsLowSurrogate(HexValue(h))
    case Pair(high, low) =>
      IsHex4(high) && IsHex4(low) && IsHighSurrogate(HexValue(high)) && IsLowSurrogate(HexValue(low))
  }

  function SpellChar(t: CharText): string {
    match t
    case Plain(c) => [c]
    case Short(letter) => ['\\', letter]
    case Unit(h) => "\\u" + h
    case Pair(high, low) => "\\u" + high + "\\u" + low
  }

  function DenoteChar(t: CharText): char
    requires StrictChar(t)
  {
    match t
    case Plain(c) => c
    case Short(letter) => ShortEscape(letter).value
    case Unit(h) => HexValue(h) as char
    case Pair(high, low) =>
      (0x1_0000 + (HexValue(high) - 0xd800) * 0x400 + (HexValue(low) - 0xdc00)) as char
  }

  predicate StrictChars(cs: seq<CharText>) {
    forall i :: 0 <= i < |cs| ==> StrictChar(cs[i])
  }

  function SpellChars(cs: seq<CharText>): string {
    if cs == [] then "" else SpellChar(cs[0]) + SpellChars(cs[1..])
  }

  function DenoteChars(cs: seq<CharText>): string
    requires StrictChars(cs)
  {
    if cs == [] then "" else [DenoteChar(cs[0])] + DenoteChars(cs[1..])
  }

  /** A quoted string. */
  function Quoted(cs: seq<CharText>): string {
    "\"" + SpellChars(cs) + "\""
  }

  /** Section 6: `[ minus ] int [ frac ] [ exp ]`. */
  datatype NumberText = NumberText(minus: bool, whole: string, fraction: Option<string>, exponent: Option<Exponent>)
  datatype Exponent = Exponent(mark: char, sign: string, digits: string)

  predicate Digits(s: string) {
    |s| > 0 && forall i :: 0 <= i < |s| ==> IsDigit(s[i])
  }

  predicate StrictNumber(n: NumberText) {
    && Digits(n.whole)
    && (n.whole[0] == '0' ==> |n.whole| == 1)
    && (n.fraction.Some? ==> Digits(n.fraction.value))
    && (n.exponent.Some? ==>
          && (n.exponent.value.mark == 'e' || n.exponent.value.mark == 'E')
          && n.exponent.value.sign in {"", "+", "-"}
          && Digits(n.exponent.value.digits))
  }

  function SpellFraction(f: Option<string>): string {
    if f.Some? then "." + f.value else ""
  }

  function SpellExponent(e: Option<Exponent>): string {
    if e.Some? then [e.value.mark] + e.value.sign + e.value.digits else ""
  }

  function SpellNumber(n: NumberText): string {
    (if n.minus then "-" else "") + (n.whole + (SpellFraction(n.fraction) + SpellExponent(n.exponent)))
  }

  /** Sections 3 to 5. The strings beside the values are the white space the grammar allows there. */
  datatype Syntax =
    | NullText
    | BoolText(flag: bool)
    | NumText(n: NumberText)
    | StrText(cs: seq<CharText>)
    | EmptyArrayText(inside: string)
    | ArrayText(items: Items)
    | EmptyObjectText(inside: string)
    | ObjectText(members: Members)
  datatype Items =
    | LastItem(before: string, v: Syntax, after: string)
    | NextItem(before: string, v: Syntax, after: string, rest: Items)
  datatype Members =
    | LastMember(before: string, key: seq<CharText>, beforeColon: string, afterColon: string, v: Syntax, after: string)
    | NextMember(before: string, key: seq<CharText>, beforeColon: string, afterColon: string, v: Syntax, after: string,
                 rest: Members)

  function Spell(d: Syntax): string
    decreases d
  {
    match d
    case NullText => "null"
    case BoolText(flag) => if flag then "true" else "false"
    case NumText(n) => SpellNumber(n)
    case StrText(cs) => Quoted(cs)
    case EmptyArrayText(inside) => "[" + inside + "]"
    case ArrayText(items) => "[" + SpellItems(items)
    case EmptyObjectText(inside) => "{" + inside + "}"
    case ObjectText(members) => "{" + SpellMembers(members)
  }

  /** The items up to and including the closing bracket. */
  function SpellItems(items: Items): string
    decreases items
  {
    items.before + (Spell(items.v) + (items.after +
      (if items.LastItem? then "]" else "," + SpellItems(items.rest))))
  }

  function SpellKey(members: Members): string {
    members.before + (Quoted(members.key) + (members.beforeColon + ":"))
  }

  /** The members up to and including the closing brace. */
  function SpellMembers(members: Members): string
    decreases members
  {
    SpellKey(members) + (members.afterColon + (Spell(members.v) + (members.after +
      (if members.LastMember? then "}" else "," + SpellMembers(members.rest)))))
  }

  predicate Strict(d: Syntax, depth: nat)
    decreases d
  {
    && depth <= MAX_DEPTH
    && match d
       case NullText => true
       case BoolText(_) => true
       case NumText(n) => StrictNumber(n)
       case StrText(cs) => StrictChars(cs)
       case EmptyArrayText(inside) => Spaces(inside)
       case ArrayText(items) => StrictItems(items, depth + 1)
       case EmptyObjectText(inside) => Spaces(inside)
       case ObjectText(members) => StrictMembers(members, depth + 1, {})
  }

  predicate StrictItems(items: Items, depth: nat)
    decreases items
  {
    && Spaces(items.before) && Strict(items.v, depth) && Spaces(items.after)
    && (items.NextItem? ==> StrictItems(items.rest, depth))
  }

  /** `taken` holds the decoded keys of the members before these. */
  predicate StrictMembers(members: Members, depth: nat, taken: set<string>)
    decreases members
  {
    && Spaces(members.before) && StrictChars(members.key) && DenoteChars(members.key) !in taken
    && Spaces(members.beforeColon) && Spaces(members.afterColon)
    && Strict(members.v, depth) && Spaces(members.after)
    && (members.NextMember? ==> StrictMembers(members.rest, depth, taken + {DenoteChars(members.key)}))
  }

  function Denote(d: Syntax, depth: nat): JsonValue
    requires Strict(d, depth)
    decreases d
  {
    match d
    case NullText => Null
    case BoolText(flag) => Bool(flag)
    case NumText(n) => Number(SpellNumber(n))
    case StrText(cs) => String(DenoteChars(cs))
    case EmptyArrayText(_) => Array([])
    case ArrayText(items) => Array(DenoteItems(items, depth + 1))
    case EmptyObjectText(_) => Object([])
    case ObjectText(members) => Object(DenoteMembers(members, depth + 1, {}))
  }

  function DenoteItems(items: Items, depth: nat): seq<JsonValue>
    requires StrictItems(items, depth)
    decreases items
  {
    [Denote(items.v, depth)] + (if items.LastItem? then [] else DenoteItems(items.rest, depth))
  }

  function DenoteMembers(members: Members, depth: nat, taken: set<string>): seq<Field>
    requires StrictMembers(members, depth, taken)
    decreases members
  {
    var key := DenoteChars(members.key);
    [Field(key, Denote(members.v, depth))] +
    (if members.LastMember? then [] else DenoteMembers(members.rest, depth, taken + {key}))
  }

  /** Section 2: `JSON-text = ws value ws`, here with its value. */
  ghost predicate IsJsonText(s: string, v: JsonValue) {
    exists before, d, after :: SpellsAs(s, v, before, d, after)
  }

  ghost predicate SpellsAs(s: string, v: JsonValue, before: string, d: Syntax, after: string) {
    && Spaces(before) && Spaces(after) && Strict(d, 0)
    && s == before + (Spell(d) + after)
    && v == Denote(d, 0)
  }
}
