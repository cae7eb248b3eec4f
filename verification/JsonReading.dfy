/** What each step of the parser does to the text still unread. Every function returns its outcome
    and the text unread afterwards, on failures too: the parser's error offset is where it stops. */
module JsonReading {
  import opened Text
  import opened JsonGrammar

  datatype Problem =
    | DepthExceeded | UnexpectedCharacter | UnexpectedEnd | KeyNotString | DuplicateKey | UnexpectedDelimiter
    | UnterminatedString | UnknownEscape | UnterminatedEscape | RawControl | LoneHighSurrogate | BadLowSurrogate
    | LoneLowSurrogate | BadUnicodeEscape | InvalidScalar | LeadingZero | BadNumber | BareFraction | BareExponent
    | BadLiteral
    | TrailingData

  datatype Outcome<+T> = Ok(value: T) | Err(problem: Problem)

  function Peek(t: string): Option<char> {
    if t == "" then None else Some(t[0])
  }

  function Skip(t: string): (r: string)
    ensures |r| <= |t|
    ensures t != "" ==> |r| == |t| - 1
  {
    if t == "" then t else t[1..]
  }

  function SkipSpaces(t: string): (r: string)
    ensures |r| <= |t|
  {
    if t != "" && IsSpace(t[0]) then SkipSpaces(t[1..]) else t
  }

  function SkipDigits(t: string): (r: string)
    ensures |r| <= |t|
  {
    if t != "" && IsDigit(t[0]) then SkipDigits(t[1..]) else t
  }

  function ReadExpected(t: string, expected: char): (r: (Outcome<()>, string))
    ensures |r.1| <= |t|
    ensures r.0.Ok? ==> |r.1| < |t|
  {
    if Peek(t) == Some(expected) then (Ok(()), t[1..]) else (Err(UnexpectedDelimiter), t)
  }

  function ReadHex(t: string, digits: nat, value: nat): (r: (Outcome<nat>, string))
    ensures |r.1| <= |t|
  {
    if digits == 0 then (Ok(value), t)
    else if t == "" || !IsHex(t[0]) then (Err(BadUnicodeEscape), Skip(t))
    else ReadHex(t[1..], digits - 1, value * 16 + HexDigit(t[0]))
  }

  function FromSurrogates(high: nat, low: nat): char
    requires IsHighSurrogate(high) && IsLowSurrogate(low)
  {
    (0x1_0000 + (high - 0xd800) * 0x400 + (low - 0xdc00)) as char
  }

  /** The four digits of a `\u` escape, and those of its second half when the first is a high surrogate. */
  function ReadUnicode(t: string): (r: (Outcome<char>, string))
    ensures |r.1| <= |t|
  {
    var (first, t1) := ReadHex(t, 4, 0);
    if first.Err? then (Err(first.problem), t1)
    else if IsHighSurrogate(first.value) then
      if Peek(t1) != Some('\\') then (Err(LoneHighSurrogate), Skip(t1))
      else if Peek(t1[1..]) != Some('u') then (Err(LoneHighSurrogate), Skip(t1[1..]))
      else
        var (second, t2) := ReadHex(t1[2..], 4, 0);
        if second.Err? then (Err(second.problem), t2)
        else if !IsLowSurrogate(second.value) then (Err(BadLowSurrogate), t2)
        else (Ok(FromSurrogates(first.value, second.value)), t2)
    else if IsLowSurrogate(first.value) then (Err(LoneLowSurrogate), t1)
    else if first.value >= 0x1_0000 then (Err(InvalidScalar), t1)
    else (Ok(first.value as char), t1)
  }

  /** The rest of a string after its opening quotation mark; `output` is what was decoded before. */
  function ReadChars(t: string, output: string): (r: (Outcome<string>, string))
    ensures |r.1| <= |t|
    ensures r.0.Ok? ==> |r.1| < |t|
    decreases |t|
  {
    if t == "" then (Err(UnterminatedString), t)
    else if t[0] == '"' then (Ok(output), t[1..])
    else if t[0] == '\\' then
      if t[1..] == "" then (Err(UnterminatedEscape), t[1..])
      else if ShortEscape(t[1]).Some? then ReadChars(t[2..], output + [ShortEscape(t[1]).value])
      else if t[1] == 'u' then
        var (c, t1) := ReadUnicode(t[2..]);
        if c.Err? then (Err(c.problem), t1) else ReadChars(t1, output + [c.value])
      else (Err(UnknownEscape), t[2..])
    else if IsControl(t[0]) then (Err(RawControl), t[1..])
    else ReadChars(t[1..], output + [t[0]])
  }

  function ReadString(t: string): (r: (Outcome<string>, string))
    ensures |r.1| <= |t|
    ensures r.0.Ok? ==> |r.1| < |t|
  {
    var (quote, t1) := ReadExpected(t, '"');
    if quote.Err? then (Err(quote.problem), t1) else ReadChars(t1, "")
  }

  function StartsWithDigit(t: string): bool {
    t != "" && IsDigit(t[0])
  }

  function ReadWhole(t: string): (r: (Outcome<()>, string))
    ensures |r.1| <= |t|
    ensures r.0.Ok? ==> |r.1| < |t|
  {
    if !StartsWithDigit(t) then (Err(BadNumber), t)
    else if t[0] == '0' then
      if StartsWithDigit(t[1..]) then (Err(LeadingZero), t[1..]) else (Ok(()), t[1..])
    else (Ok(()), SkipDigits(t[1..]))
  }

  function ReadFraction(t: string): (r: (Outcome<()>, string))
    ensures |r.1| <= |t|
  {
    if Peek(t) != Some('.') then (Ok(()), t)
    else if !StartsWithDigit(t[1..]) then (Err(BareFraction), t[1..])
    else (Ok(()), SkipDigits(t[1..]))
  }

  function SkipSign(t: string): (r: string)
    ensures |r| <= |t|
  {
    if t != "" && (t[0] == '+' || t[0] == '-') then t[1..] else t
  }

  function ReadExponent(t: string): (r: (Outcome<()>, string))
    ensures |r.1| <= |t|
  {
    if t == "" || (t[0] != 'e' && t[0] != 'E') then (Ok(()), t)
    else
      var t1 := SkipSign(t[1..]);
      if !StartsWithDigit(t1) then (Err(BareExponent), t1) else (Ok(()), SkipDigits(t1))
  }

  function SkipMinus(t: string): (r: string)
    ensures |r| <= |t|
  {
    if Peek(t) == Some('-') then t[1..] else t
  }

  function ReadNumberParts(t: string): (r: (Outcome<()>, string))
    ensures |r.1| <= |t|
    ensures r.0.Ok? ==> |r.1| < |t|
  {
    var (whole, t1) := ReadWhole(t);
    if whole.Err? then (whole, t1)
    else
      var (fraction, t2) := ReadFraction(t1);
      if fraction.Err? then (fraction, t2) else ReadExponent(t2)
  }

  /** A number is returned as the text it was written with. */
  function ReadNumber(t: string): (r: (Outcome<string>, string))
    ensures |r.1| <= |t|
    ensures r.0.Ok? ==> |r.1| < |t|
  {
    var (parts, t1) := ReadNumberParts(SkipMinus(t));
    if parts.Err? then (Err(parts.problem), t1) else (Ok(t[..|t| - |t1|]), t1)
  }

  function ReadLiteral(t: string, literal: string, value: JsonValue): (r: (Outcome<JsonValue>, string))
    ensures |r.1| <= |t|
    ensures r.0.Ok? && literal != "" ==> |r.1| < |t|
  {
    if literal <= t then (Ok(value), t[|literal|..]) else (Err(BadLiteral), t)
  }

  function Lift(o: Outcome<string>, wrap: string -> JsonValue): Outcome<JsonValue> {
    if o.Ok? then Ok(wrap(o.value)) else Err(o.problem)
  }

  function ReadValue(t0: string, depth: nat): (r: (Outcome<JsonValue>, string))
    ensures |r.1| <= |t0|
    ensures r.0.Ok? ==> |r.1| < |t0|
    decreases |t0|, 2
  {
    if depth > MAX_DEPTH then (Err(DepthExceeded), t0)
    else
      var t := SkipSpaces(t0);
      if t == "" then (Err(UnexpectedEnd), t)
      else if t[0] == '{' then ReadObject(t, depth + 1)
      else if t[0] == '[' then ReadArray(t, depth + 1)
      else if t[0] == '"' then var (s, t1) := ReadString(t); (Lift(s, x => String(x)), t1)
      else if t[0] == 't' then ReadLiteral(t, "true", Bool(true))
      else if t[0] == 'f' then ReadLiteral(t, "false", Bool(false))
      else if t[0] == 'n' then ReadLiteral(t, "null", Null)
      else if t[0] == '-' || IsDigit(t[0]) then var (n, t1) := ReadNumber(t); (Lift(n, x => Number(x)), t1)
      else (Err(UnexpectedCharacter), t)
  }

  function ReadArray(t: string, depth: nat): (r: (Outcome<JsonValue>, string))
    ensures |r.1| <= |t|
    ensures r.0.Ok? ==> |r.1| < |t|
    decreases |t|, 1
  {
    var (open, t1) := ReadExpected(t, '[');
    if open.Err? then (Err(open.problem), t1)
    else
      var t2 := SkipSpaces(t1);
      if Peek(t2) == Some(']') then (Ok(Array([])), t2[1..]) else ReadItems(t2, depth, [])
  }

  function ReadItems(t: string, depth: nat, values: seq<JsonValue>): (r: (Outcome<JsonValue>, string))
    ensures |r.1| <= |t|
    ensures r.0.Ok? ==> |r.1| < |t|
    decreases |t|, 3
  {
    var (v, t1) := ReadValue(t, depth);
    if v.Err? then (v, t1)
    else
      var t2 := SkipSpaces(t1);
      if Peek(t2) == Some(']') then (Ok(Array(values + [v.value])), t2[1..])
      else if Peek(t2) == Some(',') then ReadItems(t2[1..], depth, values + [v.value])
      else (Err(UnexpectedDelimiter), t2)
  }

  function ReadObject(t: string, depth: nat): (r: (Outcome<JsonValue>, string))
    ensures |r.1| <= |t|
    ensures r.0.Ok? ==> |r.1| < |t|
    decreases |t|, 1
  {
    var (open, t1) := ReadExpected(t, '{');
    if open.Err? then (Err(open.problem), t1)
    else
      var t2 := SkipSpaces(t1);
      if Peek(t2) == Some('}') then (Ok(Object([])), t2[1..]) else ReadMembers(t2, depth, [])
  }

  predicate HasKey(fields: seq<Field>, key: string) {
    exists i :: 0 <= i < |fields| && fields[i].name == key
  }

  /** A member up to and including its colon; the outcome is the decoded key. */
  function ReadKey(t: string, fields: seq<Field>): (r: (Outcome<string>, string))
    ensures |r.1| <= |t|
    ensures r.0.Ok? ==> |r.1| < |t|
  {
    var t0 := SkipSpaces(t);
    if Peek(t0) != Some('"') then (Err(KeyNotString), t0)
    else
      var (key, t1) := ReadString(t0);
      if key.Err? then (key, t1)
      else if HasKey(fields, key.value) then (Err(DuplicateKey), t1)
      else
        var t2 := SkipSpaces(t1);
        var (colon, t3) := ReadExpected(t2, ':');
        if colon.Err? then (Err(colon.problem), t3) else (key, t3)
  }

  function ReadMembers(t: string, depth: nat, fields: seq<Field>): (r: (Outcome<JsonValue>, string))
    ensures |r.1| <= |t|
    ensures r.0.Ok? ==> |r.1| < |t|
    decreases |t|, 0
  {
    var (key, t1) := ReadKey(t, fields);
    if key.Err? then (Err(key.problem), t1)
    else
      var (v, t2) := ReadValue(t1, depth);
      if v.Err? then (v, t2)
      else
        var t3 := SkipSpaces(t2);
        if Peek(t3) == Some('}') then (Ok(Object(fields + [Field(key.value, v.value)])), t3[1..])
        else if Peek(t3) == Some(',') then ReadMembers(t3[1..], depth, fields + [Field(key.value, v.value)])
        else (Err(UnexpectedDelimiter), t3)
  }

  /** A whole text: white space, one value, white space, nothing more. */
  function ReadText(s: string): (r: (Outcome<JsonValue>, string))
    ensures |r.1| <= |s|
  {
    var (v, t) := ReadValue(SkipSpaces(s), 0);
    if v.Err? then (v, t)
    else
      var t1 := SkipSpaces(t);
      if t1 != "" then (Err(TrailingData), t1) else (v, t1)
  }
}
