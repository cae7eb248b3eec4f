/** The parser: an object whose methods advance a position over its input. Each method is tied to the
    function of `JsonReading` that says what it does to the text still unread. */
module JsonParser {
  import opened Text
  import opened JsonGrammar
  import opened JsonReading

  datatype JsonError = JsonError(offset: nat, problem: Problem)
  datatype ParseResult = Parsed(value: JsonValue) | Rejected(error: JsonError)

  function MessageOf(problem: Problem): string {
    match problem
    case DepthExceeded => "maximum JSON nesting depth exceeded"
    case UnexpectedCharacter => "unexpected character"
    case UnexpectedEnd => "unexpected end of input"
    case KeyNotString => "object key must be a string"
    case DuplicateKey => "duplicate object key"
    case UnexpectedDelimiter => "unexpected delimiter"
    case UnterminatedString => "unterminated string"
    case UnknownEscape => "unknown string escape"
    case UnterminatedEscape => "unterminated string escape"
    case RawControl => "unescaped control character in string"
    case LoneHighSurrogate => "high surrogate must be followed by low surrogate"
    case BadLowSurrogate => "invalid low surrogate"
    case LoneLowSurrogate => "unpaired low surrogate"
    case BadUnicodeEscape => "invalid Unicode escape"
    case InvalidScalar => "invalid Unicode scalar"
    case LeadingZero => "number has a leading zero"
    case BadNumber => "invalid number"
    case BareFraction => "fraction requires a digit"
    case BareExponent => "exponent requires a digit"
    case BadLiteral => "invalid literal"
    case TrailingData => "trailing data after JSON value"
  }

  /** What an error prints as. */
  function ErrorText(e: JsonError): string {
    "JSON error at byte " + Decimal(e.offset) + ": " + MessageOf(e.problem)
  }

  class Parser {
    const input: string
    var pos: nat

    constructor (input: string)
      ensures this.input == input && pos == 0 && Valid() && Rest() == input
    {
      this.input := input;
      pos := 0;
    }

    ghost predicate Valid()
      reads this
    {
      pos <= |input|
    }

    ghost function Rest(): string
      reads this
      requires Valid()
    {
      input[pos..]
    }

    lemma SliceBetween(start: nat, stop: nat)
      requires start <= stop <= |input|
      ensures |input[start..]| >= |input[stop..]|
      ensures input[start..stop] == input[start..][..|input[start..]| - |input[stop..]|]
    {
    }

    method PeekChar() returns (c: Option<char>)
      requires Valid()
      ensures c == Peek(Rest())
    {
      c := if pos < |input| then Some(input[pos]) else None;
    }

    method NextChar() returns (c: Option<char>)
      requires Valid()
      modifies this`pos
      ensures Valid() && c == Peek(old(Rest())) && Rest() == Skip(old(Rest()))
    {
      c := PeekChar();
      if c.Some? { pos := pos + 1; }
    }

    method ConsumeChar(expected: char) returns (taken: bool)
      requires Valid()
      modifies this`pos
      ensures Valid() && taken == (Peek(old(Rest())) == Some(expected))
      ensures Rest() == if taken then Skip(old(Rest())) else old(Rest())
    {
      var c := PeekChar();
      taken := c == Some(expected);
      if taken { var _ := NextChar(); }
    }

    method ExpectChar(expected: char) returns (r: Outcome<()>)
      requires Valid()
      modifies this`pos
      ensures Valid() && (r, Rest()) == ReadExpected(old(Rest()), expected)
    {
      var taken := ConsumeChar(expected);
      r := if taken then Ok(()) else Err(UnexpectedDelimiter);
    }

    method SkipWhitespace()
      modifies this`pos
      requires Valid()
      ensures Valid() && Rest() == SkipSpaces(old(Rest()))
    {
      while pos < |input| && IsSpace(input[pos])
        invariant Valid() && SkipSpaces(Rest()) == SkipSpaces(old(Rest()))
      {
        assert Rest()[1..] == input[pos + 1..];
        pos := pos + 1;
      }
    }

    method ConsumeDigits()
      modifies this`pos
      requires Valid()
      ensures Valid() && Rest() == SkipDigits(old(Rest()))
    {
      while pos < |input| && IsDigit(input[pos])
        invariant Valid() && SkipDigits(Rest()) == SkipDigits(old(Rest()))
      {
        assert Rest()[1..] == input[pos + 1..];
        pos := pos + 1;
      }
    }

    method ParseLiteral(literal: string, value: JsonValue) returns (r: Outcome<JsonValue>)
      modifies this`pos
      requires Valid()
      ensures Valid() && (r, Rest()) == ReadLiteral(old(Rest()), literal, value)
    {
      if literal <= input[pos..] {
        pos := pos + |literal|;
        r := Ok(value);
      } else {
        r := Err(BadLiteral);
      }
    }

    method ParseHexUnit() returns (r: Outcome<nat>)
      modifies this`pos
      requires Valid()
      ensures Valid() && (r, Rest()) == ReadHex(old(Rest()), 4, 0)
    {
      var value: nat := 0;
      for k := 0 to 4
        invariant value < [0x1, 0x10, 0x100, 0x1000, 0x1_0000][k]
        invariant Valid() && ReadHex(Rest(), 4 - k, value) == ReadHex(old(Rest()), 4, 0)
      {
        var c := NextChar();
        if c == None || !IsHex(c.value) { return Err(BadUnicodeEscape); }
        // the unit is a u16: this never wraps
        assert value * 16 + HexDigit(c.value) < 0x1_0000;
        value := value * 16 + HexDigit(c.value);
      }
      r := Ok(value);
    }

    method ParseUnicodeScalar() returns (r: Outcome<char>)
      modifies this`pos
      requires Valid()
      ensures Valid() && (r, Rest()) == ReadUnicode(old(Rest()))
    {
      var high := ParseHexUnit();
      if high.Err? { return Err(high.problem); }
      if IsHighSurrogate(high.value) {
        var c := NextChar();
        if c != Some('\\') { return Err(LoneHighSurrogate); }
        c := NextChar();
        if c != Some('u') { return Err(LoneHighSurrogate); }
        var low := ParseHexUnit();
        if low.Err? { return Err(low.problem); }
        if !IsLowSurrogate(low.value) { return Err(BadLowSurrogate); }
        return Ok(FromSurrogates(high.value, low.value));
      } else if IsLowSurrogate(high.value) {
        return Err(LoneLowSurrogate);
      }
      r := if high.value >= 0x1_0000 then Err(InvalidScalar) else Ok(high.value as char);
    }

    method ParseString() returns (r: Outcome<string>)
      modifies this`pos
      requires Valid()
      ensures Valid() && (r, Rest()) == ReadString(old(Rest()))
    {
      var quote := ExpectChar('"');
      if quote.Err? { return Err(quote.problem); }
      var output := "";
      while true
        invariant Valid() && ReadChars(Rest(), output) == ReadString(old(Rest()))
        decreases |input| - pos
      {
        ghost var t := Rest();
        var c := NextChar();
        if c == None { return Err(UnterminatedString); }
        if c.value == '"' { return Ok(output); }
        if c.value == '\\' {
          var letter := NextChar();
          assert t[1..] == [] || t[1..][1..] == t[2..];
          if letter == None { return Err(UnterminatedEscape); }
          if ShortEscape(letter.value).Some? {
            output := output + [ShortEscape(letter.value).value];
          } else if letter.value == 'u' {
            var scalar := ParseUnicodeScalar();
            if scalar.Err? { return Err(scalar.problem); }
            output := output + [scalar.value];
          } else {
            return Err(UnknownEscape);
          }
        } else if IsControl(c.value) {
          return Err(RawControl);
        } else {
          output := output + [c.value];
        }
      }
    }

    /** The number's text is the slice of the input between where it starts and where it stops. */
    method ParseNumber() returns (r: Outcome<string>)
      modifies this`pos
      requires Valid()
      ensures Valid() && (r, Rest()) == ReadNumber(old(Rest()))
    {
      var start := pos;
      var _ := ConsumeChar('-');
      var parts := ParseNumberParts();
      if parts.Err? { return Err(parts.problem); }
      SliceBetween(start, pos);
      r := Ok(input[start..pos]);
    }

    method ParseNumberParts() returns (r: Outcome<()>)
      modifies this`pos
      requires Valid()
      ensures Valid() && pos >= old(pos) && (r, Rest()) == ReadNumberParts(old(Rest()))
    {
      r := ParseWhole();
      if r.Err? { return; }
      r := ParseFraction();
      if r.Err? { return; }
      r := ParseExponent();
    }

    method ParseWhole() returns (r: Outcome<()>)
      modifies this`pos
      requires Valid()
      ensures Valid() && pos >= old(pos) && (r, Rest()) == ReadWhole(old(Rest()))
    {
      var c := PeekChar();
      if c == Some('0') {
        var _ := NextChar();
        c := PeekChar();
        if c.Some? && IsDigit(c.value) { return Err(LeadingZero); }
      } else if c.Some? && IsDigit(c.value) {
        assert SkipDigits(Rest()) == SkipDigits(Rest()[1..]);
        ConsumeDigits();
      } else {
        return Err(BadNumber);
      }
      r := Ok(());
    }

    method ParseFraction() returns (r: Outcome<()>)
      modifies this`pos
      requires Valid()
      ensures Valid() && pos >= old(pos) && (r, Rest()) == ReadFraction(old(Rest()))
    {
      var dot := ConsumeChar('.');
      if dot {
        var c := PeekChar();
        if c == None || !IsDigit(c.value) { return Err(BareFraction); }
        assert SkipDigits(Rest()) == SkipDigits(old(Rest())[1..]);
        ConsumeDigits();
      }
      r := Ok(());
    }

    method ParseExponent() returns (r: Outcome<()>)
      modifies this`pos
      requires Valid()
      ensures Valid() && pos >= old(pos) && (r, Rest()) == ReadExponent(old(Rest()))
    {
      var c := PeekChar();
      if c == Some('e') || c == Some('E') {
        var _ := NextChar();
        c := PeekChar();
        if c == Some('+') || c == Some('-') { var _ := NextChar(); }
        c := PeekChar();
        if c == None || !IsDigit(c.value) { return Err(BareExponent); }
        ConsumeDigits();
      }
      r := Ok(());
    }

    method ParseValue(depth: nat) returns (r: Outcome<JsonValue>)
      modifies this`pos
      requires Valid()
      ensures Valid() && (r, Rest()) == ReadValue(old(Rest()), depth)
      decreases |input| - pos, 2
    {
      if depth > MAX_DEPTH { return Err(DepthExceeded); }
      ghost var t0 := Rest();
      SkipWhitespace();
      assert |Rest()| <= |t0|;
      var c := PeekChar();
      if c == None {
        r := Err(UnexpectedEnd);
      } else if c.value == '{' {
        r := ParseObject(depth + 1);
      } else if c.value == '[' {
        r := ParseArray(depth + 1);
      } else if c.value == '"' {
        var s := ParseString();
        r := if s.Ok? then Ok(String(s.value)) else Err(s.problem);
      } else if c.value == 't' {
        r := ParseLiteral("true", Bool(true));
      } else if c.value == 'f' {
        r := ParseLiteral("false", Bool(false));
      } else if c.value == 'n' {
        r := ParseLiteral("null", Null);
      } else if c.value == '-' || IsDigit(c.value) {
        var n := ParseNumber();
        r := if n.Ok? then Ok(Number(n.value)) else Err(n.problem);
      } else {
        r := Err(UnexpectedCharacter);
      }
    }

    method ParseArray(depth: nat) returns (r: Outcome<JsonValue>)
      modifies this`pos
      requires Valid()
      ensures Valid() && (r, Rest()) == ReadArray(old(Rest()), depth)
      decreases |input| - pos, 1
    {
      var open := ExpectChar('[');
      if open.Err? { return Err(open.problem); }
      SkipWhitespace();
      var values := [];
      var close := ConsumeChar(']');
      if close { return Ok(Array(values)); }
      while true
        invariant Valid() && pos > old(pos)
        invariant ReadItems(Rest(), depth, values) == ReadArray(old(Rest()), depth)
        decreases |input| - pos
      {
        var v := ParseValue(depth);
        if v.Err? { return v; }
        values := values + [v.value];
        SkipWhitespace();
        close := ConsumeChar(']');
        if close { return Ok(Array(values)); }
        var comma := ExpectChar(',');
        if comma.Err? { return Err(comma.problem); }
      }
    }

    method ParseObject(depth: nat) returns (r: Outcome<JsonValue>)
      modifies this`pos
      requires Valid()
      ensures Valid() && (r, Rest()) == ReadObject(old(Rest()), depth)
      decreases |input| - pos, 1
    {
      var open := ExpectChar('{');
      if open.Err? { return Err(open.problem); }
      SkipWhitespace();
      var fields := [];
      var close := ConsumeChar('}');
      if close { return Ok(Object(fields)); }
      while true
        invariant Valid() && pos > old(pos)
        invariant ReadMembers(Rest(), depth, fields) == ReadObject(old(Rest()), depth)
        decreases |input| - pos
      {
        var key := ParseKey(fields);
        if key.Err? { return Err(key.problem); }
        var v := ParseValue(depth);
        if v.Err? { return v; }
        fields := fields + [Field(key.value, v.value)];
        SkipWhitespace();
        close := ConsumeChar('}');
        if close { return Ok(Object(fields)); }
        var comma := ExpectChar(',');
        if comma.Err? { return Err(comma.problem); }
      }
    }

    /** The start of one member: its key, checked against the keys before it, and its colon. */
    method ParseKey(fields: seq<Field>) returns (key: Outcome<string>)
      modifies this`pos
      requires Valid()
      ensures Valid() && (key, Rest()) == ReadKey(old(Rest()), fields)
    {
      SkipWhitespace();
      var c := PeekChar();
      if c != Some('"') { return Err(KeyNotString); }
      key := ParseString();
      if key.Err? { return key; }
      if HasKey(fields, key.value) { return Err(DuplicateKey); }
      SkipWhitespace();
      var colon := ExpectChar(':');
      if colon.Err? { return Err(colon.problem); }
    }
  }

  function ResultOf(input: string): ParseResult {
    var (v, rest) := ReadText(input);
    if v.Ok? then Parsed(v.value) else Rejected(JsonError(ByteLength(input[..|input| - |rest|]), v.problem))
  }

  method Parse(input: string) returns (r: ParseResult)
    ensures r == ResultOf(input)
  {
    hide ReadValue, SkipSpaces;
    var parser := new Parser(input);
    parser.SkipWhitespace();
    var v := parser.ParseValue(0);
    if v.Err? { return Rejected(JsonError(ByteLength(input[..parser.pos]), v.problem)); }
    parser.SkipWhitespace();
    if parser.pos != |input| { return Rejected(JsonError(ByteLength(input[..parser.pos]), TrailingData)); }
    r := Parsed(v.value);
  }
}
