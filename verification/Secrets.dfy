/** Redaction: four collectors propose spans of a text's bytes, spans that do not lie between characters are dropped,
    overlapping and touching ones are merged, and every merged span is replaced by one marker. No collector ever
    proposes a span that is dropped. */
module Secrets {
  import opened Text
  import opened Utf8

  datatype Span = Span(start: nat, end: nat)

  const REDACTED := "[REDACTED]"

  // ---- byte classes ----

  predicate IsAlphanumeric(b: Byte) {
    '0' as int <= b <= '9' as int || 'a' as int <= b <= 'z' as int || 'A' as int <= b <= 'Z' as int
  }

  /** `is_ascii_whitespace` */
  predicate IsAsciiSpace(b: Byte) {
    b == 0x20 || b == 0x09 || b == 0x0A || b == 0x0C || b == 0x0D
  }

  /** `label_char` and `base64url` */
  predicate IsLabelByte(b: Byte) {
    IsAlphanumeric(b) || b == '_' as int || b == '-' as int
  }

  /** `credential_char` and `jwt_char` */
  predicate IsTokenByte(b: Byte) {
    IsLabelByte(b) || b == '.' as int
  }

  predicate IsQuote(b: Byte) {
    b == '"' as int || b == '\'' as int || b == '`' as int
  }

  predicate NotDelimiter(b: Byte) {
    && !IsAsciiSpace(b) && !IsQuote(b) && b != ',' as int && b != ';' as int && b != '&' as int && b != '}' as int
    && b != ']' as int && b != ')' as int
  }

  function LowerByte(b: Byte): Byte {
    if 'A' as int <= b <= 'Z' as int then b + 32 else b
  }

  // ---- scanning ----

  /** The end of the run of such bytes from `i` on. */
  function RunEnd(bytes: seq<Byte>, i: nat, kind: Byte -> bool): (end: nat)
    requires i <= |bytes|
    ensures i <= end <= |bytes| && (forall k :: i <= k < end ==> kind(bytes[k]))
    ensures end < |bytes| ==> !kind(bytes[end])
    decreases |bytes| - i
  {
    if i < |bytes| && kind(bytes[i]) then RunEnd(bytes, i + 1, kind) else i
  }

  /** The start of the run of such bytes that ends before `i`. */
  function RunStart(bytes: seq<Byte>, i: nat, kind: Byte -> bool): (start: nat)
    requires i <= |bytes|
    ensures start <= i && (start < i ==> kind(bytes[start]))
  {
    if i > 0 && kind(bytes[i - 1]) then RunStart(bytes, i - 1, kind) else i
  }

  /** `starts_with_ignore_ascii_case` with a lower-case needle. */
  predicate StartsWithAt(bytes: seq<Byte>, start: nat, needle: string) {
    && start + |needle| <= |bytes|
    && forall k :: 0 <= k < |needle| ==> LowerByte(bytes[start + k]) == needle[k] as int
  }

  const PREFIXES: seq<string> := ["sk-", "ghp_", "github_pat_", "xoxb-", "xoxp-", "hf_", "akia", "aiza"]

  /** The first prefix of the list, from `k` on, that stands at `start`. */
  function PrefixAt(bytes: seq<Byte>, start: nat, k: nat): (r: Option<string>)
    ensures r.Some? ==> r.value in PREFIXES && StartsWithAt(bytes, start, r.value)
    decreases |PREFIXES| - k
  {
    if k >= |PREFIXES| then None
    else if StartsWithAt(bytes, start, PREFIXES[k]) then Some(PREFIXES[k])
    else PrefixAt(bytes, start, k + 1)
  }

  /** A token of a known family that starts here. */
  function PrefixedAt(bytes: seq<Byte>, start: nat): (r: Option<Span>)
    ensures r.Some? ==> start == r.value.start < r.value.end <= |bytes|
  {
    if start >= |bytes| || (start > 0 && (IsAlphanumeric(bytes[start - 1]) || bytes[start - 1] == '_' as int)) then None
    else
      var prefix :- PrefixAt(bytes, start, 0);
      var end := RunEnd(bytes, start + |prefix|, IsTokenByte);
      if end - start > 12 then Some(Span(start, end)) else None
  }

  function SplitDots(token: seq<Byte>): (parts: seq<seq<Byte>>)
    ensures |parts| > 0
  {
    if token == [] then [[]]
    else
      var rest := SplitDots(token[1..]);
      if token[0] == '.' as int then [[]] + rest else [[token[0]] + rest[0]] + rest[1..]
  }

  const JWT_START: seq<Byte> := ['e' as int, 'y' as int, 'J' as int]

  predicate IsJwt(token: seq<Byte>) {
    var parts := SplitDots(token);
    && |parts| == 3 && |token| >= 24 && JWT_START <= parts[0]
    && forall k :: 0 <= k < 3 ==> |parts[k]| >= 6 && forall i :: 0 <= i < |parts[k]| ==> IsLabelByte(parts[k][i])
  }

  /** A web token that is all of the run of its bytes. */
  function JwtAt(bytes: seq<Byte>, start: nat): (r: Option<Span>)
    ensures r.Some? ==> start == r.value.start < r.value.end <= |bytes|
  {
    if start >= |bytes| || !IsTokenByte(bytes[start]) || (start > 0 && IsTokenByte(bytes[start - 1])) then None
    else
      var end := RunEnd(bytes, start, IsTokenByte);
      if IsJwt(bytes[start..end]) then Some(Span(start, end)) else None
  }

  const BEARER := "bearer"

  /** The token after the word that starts here. */
  function BearerAt(bytes: seq<Byte>, start: nat): (r: Option<Span>)
    ensures r.Some? ==> r.value.start < r.value.end <= |bytes|
  {
    if start >= |bytes| || !StartsWithAt(bytes, start, BEARER) then None
    else if start > 0 && IsAlphanumeric(bytes[start - 1]) then None
    else
      var after := start + 6;
      if after < |bytes| && IsAlphanumeric(bytes[after]) then None
      else
        var tokenStart := RunEnd(bytes, after, IsAsciiSpace);
        var end := RunEnd(bytes, tokenStart, IsTokenByte);
        if end - tokenStart >= 5 then Some(Span(tokenStart, end)) else None
  }

  predicate IsSensitiveLabel(name: string) {
    name in {"api_key", "apikey", "api-key", "x-api-key", "key", "token", "access_token", "access-token", "password",
             "passwd", "secret", "client_secret", "client-secret", "authorization", "auth"}
  }

  predicate IsHarmless(candidate: string) {
    || ByteLength(candidate) < 5 || (forall i :: 0 <= i < |candidate| ==> IsDigit(candidate[i]))
    || AsciiLower(candidate) in {"none", "null", "false", "true", "example", "placeholder", "redacted"}
    || "${" <= candidate || "{{" <= candidate || "[" <= candidate
  }

  predicate ShouldRedact(name: string, value: string) {
    var candidate := TrimEnd(TrimStart(value));
    !IsHarmless(candidate) && (name == "key" ==> ByteLength(candidate) >= 16)
  }

  /** Where a quoted value that starts at `start` ends. */
  function QuotedEnd(bytes: seq<Byte>, start: nat, i: nat, quote: Byte): (end: nat)
    requires start <= i <= |bytes|
    ensures i <= end <= |bytes| && (end < |bytes| ==> bytes[end] == quote)
    decreases |bytes| - i
  {
    if i == |bytes| || (bytes[i] == quote && (i == start || bytes[i - 1] != '\\' as int)) then i
    else QuotedEnd(bytes, start, i + 1, quote)
  }

  // ---- scanning characters ----

  /** A place where the text may be sliced. */
  predicate IsCut(text: string, i: nat) {
    i <= |Encode(text)| && IsBoundary(Encode(text), i)
  }

  lemma CutBehind(text: string, i: nat)
    requires i < |Encode(text)| && Encode(text)[i] < 0x80
    ensures IsCut(text, i) && IsCut(text, i + 1)
  {
    BehindAscii(text, i);
  }

  /** `skip_forward_whitespace` */
  function SkipForward(text: string, index: nat): (r: nat)
    requires IsCut(text, index)
    ensures index <= r && IsCut(text, r)
    decreases |Encode(text)| - index
  {
    var rest := Behind(text, index);
    if rest == "" || !IsWhitespace(rest[0]) then index
    else
      StepForward(text, index);
      SkipForward(text, index + Utf8Length(rest[0]))
  }

  predicate IsLabelSpacing(c: char) {
    IsWhitespace(c) || c == '"' || c == '\'' || c == '`'
  }

  /** `skip_backward_label_spacing` */
  function SkipBack(text: string, index: nat): (r: nat)
    requires IsCut(text, index)
    ensures r <= index && IsCut(text, r)
  {
    if index == 0 then 0
    else
      StepBack(text, index);
      var c := Before(text, index)[|Before(text, index)| - 1];
      if IsLabelSpacing(c) then SkipBack(text, index - Utf8Length(c)) else index
  }

  /** Past a leading `bearer` and the space behind it. */
  function PastBearer(text: string, start: nat): (r: nat)
    requires IsCut(text, start)
    ensures start <= r && IsCut(text, r)
  {
    if StartsWithAt(Encode(text), start, BEARER) then
      BearerCut(text, start);
      SkipForward(text, start + 6)
    else start
  }

  lemma BearerCut(text: string, start: nat)
    requires StartsWithAt(Encode(text), start, BEARER)
    ensures start + 6 <= |Encode(text)| && IsCut(text, start + 6)
  {
    assert LowerByte(Encode(text)[start + 5]) == BEARER[5] as int;
    CutBehind(text, start + 5);
  }

  /** Behind an opening quote, if there is one. */
  function Opened(text: string, first: nat): (r: nat)
    requires IsCut(text, first)
    ensures first <= r && IsCut(text, r)
  {
    if first < |Encode(text)| && IsQuote(Encode(text)[first]) then
      CutBehind(text, first);
      first + 1
    else first
  }

  function QuoteAt(bytes: seq<Byte>, i: nat): (quote: Option<Byte>)
    ensures quote.Some? ==> IsQuote(quote.value)
  {
    if i < |bytes| && IsQuote(bytes[i]) then Some(bytes[i]) else None
  }

  /** Where a value ends: at its quote, at a delimiter, or with the text. */
  function ValueEnd(text: string, start: nat, quote: Option<Byte>): (end: nat)
    requires IsCut(text, start) && (quote.Some? ==> IsQuote(quote.value))
    ensures start <= end && IsCut(text, end)
  {
    match quote
    case Some(q) => QuotedEnd(Encode(text), start, start, q)
    case None => RunEnd(Encode(text), start, NotDelimiter)
  }

  /** The value behind a separator, quoted or not. */
  function ValueAt(text: string, from: nat): (r: Span)
    requires IsCut(text, from)
    ensures from <= r.start <= r.end && IsCut(text, r.start) && IsCut(text, r.end)
  {
    var first := SkipForward(text, from);
    var start := PastBearer(text, Opened(text, first));
    Span(start, ValueEnd(text, start, QuoteAt(Encode(text), first)))
  }

  /** The label that ends before a place, and the spacing behind it. */
  function LabelAt(text: string, separator: nat): (r: Option<string>)
    requires IsCut(text, separator)
  {
    var labelEnd := SkipBack(text, separator);
    var labelStart := RunStart(Encode(text), labelEnd, IsLabelByte);
    if labelStart == labelEnd then None else Some(AsciiLower(Slice(text, labelStart, labelEnd)))
  }

  predicate IsSeparator(b: Byte) {
    b == '=' as int || b == ':' as int
  }

  /** The value assigned by the separator at this place, if its label is sensitive. */
  function AssignmentAt(text: string, separator: nat): (r: Option<Span>)
    ensures r.Some? ==> r.value.start <= r.value.end && IsCut(text, r.value.start) && IsCut(text, r.value.end)
  {
    if separator >= |Encode(text)| || !IsSeparator(Encode(text)[separator]) then None
    else
      CutBehind(text, separator);
      var name :- LabelAt(text, separator);
      if !IsSensitiveLabel(name) then None
      else
        var value := ValueAt(text, separator + 1);
        if ShouldRedact(name, Slice(text, value.start, value.end)) then Some(value) else None
  }

  // ---- collecting ----

  datatype Rule = Prefixed | Jwt | Bearer | Assignment

  function Find(rule: Rule, text: string, i: nat): Option<Span> {
    match rule
    case Prefixed => PrefixedAt(Encode(text), i)
    case Jwt => JwtAt(Encode(text), i)
    case Bearer => BearerAt(Encode(text), i)
    case Assignment => AssignmentAt(text, i)
  }

  /** What a rule finds at the places before `n`, in order. */
  function Found(rule: Rule, text: string, n: nat): seq<Span> {
    if n == 0 then []
    else Found(rule, text, n - 1) + (if Find(rule, text, n - 1).Some? then [Find(rule, text, n - 1).value] else [])
  }

  function FoundBy(rule: Rule, text: string): seq<Span> {
    Found(rule, text, |Encode(text)|)
  }

  /** Everything the four collectors find. */
  function Collected(text: string): seq<Span> {
    FoundBy(Prefixed, text) + FoundBy(Jwt, text) + FoundBy(Bearer, text) + FoundBy(Assignment, text)
  }

  /** The end of a run, scanned. */
  method ScanRun(bytes: seq<Byte>, start: nat, kind: Byte -> bool) returns (end: nat)
    requires start <= |bytes|
    ensures end == RunEnd(bytes, start, kind)
  {
    end := start;
    while end < |bytes| && kind(bytes[end])
      invariant start <= end <= |bytes| && RunEnd(bytes, end, kind) == RunEnd(bytes, start, kind)
    {
      end := end + 1;
    }
  }

  method CollectPrefixed(text: string, before: seq<Span>) returns (spans: seq<Span>)
    ensures spans == before + FoundBy(Prefixed, text)
  {
    hide PrefixAt, RunEnd, Encode, StartsWithAt;
    var bytes := Encode(text);
    spans := before;
    for start := 0 to |bytes|
      invariant spans == before + Found(Prefixed, text, start)
    {
      if start == 0 || !(IsAlphanumeric(bytes[start - 1]) || bytes[start - 1] == '_' as int) {
        var prefix := PrefixAt(bytes, start, 0);
        if prefix.Some? {
          StartFits(bytes, start, prefix.value);
          var end := ScanRun(bytes, start + |prefix.value|, IsTokenByte);
          if end - start > 12 { spans := spans + [Span(start, end)]; }
        }
      }
    }
  }

  lemma StartFits(bytes: seq<Byte>, start: nat, needle: string)
    requires StartsWithAt(bytes, start, needle)
    ensures start + |needle| <= |bytes|
  {
  }

  method CollectBearer(text: string, before: seq<Span>) returns (spans: seq<Span>)
    ensures spans == before + FoundBy(Bearer, text)
  {
    hide RunEnd, StartsWithAt, Encode;
    var bytes := Encode(text);
    spans := before;
    for start := 0 to |bytes|
      invariant spans == before + Found(Bearer, text, start)
    {
      if StartsWithAt(bytes, start, BEARER) && !(start > 0 && IsAlphanumeric(bytes[start - 1])) {
        StartFits(bytes, start, BEARER);
        if !(start + 6 < |bytes| && IsAlphanumeric(bytes[start + 6])) {
          var tokenStart := ScanRun(bytes, start + 6, IsAsciiSpace);
          var end := ScanRun(bytes, tokenStart, IsTokenByte);
          if end - tokenStart >= 5 { spans := spans + [Span(tokenStart, end)]; }
        }
      }
    }
  }

  method CollectAssignments(text: string, before: seq<Span>) returns (spans: seq<Span>)
    ensures spans == before + FoundBy(Assignment, text)
  {
    hide AssignmentAt, Encode;
    spans := before;
    for separator := 0 to |Encode(text)|
      invariant spans == before + Found(Assignment, text, separator)
    {
      var span := FindAssignment(text, separator);
      if span.Some? { spans := spans + [span.value]; }
    }
  }

  /** The value a separator assigns, scanned back to its label and forward to its end. */
  method FindAssignment(text: string, separator: nat) returns (span: Option<Span>)
    requires separator < |Encode(text)|
    ensures span == AssignmentAt(text, separator)
  {
    hide RunEnd, RunStart, ShouldRedact, IsSensitiveLabel, QuotedEnd, SkipForward, SkipBack, Encode, Slice,
         StartsWithAt, IsBoundary;
    var bytes := Encode(text);
    if !IsSeparator(bytes[separator]) { return None; }
    CutBehind(text, separator);
    var labelEnd := ScanSpacingBack(text, separator);
    var labelStart := ScanBack(bytes, labelEnd, IsLabelByte);
    if labelStart == labelEnd { return None; }
    CutBehind(text, labelStart);
    var name := AsciiLower(Slice(text, labelStart, labelEnd));
    if !IsSensitiveLabel(name) { return None; }
    var value := FindValue(text, separator + 1);
    if ShouldRedact(name, Slice(text, value.start, value.end)) { return Some(value); }
    span := None;
  }

  method FindValue(text: string, from: nat) returns (value: Span)
    requires IsCut(text, from)
    ensures value == ValueAt(text, from)
  {
    hide RunEnd, QuotedEnd, SkipForward, Encode, StartsWithAt, IsBoundary;
    var bytes := Encode(text);
    var start := ScanWhitespace(text, from);
    var quote := QuoteAt(bytes, start);
    if quote.Some? {
      CutBehind(text, start);
      start := start + 1;
    }
    if StartsWithAt(bytes, start, BEARER) {
      BearerCut(text, start);
      start := ScanWhitespace(text, start + 6);
    }
    var end;
    if quote.Some? {
      end := ScanQuoted(bytes, start, quote.value);
    } else {
      end := ScanRun(bytes, start, NotDelimiter);
    }
    value := Span(start, end);
  }

  method ScanWhitespace(text: string, from: nat) returns (index: nat)
    requires IsCut(text, from)
    ensures index == SkipForward(text, from)
  {
    hide Encode, Behind, IsBoundary, IsWhitespace;
    index := from;
    while true
      invariant IsCut(text, index) && SkipForward(text, index) == SkipForward(text, from)
      decreases |Encode(text)| - index
    {
      var rest := Behind(text, index);
      if rest == "" || !IsWhitespace(rest[0]) { return; }
      StepForward(text, index);
      index := index + Utf8Length(rest[0]);
    }
  }

  method ScanSpacingBack(text: string, from: nat) returns (index: nat)
    requires IsCut(text, from)
    ensures index == SkipBack(text, from)
  {
    hide Encode, Before, IsBoundary, IsLabelSpacing;
    index := from;
    while index > 0
      invariant IsCut(text, index) && SkipBack(text, index) == SkipBack(text, from)
    {
      StepBack(text, index);
      var before := Before(text, index);
      var c := before[|before| - 1];
      if !IsLabelSpacing(c) { return; }
      index := index - Utf8Length(c);
    }
  }

  method ScanBack(bytes: seq<Byte>, end: nat, kind: Byte -> bool) returns (start: nat)
    requires end <= |bytes|
    ensures start == RunStart(bytes, end, kind)
  {
    start := end;
    while start > 0 && kind(bytes[start - 1])
      invariant start <= end && RunStart(bytes, start, kind) == RunStart(bytes, end, kind)
    {
      start := start - 1;
    }
  }

  method ScanQuoted(bytes: seq<Byte>, start: nat, quote: Byte) returns (end: nat)
    requires start <= |bytes|
    ensures end == QuotedEnd(bytes, start, start, quote)
  {
    end := start;
    while end < |bytes| && !(bytes[end] == quote && (end == start || bytes[end - 1] != '\\' as int))
      invariant start <= end <= |bytes| && QuotedEnd(bytes, start, end, quote) == QuotedEnd(bytes, start, start, quote)
    {
      end := end + 1;
    }
  }

  lemma NoJwtAt(text: string, i: nat)
    requires 0 < i <= |Encode(text)| && IsTokenByte(Encode(text)[i - 1])
    ensures Find(Jwt, text, i) == None
  {
  }

  /** Nothing starts inside a run, so the scan may jump to its end. */
  lemma {:induction false} NoJwtInside(text: string, start: nat, k: nat)
    requires start < k <= |Encode(text)| && forall i :: start <= i < k ==> IsTokenByte(Encode(text)[i])
    ensures Found(Jwt, text, k) == Found(Jwt, text, start + 1)
  {
    hide Find, Encode;
    if k > start + 1 {
      NoJwtInside(text, start, k - 1);
      NoJwtAt(text, k - 1);
    }
  }

  method CollectJwts(text: string, before: seq<Span>) returns (spans: seq<Span>)
    ensures spans == before + FoundBy(Jwt, text)
  {
    hide IsJwt, RunEnd, Encode;
    var bytes := Encode(text);
    spans := before;
    var start := 0;
    while start < |bytes|
      invariant start <= |bytes| && spans == before + Found(Jwt, text, start)
      invariant start == 0 || start == |bytes| || !IsTokenByte(bytes[start - 1]) || !IsTokenByte(bytes[start])
    {
      if !IsTokenByte(bytes[start]) {
        start := start + 1;
      } else {
        var end := ScanRun(bytes, start, IsTokenByte);
        RunMoves(bytes, start);
        if IsJwt(bytes[start..end]) { spans := spans + [Span(start, end)]; }
        NoJwtInside(text, start, end);
        start := end;
      }
    }
  }

  lemma RunMoves(bytes: seq<Byte>, start: nat)
    requires start < |bytes| && IsTokenByte(bytes[start])
    ensures RunEnd(bytes, start, IsTokenByte) > start
  {
  }

  // ---- the boundary filter ----

  /** Both ends lie between characters. */
  predicate OnBoundaries(text: string, s: Span) {
    IsCut(text, s.start) && IsCut(text, s.end)
  }

  /** A run of token bytes ends between characters. */
  lemma TokenEnds(text: string, i: nat)
    requires 0 < i <= |Encode(text)| && Encode(text)[i - 1] < 0x80
    ensures IsCut(text, i)
  {
    CutBehind(text, i - 1);
  }

  lemma PrefixesAreAscii(prefix: string, k: nat)
    requires prefix in PREFIXES && k < |prefix|
    ensures prefix[k] < '\U{80}' && |prefix| > 0
  {
  }

  lemma PrefixedOn(text: string, i: nat)
    requires PrefixedAt(Encode(text), i).Some?
    ensures OnBoundaries(text, PrefixedAt(Encode(text), i).value)
  {
    hide Encode, RunEnd, PrefixAt;
    var bytes := Encode(text);
    var prefix := PrefixAt(bytes, i, 0).value;
    var end := RunEnd(bytes, i + |prefix|, IsTokenByte);
    PrefixesNonempty(prefix);
    PrefixesAreAscii(prefix, 0);
    PrefixesAreAscii(prefix, |prefix| - 1);
    assert LowerByte(bytes[i + 0]) == prefix[0] as int;
    assert LowerByte(bytes[i + (|prefix| - 1)]) == prefix[|prefix| - 1] as int;
    CutBehind(text, i);
    TokenEnds(text, end);
  }

  lemma PrefixesNonempty(prefix: string)
    requires prefix in PREFIXES
    ensures prefix != ""
  {
  }

  lemma JwtOn(text: string, i: nat)
    requires JwtAt(Encode(text), i).Some?
    ensures OnBoundaries(text, JwtAt(Encode(text), i).value)
  {
    hide Encode, RunEnd, IsJwt;
    CutBehind(text, i);
    TokenEnds(text, JwtAt(Encode(text), i).value.end);
  }

  lemma BearerOn(text: string, i: nat)
    requires BearerAt(Encode(text), i).Some?
    ensures OnBoundaries(text, BearerAt(Encode(text), i).value)
  {
    hide Encode, RunEnd, StartsWithAt;
    var bytes := Encode(text);
    var s := BearerAt(bytes, i).value;
    BearerCut(text, i);
    if s.start > i + 6 { TokenEnds(text, s.start); }
    TokenEnds(text, s.end);
  }

  lemma FindOn(rule: Rule, text: string, i: nat)
    requires Find(rule, text, i).Some?
    ensures OnBoundaries(text, Find(rule, text, i).value)
  {
    hide Encode, PrefixedAt, JwtAt, BearerAt, AssignmentAt;
    match rule
    case Prefixed => PrefixedOn(text, i);
    case Jwt => JwtOn(text, i);
    case Bearer => BearerOn(text, i);
    case Assignment =>
  }

  lemma {:induction false} FoundOn(rule: Rule, text: string, n: nat)
    ensures forall s :: s in Found(rule, text, n) ==> OnBoundaries(text, s)
  {
    hide Find, OnBoundaries;
    if n > 0 {
      FoundOn(rule, text, n - 1);
      if Find(rule, text, n - 1).Some? { FindOn(rule, text, n - 1); }
    }
  }

  /** The filter for character boundaries never drops a collected span. */
  lemma FilterDropsNone(text: string)
    ensures forall s :: s in Collected(text) ==> OnBoundaries(text, s)
  {
    hide Found, OnBoundaries, Encode;
    FoundOn(Prefixed, text, |Encode(text)|);
    FoundOn(Jwt, text, |Encode(text)|);
    FoundOn(Bearer, text, |Encode(text)|);
    FoundOn(Assignment, text, |Encode(text)|);
  }

  // ---- merging ----

  predicate Precedes(a: Span, b: Span) {
    a.start < b.start || (a.start == b.start && a.end <= b.end)
  }

  function Inserted(spans: seq<Span>, s: Span): seq<Span> {
    if spans == [] || Precedes(s, spans[0]) then [s] + spans else [spans[0]] + Inserted(spans[1..], s)
  }

  /** `sort_unstable`: by start, then by end. */
  function Sorted(spans: seq<Span>): seq<Span> {
    if spans == [] then [] else Inserted(Sorted(spans[1..]), spans[0])
  }

  /** A span that is empty or does not lie between characters is dropped; any other goes into the last one if it
      overlaps or touches it, and behind it if not. */
  function MergedWith(text: string, merged: seq<Span>, s: Span): seq<Span> {
    if s.start >= s.end || !OnBoundaries(text, s) then merged
    else if merged != [] && s.start <= merged[|merged| - 1].end then
      var last := merged[|merged| - 1];
      merged[..|merged| - 1] + [Span(last.start, if last.end < s.end then s.end else last.end)]
    else merged + [s]
  }

  function Merged(text: string, spans: seq<Span>): seq<Span> {
    if spans == [] then [] else MergedWith(text, Merged(text, spans[..|spans| - 1]), spans[|spans| - 1])
  }

  function CredentialSpans(text: string): seq<Span> {
    Merged(text, Sorted(Collected(text)))
  }

  method FindCredentialSpans(text: string) returns (merged: seq<Span>)
    ensures merged == CredentialSpans(text)
  {
    hide Found, Sorted, OnBoundaries;
    var spans := CollectPrefixed(text, []);
    spans := CollectJwts(text, spans);
    spans := CollectBearer(text, spans);
    spans := CollectAssignments(text, spans);
    assert spans == Collected(text);
    spans := Sorted(spans);
    merged := [];
    for i := 0 to |spans|
      invariant merged == Merged(text, spans[..i])
    {
      assert spans[..i + 1][..i] == spans[..i];
      var s := spans[i];
      if s.start < s.end && OnBoundaries(text, s) {
        var n := |merged| - 1;
        if n >= 0 && s.start <= merged[n].end {
          if merged[n].end < s.end { merged := merged[n := Span(merged[n].start, s.end)]; }
        } else {
          merged := merged + [s];
        }
      }
    }
    assert spans[..|spans|] == spans;
  }

  // ---- what merging keeps ----

  ghost predicate Covers(spans: seq<Span>, p: nat) {
    exists i :: 0 <= i < |spans| && Holds(spans[i], p)
  }

  predicate Holds(s: Span, p: nat) {
    s.start <= p < s.end
  }

  ghost predicate StartsInOrder(spans: seq<Span>) {
    forall i, j :: 0 <= i < j < |spans| ==> spans[i].start <= spans[j].start
  }

  /** Nonempty spans in order that neither overlap nor touch. */
  ghost predicate Apart(spans: seq<Span>) {
    && (forall i :: 0 <= i < |spans| ==> spans[i].start < spans[i].end)
    && (forall i, j :: 0 <= i < j < |spans| ==> spans[i].end < spans[j].start)
  }

  lemma {:induction false} InsertedMembers(spans: seq<Span>, s: Span)
    ensures forall x :: x in Inserted(spans, s) <==> x in spans || x == s
    ensures StartsInOrder(spans) ==> StartsInOrder(Inserted(spans, s))
  {
    if spans != [] && !Precedes(s, spans[0]) {
      InsertedMembers(spans[1..], s);
      assert spans == [spans[0]] + spans[1..];
      var tail := Inserted(spans[1..], s);
      if StartsInOrder(spans) {
        forall k | 0 <= k < |tail| ensures spans[0].start <= tail[k].start {
          assert tail[k] in tail;
          if tail[k] != s {
            var j :| 0 <= j < |spans[1..]| && spans[1..][j] == tail[k];
            assert spans[j + 1] == tail[k];
          }
        }
      }
    } else if spans != [] && StartsInOrder(spans) {
      forall k | 0 <= k < |spans| ensures s.start <= spans[k].start {
        assert k > 0 ==> spans[0].start <= spans[k].start;
      }
    }
  }

  lemma {:induction false} SortedMembers(spans: seq<Span>)
    ensures forall x :: x in Sorted(spans) <==> x in spans
    ensures StartsInOrder(Sorted(spans))
  {
    if spans != [] {
      SortedMembers(spans[1..]);
      InsertedMembers(Sorted(spans[1..]), spans[0]);
      assert spans == [spans[0]] + spans[1..];
    }
  }

  lemma CoversMembers(a: seq<Span>, b: seq<Span>, p: nat)
    requires forall x :: x in a ==> x in b
    ensures Covers(a, p) ==> Covers(b, p)
  {
    if Covers(a, p) {
      var i :| 0 <= i < |a| && Holds(a[i], p);
      assert a[i] in b;
      var j :| 0 <= j < |b| && b[j] == a[i];
    }
  }

  lemma CoversMore(spans: seq<Span>, s: Span, p: nat)
    ensures Covers(spans + [s], p) <==> Covers(spans, p) || Holds(s, p)
  {
    var all := spans + [s];
    assert all[|spans|] == s;
    if Covers(spans, p) {
      var i :| 0 <= i < |spans| && Holds(spans[i], p);
      assert all[i] == spans[i];
    }
  }

  ghost predicate AllOn(text: string, spans: seq<Span>) {
    forall s :: s in spans ==> OnBoundaries(text, s)
  }

  /** One merge adds exactly the span's positions, and the spans stay apart and between characters. */
  lemma MergeStep(text: string, merged: seq<Span>, s: Span)
    requires Apart(merged) && (merged != [] ==> merged[|merged| - 1].start <= s.start) && OnBoundaries(text, s)
    ensures var after := MergedWith(text, merged, s);
            && Apart(after) && (after != [] ==> after[|after| - 1].start <= s.start)
            && forall p :: Covers(after, p) <==> Covers(merged, p) || Holds(s, p)
  {
    hide OnBoundaries;
    if s.start >= s.end {
    } else if merged != [] && s.start <= merged[|merged| - 1].end {
      var n := |merged| - 1;
      var front, last := merged[..n], merged[n];
      var wider := Span(last.start, if last.end < s.end then s.end else last.end);
      assert merged == front + [last];
      forall p ensures Covers(front + [wider], p) <==> Covers(merged, p) || Holds(s, p) {
        CoversMore(front, last, p);
        CoversMore(front, wider, p);
      }
    } else {
      forall p ensures Covers(merged + [s], p) <==> Covers(merged, p) || Holds(s, p) { CoversMore(merged, s, p); }
    }
  }

  lemma MergeOn(text: string, merged: seq<Span>, s: Span)
    requires AllOn(text, merged)
    ensures AllOn(text, MergedWith(text, merged, s))
  {
    hide IsCut;
    if merged != [] { assert merged[|merged| - 1] in merged; }
  }

  lemma {:induction false} MergedOn(text: string, spans: seq<Span>)
    ensures AllOn(text, Merged(text, spans))
  {
    hide MergedWith, AllOn;
    if spans == [] {
      NothingOn(text);
    } else {
      MergedOn(text, spans[..|spans| - 1]);
      MergeOn(text, Merged(text, spans[..|spans| - 1]), spans[|spans| - 1]);
    }
  }

  lemma NothingOn(text: string)
    ensures AllOn(text, [])
  {
  }

  /** What merging achieves: spans apart that hold exactly the positions the given ones hold. */
  ghost predicate MergesTo(merged: seq<Span>, spans: seq<Span>) {
    Apart(merged) && LastStart(merged, spans) && forall p :: Covers(merged, p) <==> Covers(spans, p)
  }

  lemma {:induction false} MergedExactly(text: string, spans: seq<Span>)
    requires StartsInOrder(spans) && AllOn(text, spans)
    ensures MergesTo(Merged(text, spans), spans)
  {
    if spans == [] {
      assert Merged(text, spans) == [];
    } else {
      hide *;
      var front, last := spans[..|spans| - 1], spans[|spans| - 1];
      assert spans == front + [last];
      StartsFront(front, last);
      OnFront(text, front, last);
      MergedExactly(text, front);
      MergedMore(text, front, last);
    }
  }

  lemma MergedMore(text: string, front: seq<Span>, last: Span)
    requires StartsInOrder(front + [last]) && OnBoundaries(text, last)
    requires MergesTo(Merged(text, front), front)
    ensures MergesTo(Merged(text, front + [last]), front + [last])
  {
    hide Covers, Merged, MergedWith, Apart, OnBoundaries, StartsInOrder, LastStart, Holds;
    MergedLast(text, front, last);
    MergeStep(text, Merged(text, front), last);
    MergedSnoc(text, front, last);
    LastGives(Merged(text, front + [last]), front, last);
    forall p ensures Covers(Merged(text, front + [last]), p) <==> Covers(front + [last], p) {
      CoversMore(front, last, p);
    }
  }

  lemma OnFront(text: string, front: seq<Span>, last: Span)
    requires AllOn(text, front + [last])
    ensures AllOn(text, front) && OnBoundaries(text, last)
  {
    hide OnBoundaries;
    assert last in front + [last];
    forall s | s in front ensures OnBoundaries(text, s) { assert s in front + [last]; }
  }

  /** The last merged span starts no later than the last span. */
  ghost predicate LastStart(merged: seq<Span>, spans: seq<Span>) {
    spans != [] && merged != [] ==> merged[|merged| - 1].start <= spans[|spans| - 1].start
  }

  lemma LastGives(merged: seq<Span>, front: seq<Span>, last: Span)
    requires merged != [] ==> merged[|merged| - 1].start <= last.start
    ensures LastStart(merged, front + [last])
  {
  }

  lemma StartsFront(front: seq<Span>, last: Span)
    requires StartsInOrder(front + [last])
    ensures StartsInOrder(front)
  {
    var all := front + [last];
    forall i, j | 0 <= i < j < |front| ensures front[i].start <= front[j].start { assert all[i].start <= all[j].start; }
  }

  lemma MergedSnoc(text: string, front: seq<Span>, last: Span)
    ensures Merged(text, front + [last]) == MergedWith(text, Merged(text, front), last)
  {
    assert (front + [last])[..|front|] == front;
  }

  lemma MergedLast(text: string, front: seq<Span>, last: Span)
    requires StartsInOrder(front + [last]) && LastStart(Merged(text, front), front)
    ensures Merged(text, front) != [] ==> Merged(text, front)[|Merged(text, front)| - 1].start <= last.start
  {
    if front == [] {
      assert Merged(text, front) == [];
    } else {
      var all := front + [last];
      assert all[|front| - 1].start <= all[|front|].start;
    }
  }

  /** The merged spans lie apart and between characters, and hold exactly the positions the collectors' spans hold. */
  lemma SpansAreExact(text: string)
    ensures Apart(CredentialSpans(text)) && AllOn(text, CredentialSpans(text))
    ensures forall p :: Covers(CredentialSpans(text), p) <==> Covers(Collected(text), p)
  {
    hide Collected, Sorted, Merged, Covers, OnBoundaries, LastStart, Apart;
    var spans := Collected(text);
    SortedMembers(spans);
    FilterDropsNone(text);
    MergedOn(text, Sorted(spans));
    MergedExactly(text, Sorted(spans));
    forall p ensures Covers(Sorted(spans), p) <==> Covers(spans, p) {
      CoversMembers(Sorted(spans), spans, p);
      CoversMembers(spans, Sorted(spans), p);
    }
  }

  /** Of a character either every byte is in a merged span or none is. */
  lemma CharactersWhole(text: string, k: nat, p: nat)
    requires k < |text| && |Encode(text[..k])| <= p < |Encode(text[..k])| + Utf8Length(text[k])
    ensures Covers(CredentialSpans(text), p) <==> Covers(CredentialSpans(text), |Encode(text[..k])|)
  {
    hide CredentialSpans, Encode, IsBoundary;
    var spans, first := CredentialSpans(text), |Encode(text[..k])|;
    SpansAreExact(text);
    forall i: nat | first < i <= p ensures !IsCut(text, i) { NoBoundaryInside(text, k, i); }
    forall s | s in spans ensures Holds(s, p) <==> Holds(s, first) { }
    CoversSame(spans, p, first);
  }

  lemma CoversSame(spans: seq<Span>, p: nat, q: nat)
    requires forall s :: s in spans ==> (Holds(s, p) <==> Holds(s, q))
    ensures Covers(spans, p) <==> Covers(spans, q)
  {
  }

  // ---- redaction ----

  /** The spans lie apart and between characters, behind the cursor. */
  ghost predicate Within(text: string, cursor: nat, spans: seq<Span>) {
    && IsCut(text, cursor) && Apart(spans) && AllOn(text, spans)
    && forall i :: 0 <= i < |spans| ==> cursor <= spans[i].start
  }

  lemma WithinFirst(text: string, cursor: nat, spans: seq<Span>)
    requires Within(text, cursor, spans) && spans != []
    ensures cursor <= spans[0].start < spans[0].end && OnBoundaries(text, spans[0])
    ensures Within(text, spans[0].end, spans[1..])
  {
    hide IsCut;
    assert spans[0] in spans;
    var rest := spans[1..];
    forall s | s in rest ensures s in spans { }
    forall i, j | 0 <= i < j < |rest| ensures rest[i].end < rest[j].start {
      assert spans[i + 1].end < spans[j + 1].start;
    }
    forall i | 0 <= i < |rest| ensures spans[0].end <= rest[i].start && rest[i].start < rest[i].end {
      assert rest[i] == spans[i + 1];
      assert spans[0].end < spans[i + 1].start;
    }
  }

  /** From the cursor on: the text between the spans, and a marker for every span. */
  function RedactedFrom(text: string, cursor: nat, spans: seq<Span>): string
    requires Within(text, cursor, spans)
    decreases |spans|
  {
    if spans == [] then Behind(text, cursor)
    else
      WithinFirst(text, cursor, spans);
      Slice(text, cursor, spans[0].start) + REDACTED + RedactedFrom(text, spans[0].end, spans[1..])
  }

  /** The byte lies in a gap that is left as it is. */
  ghost predicate InGap(spans: seq<Span>, cursor: nat, p: nat)
    decreases |spans|
  {
    if spans == [] then cursor <= p
    else cursor <= p < spans[0].start || InGap(spans[1..], spans[0].end, p)
  }

  lemma {:induction false} GapsUncovered(text: string, spans: seq<Span>, cursor: nat, p: nat)
    requires Within(text, cursor, spans) && cursor <= p
    ensures InGap(spans, cursor, p) <==> !Covers(spans, p)
    decreases |spans|
  {
    hide IsCut, AllOn;
    if spans != [] {
      var tail := spans[1..];
      assert spans == [spans[0]] + tail;
      WithinFirst(text, cursor, spans);
      CoversHead(spans[0], tail, p);
      if p >= spans[0].end {
        GapsUncovered(text, tail, spans[0].end, p);
      } else {
        NotBefore(tail, spans[0].end, p);
      }
    }
  }

  lemma CoversHead(s: Span, tail: seq<Span>, p: nat)
    ensures Covers([s] + tail, p) <==> Holds(s, p) || Covers(tail, p)
  {
    var all := [s] + tail;
    assert all[0] == s;
    if Covers(tail, p) {
      var i :| 0 <= i < |tail| && Holds(tail[i], p);
      assert all[i + 1] == tail[i];
    }
  }

  /** Gaps and spans that start no earlier than the cursor say nothing of positions before it. */
  lemma {:induction false} NotBefore(spans: seq<Span>, cursor: nat, p: nat)
    requires p < cursor && Apart(spans) && forall i :: 0 <= i < |spans| ==> cursor <= spans[i].start
    ensures !InGap(spans, cursor, p) && !Covers(spans, p)
    decreases |spans|
  {
    if spans != [] { NotBefore(spans[1..], spans[0].end, p); }
  }

  lemma SpansWithin(text: string)
    ensures Within(text, 0, CredentialSpans(text))
  {
    hide CredentialSpans, Collected;
    SpansAreExact(text);
  }

  function Redacted(text: string): string {
    SpansWithin(text);
    RedactedFrom(text, 0, CredentialSpans(text))
  }

  /** `redact_sensitive_text` */
  method Redact(text: string) returns (output: string)
    ensures output == Redacted(text)
  {
    hide CredentialSpans, Slice, Behind, Within, RedactedFrom, Encode, IsBoundary;
    var spans := FindCredentialSpans(text);
    SpansWithin(text);
    if spans == [] {
      NothingRedacted(text, 0);
      return text;
    }
    output := "";
    var cursor: nat := 0;
    for i := 0 to |spans|
      invariant Within(text, cursor, spans[i..])
      invariant output + RedactedFrom(text, cursor, spans[i..]) == RedactedFrom(text, 0, spans)
    {
      var start, end := spans[i].start, spans[i].end;
      WithinTail(text, cursor, spans, i);
      if start < cursor { continue; }
      output := output + Slice(text, cursor, start) + REDACTED;
      cursor := end;
    }
    assert spans[|spans|..] == [];
    NothingRedacted(text, cursor);
    output := output + Behind(text, cursor);
  }

  lemma NothingRedacted(text: string, cursor: nat)
    requires Within(text, cursor, [])
    ensures IsCut(text, cursor) && RedactedFrom(text, cursor, []) == Behind(text, cursor)
    ensures cursor == 0 ==> Behind(text, cursor) == text
  {
  }

  lemma WithinTail(text: string, cursor: nat, spans: seq<Span>, i: nat)
    requires i < |spans| && Within(text, cursor, spans[i..])
    ensures cursor <= spans[i].start <= spans[i].end && IsCut(text, cursor) && OnBoundaries(text, spans[i])
    ensures Within(text, spans[i].end, spans[i + 1..])
    ensures RedactedFrom(text, cursor, spans[i..])
         == Slice(text, cursor, spans[i].start) + REDACTED + RedactedFrom(text, spans[i].end, spans[i + 1..])
  {
    hide Slice, Apart, AllOn;
    var here := spans[i..];
    assert here[0] == spans[i] && here[1..] == spans[i + 1..];
    WithinFirst(text, cursor, here);
  }

  /** A byte survives redaction exactly if no collector's span holds it. */
  lemma SurvivesUncovered(text: string, p: nat)
    ensures InGap(CredentialSpans(text), 0, p) <==> !Covers(Collected(text), p)
  {
    hide CredentialSpans, Collected;
    SpansWithin(text);
    SpansAreExact(text);
    GapsUncovered(text, CredentialSpans(text), 0, p);
  }

  /** What redaction leaves, in bytes: the gaps, and the marker for every span. */
  ghost function GapBytes(bytes: seq<Byte>, cursor: nat, spans: seq<Span>): seq<Byte>
    decreases |spans|
  {
    if spans == [] then Cut(bytes, cursor, |bytes|)
    else Cut(bytes, cursor, spans[0].start) + Encode(REDACTED) + GapBytes(bytes, spans[0].end, spans[1..])
  }

  ghost function Cut(bytes: seq<Byte>, i: nat, j: nat): seq<Byte> {
    if i <= j <= |bytes| then bytes[i..j] else []
  }

  /** The redacted text is, byte for byte, the gaps of the text with one marker for every span. */
  lemma {:induction false} RedactedBytes(text: string, cursor: nat, spans: seq<Span>)
    requires Within(text, cursor, spans)
    ensures Encode(RedactedFrom(text, cursor, spans)) == GapBytes(Encode(text), cursor, spans)
    decreases |spans|
  {
    hide Encode, IsBoundary, Apart, AllOn;
    if spans == [] {
      NothingRedacted(text, cursor);
    } else {
      WithinFirst(text, cursor, spans);
      var gap, rest := Slice(text, cursor, spans[0].start), RedactedFrom(text, spans[0].end, spans[1..]);
      RedactedBytes(text, spans[0].end, spans[1..]);
      EncodeJoin(gap + REDACTED, rest);
      EncodeJoin(gap, REDACTED);
    }
  }

  lemma {:induction false} GapBytesLength(text: string, cursor: nat, spans: seq<Span>)
    requires Within(text, cursor, spans)
    ensures |GapBytes(Encode(text), cursor, spans)| <= 11 * (|Encode(text)| - cursor)
    decreases |spans|
  {
    hide Encode, IsBoundary, Apart, AllOn;
    if spans != [] {
      WithinFirst(text, cursor, spans);
      GapBytesLength(text, spans[0].end, spans[1..]);
      EncodeLength(REDACTED);
      AsciiLength(REDACTED);
    }
  }

  /** A marker is at most ten times as long as what it stands for. */
  lemma RedactedLength(text: string)
    ensures ByteLength(Redacted(text)) <= 11 * ByteLength(text)
  {
    hide Encode, CredentialSpans, Within;
    SpansWithin(text);
    RedactedBytes(text, 0, CredentialSpans(text));
    GapBytesLength(text, 0, CredentialSpans(text));
    EncodeLength(text);
    EncodeLength(Redacted(text));
  }
}
