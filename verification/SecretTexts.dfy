/** Redaction in terms of texts: which tokens and which assigned values are caught, and which texts are left alone,
    without a word about how the collectors scan. */
module SecretTexts {
  import opened Text
  import opened TextTables
  import opened Utf8
  import opened Secrets

  // ---- characters ----

  predicate Alnum(c: char) {
    'a' <= c <= 'z' || 'A' <= c <= 'Z' || '0' <= c <= '9'
  }

  predicate LabelChar(c: char) {
    Alnum(c) || c == '_' || c == '-'
  }

  predicate TokenChar(c: char) {
    LabelChar(c) || c == '.'
  }

  predicate SpaceChar(c: char) {
    c in " \t\n\U{0C}\r"
  }

  predicate QuoteChar(c: char) {
    c in "\"'`"
  }

  /** Where an unquoted value ends. */
  predicate DelimiterChar(c: char) {
    SpaceChar(c) || QuoteChar(c) || c in ",;&}])"
  }

  predicate AllTokens(s: string) {
    forall i :: 0 <= i < |s| ==> TokenChar(s[i])
  }

  predicate Last(s: string, kind: char -> bool) {
    s != "" && kind(s[|s| - 1])
  }

  predicate First(s: string, kind: char -> bool) {
    s != "" && kind(s[0])
  }

  lemma ClassesAgree(c: char)
    requires c < '\U{80}'
    ensures var b: Byte := c as int;
            && (IsAlphanumeric(b) <==> Alnum(c)) && (IsLabelByte(b) <==> LabelChar(c))
            && (IsTokenByte(b) <==> TokenChar(c))
            && (IsAsciiSpace(b) <==> SpaceChar(c)) && (IsQuote(b) <==> QuoteChar(c))
            && (NotDelimiter(b) <==> !DelimiterChar(c))
  {
  }

  lemma HighBytes(b: Byte)
    requires b >= 0x80
    ensures !IsAlphanumeric(b) && !IsLabelByte(b) && !IsTokenByte(b)
    ensures !IsAsciiSpace(b) && !IsQuote(b) && NotDelimiter(b)
  {
  }

  /** The bytes of a text over ASCII are its characters. */
  predicate Ascii(s: string) {
    forall i :: 0 <= i < |s| ==> s[i] < '\U{80}'
  }

  lemma {:induction false} AsciiBytes(s: string)
    requires Ascii(s)
    ensures |Encode(s)| == |s| && forall i :: 0 <= i < |s| ==> Encode(s)[i] == s[i] as int
  {
    if s != "" {
      AsciiBytes(s[1..]);
      EncodeFirst(s);
    }
  }

  /** Where the parts of a joined text lie. */
  lemma PartAt(a: string, b: string, c: string)
    requires Ascii(b)
    ensures var bytes, n := Encode(a + b + c), |Encode(a)|;
            && n + |b| <= |bytes| && bytes[..n] == Encode(a) && bytes[n + |b|..] == Encode(c)
            && forall i :: n <= i < n + |b| ==> bytes[i] == b[i - n] as int
  {
    hide Encode;
    AsciiBytes(b);
    EncodeJoin(a, b);
    EncodeJoin(a + b, c);
    var bytes, n := Encode(a + b + c), |Encode(a)|;
    assert bytes == Encode(a) + Encode(b) + Encode(c);
    forall i | n <= i < n + |b| ensures bytes[i] == b[i - n] as int { assert bytes[i] == Encode(b)[i - n]; }
  }

  /** The first byte of what follows, and the last byte of what comes before. */
  lemma FirstByte(s: string)
    requires s != ""
    ensures Encode(s) != []
    ensures if s[0] < '\U{80}' then Encode(s)[0] == s[0] as int else Encode(s)[0] >= 0x80
  {
    EncodeFirst(s);
  }

  lemma LastByte(s: string)
    requires s != ""
    ensures Encode(s) != []
    ensures var b := Encode(s)[|Encode(s)| - 1]; if s[|s| - 1] < '\U{80}' then b == s[|s| - 1] as int else b >= 0x80
  {
    hide Encode;
    var front, last := s[..|s| - 1], s[|s| - 1];
    assert s == front + [last];
    EncodeJoin(front, [last]);
    LoneCharacter(last);
  }

  // ---- case ----

  lemma AnyCaseAscii(s: string, word: string)
    requires LowerWord(word) && AnyCase(s, word)
    ensures Ascii(s)
  {
    forall i | 0 <= i < |s| ensures s[i] < '\U{80}' { assert SameLetter(s[i], word[i]); }
  }

  /** In bytes, the word stands at the offset of an ASCII part exactly if the part begins with it in any case. */
  lemma StandsAt(a: string, b: string, c: string, word: string)
    requires LowerWord(word) && Ascii(b) && |word| <= |b|
    ensures StartsWithAt(Encode(a + b + c), |Encode(a)|, word) <==> AnyCase(b[..|word|], word)
  {
    hide Encode;
    PartAt(a, b, c);
    var bytes, n := Encode(a + b + c), |Encode(a)|;
    forall k | 0 <= k < |word| ensures LowerByte(bytes[n + k]) == word[k] as int <==> SameLetter(b[k], word[k]) {
      assert bytes[n + k] == b[k] as int;
    }
    if AnyCase(b[..|word|], word) {
      forall k | 0 <= k < |word| ensures SameLetter(b[k], word[k]) { assert b[..|word|][k] == b[k]; }
    }
    if StartsWithAt(bytes, n, word) {
      forall k | 0 <= k < |word| ensures SameLetter(b[..|word|][k], word[k]) {
        assert LowerByte(bytes[n + k]) == word[k] as int;
      }
    }
  }

  // ---- runs ----

  lemma RunStops(bytes: seq<Byte>, start: nat, end: nat, kind: Byte -> bool)
    requires start <= end <= |bytes| && forall k :: start <= k < end ==> kind(bytes[k])
    requires end == |bytes| || !kind(bytes[end])
    ensures RunEnd(bytes, start, kind) == end
  {
    hide RunEnd;
  }

  lemma FirstOf(bytes: seq<Byte>, n: nat, c: string)
    requires n <= |bytes| && bytes[n..] == Encode(c)
    ensures c == "" <==> n == |bytes|
    ensures n < |bytes| ==> Encode(c) != [] && bytes[n] == Encode(c)[0]
  {
    if c != "" { FirstByte(c); }
  }

  lemma PartKind(a: string, b: string, c: string, kind: Byte -> bool)
    requires Ascii(b) && forall i :: 0 <= i < |b| ==> kind(b[i] as int)
    ensures var bytes, n := Encode(a + b + c), |Encode(a)|;
            n + |b| <= |bytes| && bytes[n + |b|..] == Encode(c) && forall i :: n <= i < n + |b| ==> kind(bytes[i])
  {
    hide Encode;
    PartAt(a, b, c);
    var bytes, n := Encode(a + b + c), |Encode(a)|;
    forall i | n <= i < n + |b| ensures kind(bytes[i]) { assert bytes[i] == b[i - n] as int; }
  }

  /** From anywhere in an ASCII part of one kind of bytes the run ends where the part does, if what follows is of
      another. */
  lemma RunOver(a: string, b: string, c: string, skip: nat, kind: Byte -> bool)
    requires Ascii(b) && (forall i :: 0 <= i < |b| ==> kind(b[i] as int)) && skip <= |b|
    requires c == "" || (Encode(c) != [] && !kind(Encode(c)[0]))
    ensures |Encode(a)| + skip <= |Encode(a + b + c)|
    ensures RunEnd(Encode(a + b + c), |Encode(a)| + skip, kind) == |Encode(a)| + |b|
  {
    hide Encode, RunEnd;
    PartKind(a, b, c, kind);
    var bytes, n := Encode(a + b + c), |Encode(a)|;
    FirstOf(bytes, n + |b|, c);
    RunStops(bytes, n + skip, n + |b|, kind);
  }

  lemma {:induction false} RunBack(bytes: seq<Byte>, from: nat, i: nat, kind: Byte -> bool)
    requires from <= i <= |bytes| && forall k :: from <= k < i ==> kind(bytes[k])
    requires from == 0 || !kind(bytes[from - 1])
    ensures RunStart(bytes, i, kind) == from
  {
    if i > from { RunBack(bytes, from, i - 1, kind); }
  }

  // ---- what is found is covered ----

  lemma {:induction false} FoundHas(rule: Rule, text: string, i: nat, n: nat)
    requires i < n && Find(rule, text, i).Some?
    ensures Find(rule, text, i).value in Found(rule, text, n)
  {
    hide Find;
    if i < n - 1 { FoundHas(rule, text, i, n - 1); }
  }

  /** Every byte of a span a rule finds is one the collected spans hold. */
  lemma FoundCovers(rule: Rule, text: string, i: nat, p: nat)
    requires i < |Encode(text)| && Find(rule, text, i).Some? && Holds(Find(rule, text, i).value, p)
    ensures Covers(Collected(text), p)
  {
    hide Find, Found, Encode;
    FoundHas(rule, text, i, |Encode(text)|);
    var s := Find(rule, text, i).value;
    assert s in FoundBy(rule, text) && s in Collected(text);
    var k :| 0 <= k < |Collected(text)| && Collected(text)[k] == s;
  }

  // ---- tokens of known families ----

  const FAMILIES: seq<string> := ["sk-", "ghp_", "github_pat_", "xoxb-", "xoxp-", "hf_", "akia", "aiza"]

  predicate BeginsFamily(token: string) {
    exists k :: 0 <= k < |FAMILIES| && BeginsWith(token, FAMILIES[k])
  }

  predicate BeginsWith(s: string, word: string) {
    |s| >= |word| && AnyCase(s[..|word|], word)
  }

  lemma FamiliesPlain(k: nat)
    requires k < |FAMILIES|
    ensures FAMILIES[k] == PREFIXES[k] && LowerWord(FAMILIES[k]) && AllTokens(FAMILIES[k]) && 3 <= |FAMILIES[k]| <= 11
  {
  }

  lemma TokensAscii(s: string)
    requires AllTokens(s)
    ensures Ascii(s) && forall i :: 0 <= i < |s| ==> s[i] < '\U{80}' && IsTokenByte(s[i] as int)
  {
    forall i | 0 <= i < |s| ensures s[i] < '\U{80}' && IsTokenByte(s[i] as int) {
      assert TokenChar(s[i]);
      ClassesAgree(s[i]);
    }
  }

  lemma NoTokenFirst(c: string)
    requires !First(c, TokenChar)
    ensures c == "" || (Encode(c) != [] && !IsTokenByte(Encode(c)[0]))
  {
    if c != "" {
      FirstByte(c);
      if c[0] < '\U{80}' { ClassesAgree(c[0]); } else { HighBytes(Encode(c)[0]); }
    }
  }

  /** The byte before the offset of a part is the last one in front of it. */
  lemma ByteBefore(a: string, rest: string)
    requires a != ""
    ensures Encode(a) != [] && |Encode(a)| <= |Encode(a + rest)|
    ensures Encode(a + rest)[|Encode(a)| - 1] == Encode(a)[|Encode(a)| - 1]
  {
    hide Encode;
    EncodeJoin(a, rest);
    LastByte(a);
  }

  lemma {:induction false} PrefixSome(bytes: seq<Byte>, start: nat, j: nat, k: nat)
    requires j <= k < |PREFIXES| && StartsWithAt(bytes, start, PREFIXES[k])
    ensures PrefixAt(bytes, start, j).Some?
    decreases k - j
  {
    hide StartsWithAt;
    if !StartsWithAt(bytes, start, PREFIXES[j]) { PrefixSome(bytes, start, j + 1, k); }
  }

  /** No prefix is longer than the token it stands at the start of. */
  lemma PrefixInside(a: string, token: string, c: string, word: string)
    requires AllTokens(token) && !First(c, TokenChar) && LowerWord(word) && AllTokens(word)
    requires StartsWithAt(Encode(a + token + c), |Encode(a)|, word)
    ensures |word| <= |token|
  {
    hide Encode;
    TokensAscii(token);
    TokensAscii(word);
    PartAt(a, token, c);
    NoTokenFirst(c);
    var bytes, n := Encode(a + token + c), |Encode(a)|;
    if |word| > |token| {
      var k := |token|;
      assert LowerByte(bytes[n + k]) == word[k] as int && IsTokenByte(word[k] as int);
      FirstOf(bytes, n + k, c);
    }
  }

  /** A run of token characters is caught exactly if it begins like a token of a known family, in any case, at the start
      of a word, and is longer than twelve. */
  lemma FamilyExactly(front: string, token: string, after: string)
    requires token != "" && AllTokens(token) && !First(after, TokenChar)
    ensures var n := |Encode(front)|;
            PrefixedAt(Encode(front + token + after), n)
            == if !Last(front, c => Alnum(c) || c == '_') && BeginsFamily(token) && |token| > 12
               then Some(Span(n, n + |token|)) else None
  {
    hide *;
    var bytes, n := Encode(front + token + after), |Encode(front)|;
    TokensAscii(token);
    PartAt(front, token, after);
    FamilyFront(front, token, after);
    FamilyPrefix(front, token, after);
    var found := PrefixAt(bytes, n, 0);
    if found.Some? { FamilyRun(front, token, after, found.value); }
    PrefixedIs(bytes, n, found, n + |token|);
  }

  lemma PrefixedIs(bytes: seq<Byte>, start: nat, prefix: Option<string>, end: nat)
    requires start < |bytes| && prefix == PrefixAt(bytes, start, 0)
    requires prefix.Some? ==>
               start + |prefix.value| <= |bytes| && RunEnd(bytes, start + |prefix.value|, IsTokenByte) == end
    ensures PrefixedAt(bytes, start)
         == if !(start > 0 && (IsAlphanumeric(bytes[start - 1]) || bytes[start - 1] == '_' as int)) && prefix.Some?
               && end - start > 12
            then Some(Span(start, end)) else None
  {
    hide PrefixAt, RunEnd, IsAlphanumeric, StartsWithAt, IsTokenByte, PREFIXES;
  }

  /** A listed prefix stands at the start of the token exactly if the token begins like one of a known family. */
  lemma FamilyPrefix(front: string, token: string, after: string)
    requires AllTokens(token) && !First(after, TokenChar)
    ensures var found := PrefixAt(Encode(front + token + after), |Encode(front)|, 0);
            && (found.Some? <==> BeginsFamily(token)) && (found.Some? ==> |found.value| <= |token|)
  {
    hide Encode, PrefixAt, StartsWithAt, AnyCase, AllTokens, LowerWord, TokenChar;
    var bytes, n := Encode(front + token + after), |Encode(front)|;
    TokensAscii(token);
    var found := PrefixAt(bytes, n, 0);
    if found.Some? {
      var k :| 0 <= k < |PREFIXES| && PREFIXES[k] == found.value;
      FamiliesPlain(k);
      PrefixInside(front, token, after, found.value);
      StandsAt(front, token, after, found.value);
      assert BeginsWith(token, FAMILIES[k]);
    } else if BeginsFamily(token) {
      var k :| 0 <= k < |FAMILIES| && BeginsWith(token, FAMILIES[k]);
      FamiliesPlain(k);
      StandsAt(front, token, after, FAMILIES[k]);
      PrefixSome(bytes, n, 0, k);
    }
  }

  lemma FamilyFront(front: string, token: string, after: string)
    requires token != ""
    ensures var bytes, n := Encode(front + token + after), |Encode(front)|;
            n <= |bytes| && (n > 0 && (IsAlphanumeric(bytes[n - 1]) || bytes[n - 1] == '_' as int)
                             <==> Last(front, c => Alnum(c) || c == '_'))
  {
    hide Encode;
    assert front + token + after == front + (token + after);
    EncodeJoin(front, token + after);
    if front != "" {
      ByteBefore(front, token + after);
      LastByte(front);
      var c := front[|front| - 1];
      if c < '\U{80}' { ClassesAgree(c); } else { HighBytes(Encode(front)[|Encode(front)| - 1]); }
    } else {
      AsciiBytes("");
    }
  }

  /** Behind a prefix of the token, the run ends where the token does. */
  lemma FamilyRun(front: string, token: string, after: string, prefix: string)
    requires AllTokens(token) && !First(after, TokenChar) && |prefix| <= |token|
    ensures |Encode(front)| + |prefix| <= |Encode(front + token + after)|
    ensures RunEnd(Encode(front + token + after), |Encode(front)| + |prefix|, IsTokenByte) == |Encode(front)| + |token|
  {
    hide *;
    TokensAscii(token);
    NoTokenFirst(after);
    RunOver(front, token, after, |prefix|, IsTokenByte);
  }

  /** A token of a known family is covered whole. */
  lemma FamilyCaught(front: string, token: string, after: string, p: nat)
    requires AllTokens(token) && |token| > 12 && BeginsFamily(token) && !First(after, TokenChar)
    requires !Last(front, c => Alnum(c) || c == '_')
    requires |Encode(front)| <= p < |Encode(front)| + |token|
    ensures Covers(Collected(front + token + after), p)
  {
    hide Encode, PrefixedAt, BeginsFamily, Covers, Collected;
    FamilyExactly(front, token, after);
    TokensAscii(token);
    PartAt(front, token, after);
    FoundCovers(Prefixed, front + token + after, |Encode(front)|, p);
  }

  // ---- bearer tokens ----

  lemma BearerIs(bytes: seq<Byte>, start: nat, tokenStart: nat, end: nat)
    requires start + 6 <= |bytes| && StartsWithAt(bytes, start, "bearer")
    requires tokenStart == RunEnd(bytes, start + 6, IsAsciiSpace) && end == RunEnd(bytes, tokenStart, IsTokenByte)
    ensures BearerAt(bytes, start)
         == if !(start > 0 && IsAlphanumeric(bytes[start - 1]))
               && !(start + 6 < |bytes| && IsAlphanumeric(bytes[start + 6])) && end - tokenStart >= 5
            then Some(Span(tokenStart, end)) else None
  {
    hide RunEnd, IsAlphanumeric, StartsWithAt, IsAsciiSpace, IsTokenByte;
  }

  predicate AllSpaces(s: string) {
    forall i :: 0 <= i < |s| ==> SpaceChar(s[i])
  }

  lemma SpacesAscii(s: string)
    requires AllSpaces(s)
    ensures Ascii(s) && forall i :: 0 <= i < |s| ==> s[i] < '\U{80}' && IsAsciiSpace(s[i] as int)
  {
    forall i | 0 <= i < |s| ensures s[i] < '\U{80}' && IsAsciiSpace(s[i] as int) { assert SpaceChar(s[i]); }
  }

  /** No other kind of byte stands where a token begins. */
  lemma TokenFirst(token: string)
    requires token != "" && AllTokens(token)
    ensures Encode(token) != [] && Encode(token)[0] == token[0] as int && token[0] < '\U{80}'
    ensures !IsAsciiSpace(token[0] as int) && !IsQuote(token[0] as int)
    ensures IsAlphanumeric(token[0] as int) <==> Alnum(token[0])
  {
    hide Encode;
    assert TokenChar(token[0]);
    ClassesAgree(token[0]);
    FirstByte(token);
  }

  lemma FrontAlnum(front: string, rest: string)
    ensures var bytes, n := Encode(front + rest), |Encode(front)|;
            n <= |bytes| && (n > 0 && IsAlphanumeric(bytes[n - 1]) <==> Last(front, Alnum))
  {
    hide Encode;
    EncodeJoin(front, rest);
    if front != "" {
      ByteBefore(front, rest);
      LastByte(front);
      var c := front[|front| - 1];
      if c < '\U{80}' { ClassesAgree(c); } else { HighBytes(Encode(front)[|Encode(front)| - 1]); }
    } else {
      AsciiBytes("");
    }
  }

  lemma Regroup4(a: string, b: string, c: string, d: string, e: string)
    ensures a + b + c + d + e == a + b + (c + d + e)
    ensures a + b + c + d + e == (a + b) + c + (d + e)
    ensures a + b + c + d + e == (a + b + c) + d + e
    ensures a + b + c + d + e == a + (b + c + d + e)
  {
  }

  lemma TokenOrSpaces(gap: string, token: string, after: string)
    requires AllSpaces(gap) && token != "" && AllTokens(token)
    ensures var c := if gap == "" then token[0] else gap[0];
            && c < '\U{80}' && Encode(gap + token + after) != [] && Encode(gap + token + after)[0] == c as int
            && (IsAlphanumeric(c as int) <==> gap == "" && Alnum(token[0]))
  {
    hide Encode;
    FirstByte(gap + token + after);
    TokenFirst(token);
    if gap != "" { assert SpaceChar(gap[0]); }
    assert (gap + token + after)[0] == if gap == "" then token[0] else gap[0];
  }

  function BearerText(front: string, word: string, gap: string, token: string, after: string): string {
    front + word + gap + token + after
  }

  /** Behind the word, in any case and as a word, a run of at least five token characters is caught. */
  lemma BearerExactly(front: string, word: string, gap: string, token: string, after: string)
    requires AnyCase(word, "bearer") && AllSpaces(gap) && token != "" && AllTokens(token) && !First(after, TokenChar)
    ensures var n := |Encode(front)| + 6 + |gap|;
            BearerAt(Encode(BearerText(front, word, gap, token, after)), |Encode(front)|)
            == if !Last(front, Alnum) && !(gap == "" && Alnum(token[0])) && |token| >= 5
               then Some(Span(n, n + |token|)) else None
  {
    hide *;
    var bytes, n := Encode(BearerText(front, word, gap, token, after)), |Encode(front)|;
    BearerStart(front, word, gap, token, after);
    BearerGap(front, word, gap, token, after);
    BearerToken(front, word, gap, token, after);
    BearerIs(bytes, n, n + 6 + |gap|, n + 6 + |gap| + |token|);
  }

  lemma BearerTextIs(front: string, word: string, gap: string, token: string, after: string)
    ensures BearerText(front, word, gap, token, after) == front + word + gap + token + after
  {
  }

  lemma BearerStart(front: string, word: string, gap: string, token: string, after: string)
    requires AnyCase(word, "bearer") && AllSpaces(gap) && token != "" && AllTokens(token)
    ensures var bytes, n := Encode(BearerText(front, word, gap, token, after)), |Encode(front)|;
            && n + 6 <= |bytes| && StartsWithAt(bytes, n, "bearer")
            && (n > 0 && IsAlphanumeric(bytes[n - 1]) <==> Last(front, Alnum))
            && (n + 6 < |bytes| && IsAlphanumeric(bytes[n + 6]) <==> gap == "" && Alnum(token[0]))
  {
    hide *;
    BearerTextIs(front, word, gap, token, after);
    var rest := gap + token + after;
    Regroup4(front, word, gap, token, after);
    BearerWord(front, word, rest);
    assert front + (word + gap + token + after) == front + word + rest;
    FrontAlnum(front, word + gap + token + after);
    TokenOrSpaces(gap, token, after);
    FirstOf(Encode(front + word + rest), |Encode(front)| + 6, rest);
  }

  lemma BearerGap(front: string, word: string, gap: string, token: string, after: string)
    requires AnyCase(word, "bearer") && AllSpaces(gap) && token != "" && AllTokens(token)
    ensures var bytes, n := Encode(BearerText(front, word, gap, token, after)), |Encode(front)|;
            n + 6 <= |bytes| && RunEnd(bytes, n + 6, IsAsciiSpace) == n + 6 + |gap|
  {
    hide *;
    BearerTextIs(front, word, gap, token, after);
    Regroup4(front, word, gap, token, after);
    BearerWord(front, word, gap + token + after);
    SpacesAscii(gap);
    TokenFirst(token);
    NothingSpaced();
    TokenOrSpaces("", token, after);
    assert "" + token + after == token + after;
    RunOver(front + word, gap, token + after, 0, IsAsciiSpace);
  }

  lemma NothingSpaced()
    ensures AllSpaces("")
  {
  }

  lemma BearerToken(front: string, word: string, gap: string, token: string, after: string)
    requires AnyCase(word, "bearer") && AllSpaces(gap) && token != "" && AllTokens(token) && !First(after, TokenChar)
    ensures var bytes, n := Encode(BearerText(front, word, gap, token, after)), |Encode(front)|;
            n + 6 + |gap| <= |bytes| && RunEnd(bytes, n + 6 + |gap|, IsTokenByte) == n + 6 + |gap| + |token|
  {
    hide *;
    BearerTextIs(front, word, gap, token, after);
    BearerWord(front, word, gap + token + after);
    SpacesAscii(gap);
    AsciiBytes(gap);
    EncodeJoin(front + word, gap);
    TokensAscii(token);
    NoTokenFirst(after);
    RunOver(front + word + gap, token, after, 0, IsTokenByte);
  }

  lemma BearerWord(front: string, word: string, rest: string)
    requires AnyCase(word, "bearer")
    ensures var bytes, n := Encode(front + word + rest), |Encode(front)|;
            && n + 6 <= |bytes| && |Encode(front + word)| == n + 6 && StartsWithAt(bytes, n, "bearer")
            && bytes[n + 6..] == Encode(rest)
  {
    hide Encode, StartsWithAt;
    AnyCaseAscii(word, "bearer");
    AsciiBytes(word);
    EncodeJoin(front, word);
    PartAt(front, word, rest);
    assert word[..6] == word;
    StandsAt(front, word, rest, "bearer");
  }

  /** A bearer token is covered whole. */
  lemma BearerCaught(front: string, word: string, gap: string, token: string, after: string, p: nat)
    requires AnyCase(word, "bearer") && AllSpaces(gap) && AllTokens(token) && |token| >= 5 && !First(after, TokenChar)
    requires !Last(front, Alnum) && (gap == "" ==> !Alnum(token[0]))
    requires |Encode(front + word + gap)| <= p < |Encode(front + word + gap)| + |token|
    ensures Covers(Collected(BearerText(front, word, gap, token, after)), p)
  {
    hide Encode, BearerAt, Covers, Collected, StartsWithAt;
    BearerExactly(front, word, gap, token, after);
    SpacesAscii(gap);
    AsciiBytes(gap);
    EncodeJoin(front + word, gap);
    Regroup4(front, word, gap, token, after);
    BearerWord(front, word, gap + token + after);
    FoundCovers(Bearer, BearerText(front, word, gap, token, after), |Encode(front)|, p);
  }

  // ---- web tokens ----

  predicate AllLabels(s: string) {
    forall i :: 0 <= i < |s| ==> LabelChar(s[i])
  }

  predicate WebParts(token: string, a: string, b: string, c: string) {
    && token == a + "." + b + "." + c && AllLabels(a) && AllLabels(b) && AllLabels(c)
    && |a| >= 6 && |b| >= 6 && |c| >= 6 && |token| >= 24 && a[..3] == "eyJ"
  }

  ghost predicate WebToken(token: string) {
    exists a, b, c :: WebParts(token, a, b, c)
  }

  const DOT: seq<Byte> := ['.' as int]

  predicate NoDot(bytes: seq<Byte>) {
    forall i :: 0 <= i < |bytes| ==> bytes[i] != '.' as int
  }

  lemma {:induction false} SplitFirst(x: seq<Byte>, rest: seq<Byte>)
    requires NoDot(x)
    ensures SplitDots(x + DOT + rest) == [x] + SplitDots(rest)
  {
    var t := x + DOT + rest;
    if x == [] {
      assert t[0] == '.' as int && t[1..] == rest;
    } else {
      assert t[0] == x[0] && t[1..] == x[1..] + DOT + rest;
      SplitFirst(x[1..], rest);
      var more := SplitDots(t[1..]);
      assert more[1..] == SplitDots(rest) && [x[0]] + more[0] == x;
    }
  }

  lemma {:induction false} SplitLast(x: seq<Byte>)
    requires NoDot(x)
    ensures SplitDots(x) == [x]
  {
    if x != [] {
      SplitLast(x[1..]);
      assert [x[0]] + x[1..] == x && [x[1..]][1..] == [];
    }
  }

  function JoinDots(parts: seq<seq<Byte>>): seq<Byte>
    requires parts != []
  {
    if |parts| == 1 then parts[0] else parts[0] + DOT + JoinDots(parts[1..])
  }

  lemma {:induction false} SplitJoins(t: seq<Byte>)
    ensures JoinDots(SplitDots(t)) == t
  {
    if t != [] {
      SplitJoins(t[1..]);
      var rest := SplitDots(t[1..]);
      if t[0] == '.' as int {
        assert SplitDots(t)[1..] == rest;
        assert [] + DOT + t[1..] == t;
      } else {
        assert SplitDots(t)[1..] == rest[1..];
        assert t == [t[0]] + t[1..];
      }
    }
  }

  lemma JoinThree(parts: seq<seq<Byte>>)
    requires |parts| == 3
    ensures JoinDots(parts) == parts[0] + DOT + parts[1] + DOT + parts[2]
  {
    assert JoinDots(parts) == parts[0] + DOT + JoinDots(parts[1..]);
    assert JoinDots(parts[1..]) == parts[1] + DOT + JoinDots(parts[2..]);
    assert JoinDots(parts[2..]) == parts[2];
  }

  predicate LabelBytes(bytes: seq<Byte>) {
    forall i :: 0 <= i < |bytes| ==> IsLabelByte(bytes[i])
  }

  lemma LabelsAscii(s: string)
    requires AllLabels(s)
    ensures Ascii(s) && AllTokens(s) && |Encode(s)| == |s| && LabelBytes(Encode(s)) && NoDot(Encode(s))
  {
    hide Encode;
    forall i | 0 <= i < |s| ensures s[i] < '\U{80}' && IsLabelByte(s[i] as int) && TokenChar(s[i]) {
      assert LabelChar(s[i]);
      ClassesAgree(s[i]);
    }
    AsciiBytes(s);
  }

  lemma DotJoined(a: string, b: string)
    ensures Encode(a + "." + b) == Encode(a) + DOT + Encode(b)
  {
    hide Encode;
    EncodeJoin(a + ".", b);
    EncodeJoin(a, ".");
    AsciiBytes(".");
    assert Encode(".") == DOT;
  }

  lemma WebIsJwt(token: string, a: string, b: string, c: string)
    requires WebParts(token, a, b, c)
    ensures IsJwt(Encode(token)) && AllTokens(token)
  {
    hide Encode, SplitDots;
    LabelsAscii(a);
    LabelsAscii(b);
    LabelsAscii(c);
    assert token == a + "." + (b + "." + c);
    DotJoined(a, b + "." + c);
    DotJoined(b, c);
    SplitFirst(Encode(a), Encode(b + "." + c));
    SplitFirst(Encode(b), Encode(c));
    SplitLast(Encode(c));
    assert SplitDots(Encode(token)) == [Encode(a), Encode(b), Encode(c)];
    AsciiBytes(a);
    forall i | 0 <= i < 3 ensures Encode(a)[i] == JWT_START[i] { assert a[i] == a[..3][i]; }
    assert |Encode(token)| == |token|;
  }

  lemma PartLabels(token: string, from: nat, to: nat, part: seq<Byte>)
    requires Ascii(token) && from <= to <= |token| && |Encode(token)| == |token|
    requires part == Encode(token)[from..to] && LabelBytes(part)
    ensures AllLabels(token[from..to])
  {
    hide Encode;
    AsciiBytes(token);
    forall i | 0 <= i < to - from ensures LabelChar(token[from..to][i]) {
      assert part[i] == token[from + i] as int && IsLabelByte(part[i]);
      ClassesAgree(token[from + i]);
    }
  }

  lemma JwtIsWeb(token: string)
    requires AllTokens(token) && IsJwt(Encode(token))
    ensures WebToken(token)
  {
    hide Encode, SplitDots, LabelBytes;
    TokensAscii(token);
    AsciiBytes(token);
    var t := Encode(token);
    var parts := SplitDots(t);
    SplitJoins(t);
    JoinThree(parts);
    var j, k := |parts[0]|, |parts[0]| + 1 + |parts[1]|;
    var a, b, c := token[..j], token[j + 1..k], token[k + 1..];
    ThreeParts(t, parts[0], parts[1], parts[2]);
    forall i | 0 <= i < 3 ensures LabelBytes(parts[i]) { AllLabelBytes(parts[i]); }
    PartLabels(token, 0, j, parts[0]);
    PartLabels(token, j + 1, k, parts[1]);
    PartLabels(token, k + 1, |token|, parts[2]);
    assert token[0..j] == a && token[k + 1..|token|] == c;
    assert token[j] == '.' && token[k] == '.';
    assert token == a + "." + b + "." + c;
    forall i | 0 <= i < 3 ensures a[i] == "eyJ"[i] { assert t[i] == parts[0][i] == JWT_START[i]; }
    assert a[..3] == "eyJ";
    assert WebParts(token, a, b, c);
  }

  lemma AllLabelBytes(part: seq<Byte>)
    requires forall i :: 0 <= i < |part| ==> IsLabelByte(part[i])
    ensures LabelBytes(part)
  {
  }

  lemma ThreeParts(t: seq<Byte>, x: seq<Byte>, y: seq<Byte>, z: seq<Byte>)
    requires t == x + DOT + y + DOT + z
    ensures var j, k := |x|, |x| + 1 + |y|;
            && k < |t| && t[..j] == x && t[j] == '.' as int && t[j + 1..k] == y && t[k] == '.' as int && t[k + 1..] == z
  {
  }

  /** A run of token characters is caught as a web token exactly if it is three long parts behind an `eyJ`. */
  lemma JwtExactly(front: string, token: string, after: string)
    requires token != "" && AllTokens(token) && !First(after, TokenChar) && !Last(front, TokenChar)
    ensures var n := |Encode(front)|;
            JwtAt(Encode(front + token + after), n)
            == if WebToken(token) then Some(Span(n, n + |token|)) else None
  {
    hide *;
    var bytes, n := Encode(front + token + after), |Encode(front)|;
    TokensAscii(token);
    AsciiBytes(token);
    PartAt(front, token, after);
    NoTokenFirst(after);
    RunOver(front, token, after, 0, IsTokenByte);
    NoTokenBefore(front, token + after);
    assert front + token + after == front + (token + after);
    assert bytes[n..n + |token|] == Encode(token);
    if IsJwt(Encode(token)) {
      JwtIsWeb(token);
    } else {
      NotWeb(token);
    }
    JwtIs(bytes, n, n + |token|);
  }

  lemma NotWeb(token: string)
    requires !IsJwt(Encode(token))
    ensures !WebToken(token)
  {
    if WebToken(token) {
      var a, b, c :| WebParts(token, a, b, c);
      WebIsJwt(token, a, b, c);
    }
  }

  lemma NoTokenBefore(front: string, rest: string)
    requires !Last(front, TokenChar)
    ensures var bytes, n := Encode(front + rest), |Encode(front)|;
            n <= |bytes| && (n > 0 ==> !IsTokenByte(bytes[n - 1]))
  {
    hide Encode;
    EncodeJoin(front, rest);
    if front != "" {
      ByteBefore(front, rest);
      LastByte(front);
      var c := front[|front| - 1];
      if c < '\U{80}' { ClassesAgree(c); } else { HighBytes(Encode(front)[|Encode(front)| - 1]); }
    } else {
      AsciiBytes("");
    }
  }

  lemma JwtIs(bytes: seq<Byte>, start: nat, end: nat)
    requires start < end <= |bytes| && IsTokenByte(bytes[start]) && (start > 0 ==> !IsTokenByte(bytes[start - 1]))
    requires RunEnd(bytes, start, IsTokenByte) == end
    ensures JwtAt(bytes, start) == if IsJwt(bytes[start..end]) then Some(Span(start, end)) else None
  {
    hide RunEnd, IsJwt, IsTokenByte;
  }

  /** A web token is covered whole. */
  lemma JwtCaught(front: string, token: string, after: string, p: nat)
    requires WebToken(token) && !First(after, TokenChar) && !Last(front, TokenChar)
    requires |Encode(front)| <= p < |Encode(front)| + |token|
    ensures Covers(Collected(front + token + after), p)
  {
    hide Encode, JwtAt, Covers, Collected, WebParts, IsJwt;
    var a, b, c :| WebParts(token, a, b, c);
    WebIsJwt(token, a, b, c);
    JwtExactly(front, token, after);
    TokensAscii(token);
    PartAt(front, token, after);
    FoundCovers(Jwt, front + token + after, |Encode(front)|, p);
  }

  // ---- words in a text ----

  /** A word that stands somewhere in the bytes is the beginning of the text there. */
  lemma {:induction false} StandsMore(a: string, b: string, word: string, j: nat)
    requires LowerWord(word) && j <= |word| && StartsWithAt(Encode(a + b), |Encode(a)|, word)
    ensures j <= |b| && AnyCase(b[..j], word[..j])
  {
    hide Encode;
    if j > 0 {
      StandsMore(a, b, word, j - 1);
      var front, rest, n := b[..j - 1], b[j - 1..], |Encode(a)|;
      AnyCaseAscii(front, word[..j - 1]);
      assert a + front + rest == a + b;
      PartAt(a, front, rest);
      FirstOf(Encode(a + b), n + (j - 1), rest);
      FirstByte(rest);
      assert LowerByte(Encode(a + b)[n + (j - 1)]) == word[j - 1] as int;
      assert b[..j] == front + [rest[0]];
    }
  }

  lemma StandsExactly(a: string, b: string, word: string)
    requires LowerWord(word)
    ensures StartsWithAt(Encode(a + b), |Encode(a)|, word) <==> BeginsWith(b, word)
  {
    hide Encode, StartsWithAt, AnyCase;
    if StartsWithAt(Encode(a + b), |Encode(a)|, word) {
      StandsMore(a, b, word, |word|);
      assert word[..|word|] == word;
    }
    if BeginsWith(b, word) {
      var front, rest := b[..|word|], b[|word|..];
      AnyCaseAscii(front, word);
      assert a + front + rest == a + b && front[..|word|] == front;
      StandsAt(a, front, rest, word);
    }
  }

  // ---- values assigned to labels ----

  const LABELS: seq<string> := [
    "api_key", "apikey", "api-key", "x-api-key", "key", "token", "access_token", "access-token", "password", "passwd",
    "secret", "client_secret", "client-secret", "authorization", "auth"]

  const HARMLESS: seq<string> := ["none", "null", "false", "true", "example", "placeholder", "redacted"]

  predicate IsLabel(name: string) {
    exists k :: 0 <= k < |LABELS| && AnyCase(name, LABELS[k])
  }

  predicate IsHarmlessWord(s: string) {
    exists k :: 0 <= k < |HARMLESS| && AnyCase(s, HARMLESS[k])
  }

  /** The value is worth hiding: long enough, not a number, none of the harmless words, no template. */
  predicate Secretive(name: string, core: string) {
    && |Encode(core)| >= (if AnyCase(name, "key") then 16 else 5)
    && (exists i :: 0 <= i < |core| && !('0' <= core[i] <= '9'))
    && !IsHarmlessWord(core)
    && !(core[0] == '[' || (|core| >= 2 && (core[..2] == "${" || core[..2] == "{{")))
  }

  /** An assignment, piece by piece: what comes before, the label, spacing, the separator, white space, an opening quote
      or none, the value in white space of its own, and what comes after. */
  datatype Assigned = Assigned(front: string, name: string, lead: string, separator: char, gap: string, quote: string,
                               pre: string, core: string, post: string, after: string)
  {
    function Before(): string { front + name + lead }

    function Head(): string { Before() + [separator] + gap + quote }

    function Value(): string { pre + core + post }

    function Text(): string { Head() + Value() + after }

    predicate Labelled() {
      && name != "" && AllLabels(name) && !Last(front, LabelChar)
      && (forall i :: 0 <= i < |lead| ==> IsWhitespace(lead[i]) || QuoteChar(lead[i]))
      && (separator == '=' || separator == ':') && AllWhite(gap)
    }

    predicate Trimmed() {
      && core != "" && !IsWhitespace(core[0]) && !IsWhitespace(core[|core| - 1]) && AllWhite(pre) && AllWhite(post)
      && !BeginsWith(Value() + after, "bearer")
    }

    predicate Bare() {
      && quote == "" && pre == "" && core != "" && !QuoteChar(core[0])
      && (forall i :: 0 <= i < |Value()| ==> !DelimiterChar(Value()[i]))
      && (after == "" || DelimiterChar(after[0]))
    }

    predicate InQuotes() {
      && |quote| == 1 && QuoteChar(quote[0]) && quote[0] !in Value() && core != "" && Value()[|Value()| - 1] != '\\'
      && (after == "" || after[0] == quote[0])
    }

    predicate Proper() {
      Labelled() && Trimmed() && (Bare() || InQuotes())
    }
  }

  lemma LabelsPlain(k: nat)
    requires k < |LABELS|
    ensures LowerWord(LABELS[k])
  {
  }

  lemma LabelsAre(name: string)
    ensures IsLabel(name) <==> IsSensitiveLabel(AsciiLower(name))
  {
    hide AnyCase;
    forall k | 0 <= k < |LABELS| ensures AnyCase(name, LABELS[k]) <==> AsciiLower(name) == LABELS[k] {
      LabelsPlain(k);
      AnyCaseLower(name, LABELS[k]);
    }
    LabelList(AsciiLower(name));
  }

  lemma LabelList(name: string)
    ensures IsSensitiveLabel(name) <==> exists k :: 0 <= k < |LABELS| && name == LABELS[k]
  {
    if IsSensitiveLabel(name) {
      assert || name == LABELS[0] || name == LABELS[1] || name == LABELS[2] || name == LABELS[3] || name == LABELS[4]
             || name == LABELS[5] || name == LABELS[6] || name == LABELS[7] || name == LABELS[8] || name == LABELS[9]
             || name == LABELS[10] || name == LABELS[11] || name == LABELS[12] || name == LABELS[13]
             || name == LABELS[14];
    }
  }

  lemma HarmlessPlain(k: nat)
    requires k < |HARMLESS|
    ensures LowerWord(HARMLESS[k])
  {
  }

  lemma HarmlessList(s: string)
    ensures IsHarmlessWord(s)
       <==> AsciiLower(s) in {"none", "null", "false", "true", "example", "placeholder", "redacted"}
  {
    hide AnyCase;
    forall k | 0 <= k < |HARMLESS| ensures AnyCase(s, HARMLESS[k]) <==> AsciiLower(s) == HARMLESS[k] {
      HarmlessPlain(k);
      AnyCaseLower(s, HARMLESS[k]);
    }
    if IsHarmlessWord(s) {
      var k :| 0 <= k < |HARMLESS| && AnyCase(s, HARMLESS[k]);
    }
    assert HARMLESS[0] == "none" && HARMLESS[1] == "null" && HARMLESS[2] == "false" && HARMLESS[3] == "true";
    assert HARMLESS[4] == "example" && HARMLESS[5] == "placeholder" && HARMLESS[6] == "redacted";
  }

  // ---- trimming ----

  lemma ValueTrimmed(a: Assigned)
    requires a.Trimmed()
    ensures TrimEnd(TrimStart(a.Value())) == a.core
  {
    hide TrimEnd, TrimStart, IsWhitespace;
    assert a.pre + a.core + a.post == a.pre + (a.core + a.post);
    TrimmedStart(a.pre, a.core + a.post);
    TrimmedEnd(a.core, a.post);
  }

  lemma RedactsSecretive(name: string, value: string, core: string)
    requires core != "" && TrimEnd(TrimStart(value)) == core
    ensures ShouldRedact(AsciiLower(name), value) <==> Secretive(name, core)
  {
    hide TrimEnd, TrimStart, AsciiLower, AnyCase, IsHarmlessWord, Encode;
    HarmlessList(core);
    EncodeLength(core);
    assert LowerWord("key");
    AnyCaseLower(name, "key");
    TemplateStarts(core);
  }

  lemma TemplateStarts(s: string)
    requires s != ""
    ensures "${" <= s || "{{" <= s || "[" <= s
       <==> s[0] == '[' || (|s| >= 2 && (s[..2] == "${" || s[..2] == "{{"))
  {
  }

  // ---- scanning for the pieces ----

  lemma {:induction false} SpacingBack(front: string, lead: string, rest: string)
    requires forall i :: 0 <= i < |lead| ==> IsWhitespace(lead[i]) || QuoteChar(lead[i])
    requires front != "" && !IsLabelSpacing(front[|front| - 1])
    ensures IsCut(front + lead + rest, |Encode(front + lead)|)
    ensures SkipBack(front + lead + rest, |Encode(front + lead)|) == |Encode(front)|
  {
    hide Encode, IsWhitespace, IsBoundary, Before;
    var text := front + lead + rest;
    CutAt(front + lead, rest);
    BeforeAt(front + lead, rest);
    EncodeLength(front);
    ByteBounds(front);
    LongerText(front, lead);
    if lead == "" {
      assert front + lead == front;
    } else {
      var k := |lead| - 1;
      var shorter := lead[..k];
      assert text == front + shorter + ([lead[k]] + rest);
      assert front + lead == (front + shorter) + [lead[k]];
      EncodeJoin(front + shorter, [lead[k]]);
      LoneCharacter(lead[k]);
      SpacingBack(front, shorter, [lead[k]] + rest);
    }
  }

  lemma LongerText(a: string, b: string)
    ensures |Encode(a)| <= |Encode(a + b)|
  {
    EncodeJoin(a, b);
  }

  lemma ForwardStep(text: string, index: nat)
    requires IsCut(text, index)
    ensures var rest := Behind(text, index);
            if rest == "" || !IsWhitespace(rest[0]) then SkipForward(text, index) == index
            else IsCut(text, index + Utf8Length(rest[0]))
                 && SkipForward(text, index) == SkipForward(text, index + Utf8Length(rest[0]))
  {
    hide Encode, IsWhitespace, IsBoundary, Behind;
    if Behind(text, index) != "" { StepForward(text, index); }
  }

  lemma ShiftFirst(front: string, gap: string, rest: string)
    requires gap != ""
    ensures front + gap + rest == front + [gap[0]] + gap[1..] + rest
    ensures front + gap == front + [gap[0]] + gap[1..]
    ensures |Encode(front + [gap[0]])| == |Encode(front)| + Utf8Length(gap[0])
  {
    hide Encode;
    EncodeJoin(front, [gap[0]]);
    LoneCharacter(gap[0]);
  }

  lemma {:induction false} WhiteForward(front: string, gap: string, rest: string)
    requires AllWhite(gap) && (rest == "" || !IsWhitespace(rest[0]))
    ensures IsCut(front + gap + rest, |Encode(front)|)
    ensures SkipForward(front + gap + rest, |Encode(front)|) == |Encode(front + gap)|
    decreases |gap|
  {
    hide Encode, IsWhitespace, IsBoundary, Behind, SkipForward, Utf8Length;
    assert front + gap + rest == front + (gap + rest);
    CutAt(front, gap + rest);
    BehindAt(front, gap + rest);
    ForwardStep(front + gap + rest, |Encode(front)|);
    if gap == "" {
      assert front + gap == front && gap + rest == rest;
    } else {
      assert (gap + rest)[0] == gap[0];
      ShiftFirst(front, gap, rest);
      WhiteForward(front + [gap[0]], gap[1..], rest);
    }
  }

  lemma {:induction false} PlainBytes(s: string)
    requires forall i :: 0 <= i < |s| ==> !DelimiterChar(s[i])
    ensures forall i :: 0 <= i < |Encode(s)| ==> NotDelimiter(Encode(s)[i])
  {
    hide DelimiterChar, NotDelimiter;
    if s != "" {
      PlainBytes(s[1..]);
      EncodeFirst(s);
      CharacterBytes(s[0]);
    }
  }

  /** The bytes of a character are its own if it is ASCII, and no ASCII byte if it is not. */
  lemma CharacterBytes(c: char)
    ensures c < '\U{80}' ==> Encoded(c) == [c as int] && (NotDelimiter(c as int) <==> !DelimiterChar(c))
    ensures c >= '\U{80}' ==> forall i :: 0 <= i < |Encoded(c)| ==> Encoded(c)[i] >= 0x80 && NotDelimiter(Encoded(c)[i])
  {
    if c < '\U{80}' {
      ClassesAgree(c);
    } else {
      forall i | 0 <= i < |Encoded(c)| ensures Encoded(c)[i] >= 0x80 { }
    }
  }

  lemma {:induction false} BytesWithout(s: string, q: char)
    requires q < '\U{80}' && q !in s
    ensures forall i :: 0 <= i < |Encode(s)| ==> Encode(s)[i] != q as int
  {
    if s != "" {
      BytesWithout(s[1..], q);
      EncodeFirst(s);
      CharacterBytes(s[0]);
      assert s[0] in s;
    }
  }

  lemma {:induction false} QuoteFound(bytes: seq<Byte>, start: nat, i: nat, end: nat, quote: Byte)
    requires start <= i <= end <= |bytes| && forall k :: start <= k < end ==> bytes[k] != quote
    requires end == |bytes| || (bytes[end] == quote && (end == start || bytes[end - 1] != '\\' as int))
    ensures QuotedEnd(bytes, start, i, quote) == end
    decreases end - i
  {
    if i < end { QuoteFound(bytes, start, i + 1, end, quote); }
  }

  /** The bytes of a part of any characters. */
  lemma SpreadAt(a: string, b: string, c: string)
    ensures var bytes, n, m := Encode(a + b + c), |Encode(a)|, |Encode(a + b)|;
            n <= m <= |bytes| && bytes[n..m] == Encode(b) && bytes[m..] == Encode(c) && m == n + |Encode(b)|
  {
    hide Encode;
    EncodeJoin(a, b);
    EncodeJoin(a + b, c);
  }

  lemma BareEnd(front: string, value: string, after: string)
    requires forall i :: 0 <= i < |value| ==> !DelimiterChar(value[i])
    requires after == "" || DelimiterChar(after[0])
    ensures |Encode(front)| <= |Encode(front + value + after)|
    ensures RunEnd(Encode(front + value + after), |Encode(front)|, NotDelimiter) == |Encode(front + value)|
  {
    hide Encode, DelimiterChar, NotDelimiter, RunEnd;
    SpreadAt(front, value, after);
    PlainBytes(value);
    var bytes, n, m := Encode(front + value + after), |Encode(front)|, |Encode(front + value)|;
    forall k | n <= k < m ensures NotDelimiter(bytes[k]) { assert bytes[k] == bytes[n..m][k - n]; }
    FirstOf(bytes, m, after);
    if after != "" { DelimiterFirst(after); }
    RunStops(bytes, n, m, NotDelimiter);
  }

  lemma DelimiterFirst(s: string)
    requires s != "" && DelimiterChar(s[0])
    ensures Encode(s) != [] && !NotDelimiter(Encode(s)[0])
  {
    hide Encode;
    FirstByte(s);
    assert s[0] < '\U{80}';
    ClassesAgree(s[0]);
  }

  lemma QuotedEndAt(front: string, value: string, after: string, q: char)
    requires QuoteChar(q) && q !in value && value != "" && value[|value| - 1] != '\\' && (after == "" || after[0] == q)
    ensures |Encode(front)| <= |Encode(front + value + after)|
    ensures QuotedEnd(Encode(front + value + after), |Encode(front)|, |Encode(front)|, q as int)
         == |Encode(front + value)|
  {
    hide Encode, QuotedEnd;
    SpreadAt(front, value, after);
    BytesWithout(value, q);
    LastByte(value);
    var bytes, n, m := Encode(front + value + after), |Encode(front)|, |Encode(front + value)|;
    forall k | n <= k < m ensures bytes[k] != q as int { assert bytes[k] == bytes[n..m][k - n]; }
    assert bytes[m - 1] == bytes[n..m][m - 1 - n];
    FirstOf(bytes, m, after);
    if after != "" { FirstByte(after); }
    QuoteFound(bytes, n, n, m, q as int);
  }

  // ---- exactly the assignments ----

  lemma LabelFound(front: string, name: string, lead: string, rest: string)
    requires name != "" && AllLabels(name) && !Last(front, LabelChar)
    requires forall i :: 0 <= i < |lead| ==> IsWhitespace(lead[i]) || QuoteChar(lead[i])
    ensures IsCut(front + name + lead + rest, |Encode(front + name + lead)|)
    ensures LabelAt(front + name + lead + rest, |Encode(front + name + lead)|) == Some(AsciiLower(name))
  {
    hide Encode, SkipBack, RunStart, IsBoundary, Slice, AsciiLower, IsWhitespace;
    var text := front + name + lead + rest;
    LabelLast(front, name);
    SpacingBack(front + name, lead, rest);
    LabelRun(front, name, lead + rest);
    SliceAt(front, name, lead + rest);
    assert text == front + name + (lead + rest);
    LabelsAscii(name);
    EncodeJoin(front, name);
  }

  lemma LabelLast(front: string, name: string)
    requires name != "" && AllLabels(name)
    ensures front + name != "" && !IsLabelSpacing((front + name)[|front + name| - 1])
  {
    assert LabelChar(name[|name| - 1]);
  }

  lemma LabelRun(front: string, name: string, rest: string)
    requires name != "" && AllLabels(name) && !Last(front, LabelChar)
    ensures |Encode(front + name)| <= |Encode(front + name + rest)|
    ensures RunStart(Encode(front + name + rest), |Encode(front + name)|, IsLabelByte) == |Encode(front)|
  {
    hide Encode, RunStart, IsLabelByte, LabelChar;
    LabelKinds(name);
    PartKind(front, name, rest, IsLabelByte);
    AsciiBytes(name);
    EncodeJoin(front, name);
    LabelBefore(front, name + rest);
    assert front + name + rest == front + (name + rest);
    RunBack(Encode(front + name + rest), |Encode(front)|, |Encode(front + name)|, IsLabelByte);
  }

  lemma LabelKinds(name: string)
    requires AllLabels(name)
    ensures Ascii(name) && forall i :: 0 <= i < |name| ==> name[i] < '\U{80}' && IsLabelByte(name[i] as int)
  {
    forall i | 0 <= i < |name| ensures name[i] < '\U{80}' && IsLabelByte(name[i] as int) {
      assert LabelChar(name[i]);
      ClassesAgree(name[i]);
    }
  }

  lemma LabelBefore(front: string, rest: string)
    requires !Last(front, LabelChar)
    ensures var bytes, n := Encode(front + rest), |Encode(front)|;
            n <= |bytes| && (n > 0 ==> !IsLabelByte(bytes[n - 1]))
  {
    hide Encode;
    EncodeJoin(front, rest);
    if front != "" {
      ByteBefore(front, rest);
      LastByte(front);
      var c := front[|front| - 1];
      if c < '\U{80}' { ClassesAgree(c); } else { HighBytes(Encode(front)[|Encode(front)| - 1]); }
    } else {
      AsciiBytes("");
    }
  }

  /** Behind the separator, white space and quote, the value is where it was put. */
  lemma ValueFound(a: Assigned)
    requires a.Proper()
    ensures var from := |Encode(a.Before() + [a.separator])|;
            && IsCut(a.Text(), from)
            && ValueAt(a.Text(), from) == Span(|Encode(a.Head())|, |Encode(a.Head() + a.Value())|)
  {
    hide *;
    var open := a.Before() + [a.separator];
    GapEnds(a);
    QuoteOpens(a);
    NoBearer(a);
    ValueStops(a);
    ValueIs(a.Text(), |Encode(open)|, |Encode(open + a.gap)|, |Encode(a.Head())|, |Encode(a.Head() + a.Value())|);
  }

  lemma ValueIs(text: string, from: nat, first: nat, start: nat, end: nat)
    requires IsCut(text, from) && SkipForward(text, from) == first
    requires IsCut(text, first) && Secrets.Opened(text, first) == start && PastBearer(text, start) == start
    requires IsCut(text, start) && ValueEnd(text, start, QuoteAt(Encode(text), first)) == end
    ensures ValueAt(text, from) == Span(start, end)
  {
    hide Encode, SkipForward, PastBearer, Secrets.Opened, QuoteAt, ValueEnd, IsBoundary;
  }

  /** What lies behind the gap. */
  function Tail(a: Assigned): string {
    a.quote + a.Value() + a.after
  }

  lemma TextParts(a: Assigned)
    ensures a.Text() == (a.Before() + [a.separator]) + a.gap + Tail(a)
    ensures a.Text() == (a.Before() + [a.separator] + a.gap) + Tail(a)
    ensures a.Text() == a.Head() + (a.Value() + a.after)
    ensures a.Text() == a.Head() + a.Value() + a.after
    ensures a.Text() == a.Before() + ([a.separator] + a.gap + Tail(a))
    ensures a.Head() == (a.Before() + [a.separator] + a.gap) + a.quote
  {
    hide Assigned.Before, Assigned.Value;
  }

  lemma TailStarts(a: Assigned)
    requires a.Proper()
    ensures Tail(a) != "" && !IsWhitespace(Tail(a)[0])
    ensures if a.quote == "" then !QuoteChar(Tail(a)[0]) else QuoteChar(Tail(a)[0]) && a.quote == [Tail(a)[0]]
  {
    hide AllWhite, BeginsWith, DelimiterChar, AllLabels, Last;
    if a.quote == "" {
      assert a.Value()[0] == a.core[0];
    } else {
      assert Tail(a)[0] == a.quote[0];
    }
  }

  lemma GapEnds(a: Assigned)
    requires a.Proper()
    ensures var open := a.Before() + [a.separator];
            && IsCut(a.Text(), |Encode(open)|) && SkipForward(a.Text(), |Encode(open)|) == |Encode(open + a.gap)|
  {
    hide *;
    TextParts(a);
    TailStarts(a);
    GapIsWhite(a);
    WhiteForward(a.Before() + [a.separator], a.gap, Tail(a));
  }

  lemma GapIsWhite(a: Assigned)
    requires a.Proper()
    ensures AllWhite(a.gap)
  {
  }

  lemma QuoteOpens(a: Assigned)
    requires a.Proper()
    ensures var first := |Encode(a.Before() + [a.separator] + a.gap)|;
            && IsCut(a.Text(), first) && Secrets.Opened(a.Text(), first) == |Encode(a.Head())|
            && QuoteAt(Encode(a.Text()), first) == if a.quote == "" then None else Some(a.quote[0] as int)
  {
    hide Encode, Assigned.Before, Assigned.Value, Assigned.Text, Assigned.Head, Tail, IsWhitespace, Assigned.Proper,
         IsBoundary;
    var front := a.Before() + [a.separator] + a.gap;
    TextParts(a);
    TailStarts(a);
    CutAt(front, Tail(a));
    SpreadAt(front, Tail(a), "");
    assert front + Tail(a) + "" == front + Tail(a);
    FirstByte(Tail(a));
    var bytes := Encode(a.Text());
    assert bytes[|Encode(front)|] == Encode(Tail(a))[0] by {
      EncodeJoin(front, Tail(a));
    }
    var c := Tail(a)[0];
    if c < '\U{80}' { ClassesAgree(c); } else { HighBytes(Encode(Tail(a))[0]); }
    if a.quote == "" {
      assert front + a.quote == front;
    } else {
      EncodeJoin(front, [c]);
      LoneCharacter(c);
    }
  }

  lemma NoBearer(a: Assigned)
    requires a.Proper()
    ensures IsCut(a.Text(), |Encode(a.Head())|) && PastBearer(a.Text(), |Encode(a.Head())|) == |Encode(a.Head())|
  {
    hide Encode, Assigned.Before, Assigned.Value, Assigned.Text, Assigned.Head, StartsWithAt, IsBoundary, BeginsWith;
    TextParts(a);
    CutAt(a.Head(), a.Value() + a.after);
    assert LowerWord("bearer");
    StandsExactly(a.Head(), a.Value() + a.after, "bearer");
  }

  lemma ValueStops(a: Assigned)
    requires a.Proper()
    ensures var start := |Encode(a.Head())|;
            var quote := if a.quote == "" then None else Some(a.quote[0] as int);
            && IsCut(a.Text(), start) && (quote.Some? ==> IsQuote(quote.value))
            && ValueEnd(a.Text(), start, quote) == |Encode(a.Head() + a.Value())|
  {
    hide Encode, Assigned.Before, Assigned.Value, Assigned.Text, Assigned.Head, IsBoundary, IsWhitespace, BeginsWith,
         QuotedEnd, RunEnd, DelimiterChar;
    TextParts(a);
    CutAt(a.Head(), a.Value() + a.after);
    if a.quote == "" {
      BareEnd(a.Head(), a.Value(), a.after);
    } else {
      ClassesAgree(a.quote[0]);
      ValueThere(a);
      QuotedEndAt(a.Head(), a.Value(), a.after, a.quote[0]);
    }
  }

  lemma ValueThere(a: Assigned)
    requires a.core != ""
    ensures a.Value() != ""
  {
  }

  lemma AssignmentIs(text: string, separator: nat, name: string, value: Span)
    requires separator < |Encode(text)| && IsSeparator(Encode(text)[separator]) && IsCut(text, separator)
    requires LabelAt(text, separator) == Some(name)
    requires IsCut(text, separator + 1) && ValueAt(text, separator + 1) == value
    ensures AssignmentAt(text, separator)
         == if IsSensitiveLabel(name) && ShouldRedact(name, Slice(text, value.start, value.end)) then Some(value)
            else None
  {
    hide Encode, IsSensitiveLabel, ShouldRedact, Slice, LabelAt, ValueAt, IsBoundary;
  }

  /** An assignment is caught exactly if its label is one of the fifteen, in any case, and its value is worth hiding;
      and what is caught is the value, with its white space. */
  lemma AssignmentExactly(a: Assigned)
    requires a.Proper()
    ensures AssignmentAt(a.Text(), |Encode(a.Before())|)
         == if IsLabel(a.name) && Secretive(a.name, a.core)
            then Some(Span(|Encode(a.Head())|, |Encode(a.Head() + a.Value())|)) else None
  {
    hide *;
    var text, at := a.Text(), |Encode(a.Before())|;
    SeparatorStands(a);
    LabelStands(a);
    ValueFound(a);
    ValueSlice(a);
    LabelsAre(a.name);
    ProperParts(a);
    ValueTrimmed(a);
    RedactsSecretive(a.name, a.Value(), a.core);
    AssignmentIs(text, at, AsciiLower(a.name), Span(|Encode(a.Head())|, |Encode(a.Head() + a.Value())|));
  }

  lemma ProperParts(a: Assigned)
    requires a.Proper()
    ensures a.Trimmed() && a.core != ""
  {
  }

  lemma SeparatorStands(a: Assigned)
    requires a.Proper()
    ensures var at := |Encode(a.Before())|;
            && at < |Encode(a.Text())| && IsSeparator(Encode(a.Text())[at]) && IsCut(a.Text(), at)
            && |Encode(a.Before() + [a.separator])| == at + 1
  {
    hide Encode, Assigned.Before, Assigned.Value, Assigned.Text, Assigned.Head, IsBoundary, IsWhitespace, Tail;
    TextParts(a);
    var rest := a.gap + Tail(a);
    assert [a.separator] + a.gap + Tail(a) == [a.separator] + rest;
    assert a.Before() + ([a.separator] + rest) == a.Before() + [a.separator] + rest;
    PartAt(a.Before(), [a.separator], rest);
    CutAt(a.Before(), [a.separator] + rest);
    EncodeJoin(a.Before(), [a.separator]);
    LoneCharacter(a.separator);
  }

  lemma LabelStands(a: Assigned)
    requires a.Proper()
    ensures IsCut(a.Text(), |Encode(a.Before())|)
    ensures LabelAt(a.Text(), |Encode(a.Before())|) == Some(AsciiLower(a.name))
  {
    hide Encode, Assigned.Value, Assigned.Text, Assigned.Head, Assigned.Trimmed, Assigned.Bare, Assigned.InQuotes,
         IsBoundary, IsWhitespace, Tail, LabelAt, AllLabels, Last, AsciiLower;
    TextParts(a);
    LabelFound(a.front, a.name, a.lead, [a.separator] + a.gap + Tail(a));
  }

  lemma ValueSlice(a: Assigned)
    ensures var i, j := |Encode(a.Head())|, |Encode(a.Head() + a.Value())|;
            i <= j && IsCut(a.Text(), i) && IsCut(a.Text(), j) && Slice(a.Text(), i, j) == a.Value()
  {
    hide Encode, Assigned.Before, Assigned.Value, Assigned.Text, Assigned.Head, IsBoundary, Slice;
    TextParts(a);
    SliceAt(a.Head(), a.Value(), a.after);
  }

  /** Every byte of a value that is worth hiding is covered. */
  lemma AssignmentCaught(a: Assigned, p: nat)
    requires a.Proper() && IsLabel(a.name) && Secretive(a.name, a.core)
    requires |Encode(a.Head())| <= p < |Encode(a.Head() + a.Value())|
    ensures Covers(Collected(a.Text()), p)
  {
    hide *;
    AssignmentExactly(a);
    SeparatorStands(a);
    FindsAssignment(a.Text(), |Encode(a.Before())|);
    HeldBetween(|Encode(a.Head())|, |Encode(a.Head() + a.Value())|, p);
    FoundCovers(Assignment, a.Text(), |Encode(a.Before())|, p);
  }

  lemma FindsAssignment(text: string, i: nat)
    ensures Find(Assignment, text, i) == AssignmentAt(text, i)
  {
  }

  lemma HeldBetween(start: nat, end: nat, p: nat)
    ensures Holds(Span(start, end), p) <==> start <= p < end
  {
  }

  // ---- any run of token characters as a value ----

  /** The front of a text that an unquoted value takes with it. */
  function Undelimited(s: string): (r: string)
    ensures |r| <= |s| && r == s[..|r|] && (|r| < |s| ==> DelimiterChar(s[|r|]))
    ensures forall i :: 0 <= i < |r| ==> !DelimiterChar(r[i])
  {
    if s == "" || DelimiterChar(s[0]) then "" else [s[0]] + Undelimited(s[1..])
  }

  lemma TakenApart(value: string, after: string, more: string, core: string)
    requires |more| <= |after| && more == after[..|more|]
    requires |core| <= |value + more| && core == (value + more)[..|core|]
    ensures core + (value + more)[|core|..] == value + more
    ensures value + more + after[|more|..] == value + after
  {
    assert after == more + after[|more|..];
  }

  /** What a run of token characters is as an assigned value, with what an unquoted value takes along behind it. */
  ghost predicate TakesAlong(a: Assigned, value: string, after: string) {
    && a.quote == "" && a.pre == "" && value <= a.core && AllWhite(a.post)
    && a.core != "" && !IsWhitespace(a.core[|a.core| - 1])
    && a.core + a.post == value + Undelimited(after) && a.core + a.post + a.after == value + after
    && (a.after == "" || DelimiterChar(a.after[0]))
  }

  lemma TokenAssigned(front: string, name: string, lead: string, separator: char, gap: string, value: string,
                      after: string) returns (a: Assigned)
    requires value != "" && !IsWhitespace(value[|value| - 1])
    ensures a.front == front && a.name == name && a.lead == lead && a.separator == separator && a.gap == gap
    ensures TakesAlong(a, value, after)
  {
    hide TrimEnd, IsWhitespace, DelimiterChar, AllWhite;
    var more := Undelimited(after);
    var whole := value + more;
    var core := TrimEnd(whole);
    TrimEndSplits(whole);
    TrimKeeps(value, more);
    TakenApart(value, after, more, core);
    a := Assigned(front, name, lead, separator, gap, "", "", core, whole[|core|..], after[|more|..]);
  }

  /** The text of such an assignment. */
  lemma TokenText(a: Assigned, value: string, after: string)
    requires TakesAlong(a, value, after)
    ensures a.Head() == a.front + a.name + a.lead + [a.separator] + a.gap && a.Value() == a.core + a.post
    ensures a.Text() == a.Head() + value + after
  {
    hide AllWhite, DelimiterChar, IsWhitespace, Undelimited;
    assert "" + a.core == a.core && a.Before() + [a.separator] + a.gap + "" == a.Before() + [a.separator] + a.gap;
    assert a.Head() + (a.core + a.post) + a.after == a.Head() + (a.core + a.post + a.after);
    assert a.Head() + (value + after) == a.Head() + value + after;
  }

  predicate HasLetter(s: string) {
    exists i :: 0 <= i < |s| && ('a' <= s[i] <= 'z' || 'A' <= s[i] <= 'Z')
  }

  /** A value of token characters, long enough, with a letter, and neither harmless nor a bearer token, is worth hiding
      with whatever it takes along. */
  lemma TokenSecretive(name: string, value: string, after: string, core: string)
    requires AllTokens(value) && !First(after, TokenChar) && HasLetter(value) && !IsHarmlessWord(value)
    requires |value| >= (if AnyCase(name, "key") then 16 else 5)
    requires value <= core && |core| <= |value + after| && core == (value + after)[..|core|]
    ensures Secretive(name, core)
  {
    hide Encode, AnyCase;
    assert core == value + core[|value|..];
    EncodeLength(core);
    ByteBounds(core);
    var i :| 0 <= i < |value| && ('a' <= value[i] <= 'z' || 'A' <= value[i] <= 'Z');
    assert core[i] == value[i];
    assert TokenChar(value[0]) && core[0] == value[0];
    assert |core| == |value| ==> core == value;
    assert |core| > |value| ==> core[|value|] == after[0];
    if IsHarmlessWord(core) && |core| > |value| {
      var k :| 0 <= k < |HARMLESS| && AnyCase(core, HARMLESS[k]);
      WordLetters(core, k, |value|);
    }
  }

  lemma WordLetters(s: string, k: nat, i: nat)
    requires k < |HARMLESS| && AnyCase(s, HARMLESS[k]) && i < |s|
    ensures TokenChar(s[i])
  {
    HarmlessLetters(k);
    assert SameLetter(s[i], HARMLESS[k][i]);
  }

  lemma HarmlessLetters(k: nat)
    requires k < |HARMLESS|
    ensures forall i :: 0 <= i < |HARMLESS[k]| ==> 'a' <= HARMLESS[k][i] <= 'z'
  {
  }

  lemma BearerInside(value: string, after: string)
    requires |value| >= 5 && !BeginsWith(value, "bearer") && !First(after, TokenChar)
    ensures !BeginsWith(value + after, "bearer")
  {
    var s := value + after;
    assert |value| == 5 && |s| > 5 ==> s[5] == after[0];
    if BeginsWith(s, "bearer") {
      if |value| >= 6 { BearerShorter(s, value); } else { BearerLetters(s, 5); }
    }
  }

  lemma BearerShorter(s: string, value: string)
    requires BeginsWith(s, "bearer") && value <= s && |value| >= 6
    ensures BeginsWith(value, "bearer")
  {
    assert s[..6] == value[..6];
  }

  lemma BearerLetters(s: string, i: nat)
    requires BeginsWith(s, "bearer") && i < 6
    ensures TokenChar(s[i])
  {
    assert SameLetter(s[..6][i], "bearer"[i]);
  }

  lemma TokenProper(a: Assigned, value: string, after: string)
    requires a.Labelled() && AllTokens(value) && |value| >= 5 && !BeginsWith(value, "bearer")
    requires !First(after, TokenChar) && TakesAlong(a, value, after)
    ensures a.Proper()
  {
    hide Assigned.Labelled, Assigned.Value, Assigned.Head, Assigned.Text, BeginsWith, IsWhitespace;
    TokenText(a, value, after);
    BearerInside(value, after);
    assert a.Value() + a.after == value + after;
    TokenPlain(value, 0);
    assert a.core[0] == value[0];
    forall i | 0 <= i < |a.Value()| ensures !DelimiterChar(a.Value()[i]) {
      if i < |value| { TokenPlain(value, i); } else { assert a.Value()[i] == Undelimited(after)[i - |value|]; }
    }
  }

  lemma TokenPlain(value: string, i: nat)
    requires AllTokens(value) && i < |value|
    ensures !DelimiterChar(value[i]) && !QuoteChar(value[i]) && !IsWhitespace(value[i])
  {
    assert TokenChar(value[i]);
  }

  /** An assigned run of token characters is covered whole: whatever comes before the label and behind the value, with
      any of the fifteen labels in any case, if it is long enough, has a letter and is no harmless word. */
  lemma TokenCaught(front: string, name: string, lead: string, separator: char, gap: string, value: string,
                    after: string, p: nat)
    requires Assigned(front, name, lead, separator, gap, "", "", value, "", after).Labelled() && IsLabel(name)
    requires AllTokens(value) && HasLetter(value) && !IsHarmlessWord(value) && !BeginsWith(value, "bearer")
    requires |value| >= (if AnyCase(name, "key") then 16 else 5)
    requires !First(after, TokenChar)
    requires var n := |Encode(front + name + lead + [separator] + gap)|; n <= p < n + |value|
    ensures Covers(Collected(front + name + lead + [separator] + gap + value + after), p)
  {
    hide Encode, AnyCase, IsLabel, Covers, Collected, BeginsWith, IsHarmlessWord, HasLetter, AllTokens,
         Assigned.Proper, TakesAlong, Assigned.Text, Assigned.Head, Assigned.Value, Secretive;
    TokenPlain(value, |value| - 1);
    var a := TokenAssigned(front, name, lead, separator, gap, value, after);
    TokenText(a, value, after);
    TokenProper(a, value, after);
    TokenCore(a, value, after);
    TokenSecretive(name, value, after, a.core);
    TokenWidth(a, value, after);
    AssignmentCaught(a, p);
  }

  lemma TokenCore(a: Assigned, value: string, after: string)
    requires TakesAlong(a, value, after)
    ensures |a.core| <= |value + after| && a.core == (value + after)[..|a.core|] && value <= a.core
  {
    assert a.core + a.post + a.after == a.core + (a.post + a.after);
  }

  lemma TokenWidth(a: Assigned, value: string, after: string)
    requires TakesAlong(a, value, after) && AllTokens(value)
    ensures |Encode(a.Head())| + |value| <= |Encode(a.Head() + a.Value())|
  {
    hide Encode, AllTokens;
    var rest := a.core[|value|..] + a.post;
    assert a.Value() == value + rest;
    EncodeJoin(a.Head(), a.Value());
    EncodeJoin(value, rest);
    TokensAscii(value);
    AsciiBytes(value);
  }

  // ---- texts that are left alone ----

  /** An ASCII byte is a character of the text. */
  lemma ByteIsChar(text: string, i: nat)
    requires i < |Encode(text)| && Encode(text)[i] < 0x80
    ensures IsCut(text, i) && Behind(text, i) != "" && Behind(text, i)[0] as int == Encode(text)[i]
    ensures text == Before(text, i) + Behind(text, i) && |Encode(Before(text, i))| == i
  {
    hide Encode, Before, Behind;
    BehindAscii(text, i);
    var front, rest := Before(text, i), Behind(text, i);
    Meet(text, i);
    FirstOf(Encode(text), i, rest);
    FirstByte(rest);
  }

  lemma Meet(text: string, i: nat)
    requires i <= |Encode(text)| && IsBoundary(Encode(text), i)
    ensures text == Before(text, i) + Behind(text, i) && |Encode(Before(text, i))| == i
  {
    hide Encode, Before, Behind, IsBoundary;
    var j, k := |Before(text, i)|, |text| - |Behind(text, i)|;
    OffsetOf(text, i);
    OffsetBefore(text, i);
    if j < k { OffsetsRise(text, j, k); }
    if k < j { OffsetsRise(text, k, j); }
  }

  /** Somewhere in the text the word stands, in any case. */
  ghost predicate Mentions(text: string, word: string) {
    exists k :: 0 <= k <= |text| && BeginsWith(text[k..], word)
  }

  lemma MentionedAt(text: string, i: nat, word: string)
    requires LowerWord(word) && word != "" && i <= |Encode(text)| && StartsWithAt(Encode(text), i, word)
    ensures Mentions(text, word)
    ensures i < |Encode(text)| && Encode(text)[i] < 0x80 && IsCut(text, i) && BeginsWith(Behind(text, i), word)
  {
    hide Encode, Before, Behind, BeginsWith, IsBoundary;
    assert LowerByte(Encode(text)[i + 0]) == word[0] as int;
    ByteIsChar(text, i);
    var front, rest := Before(text, i), Behind(text, i);
    StandsExactly(front, rest, word);
    assert text[|front|..] == rest;
  }

  predicate WebStart(text: string, k: nat) {
    k + 3 <= |text| && text[k..k + 3] == "eyJ"
  }

  /** Nothing in the text that any of the collectors looks for. */
  ghost predicate Plain(text: string) {
    && '=' !in text && ':' !in text && !Mentions(text, "bearer")
    && (forall k :: 0 <= k < |FAMILIES| ==> !Mentions(text, FAMILIES[k]))
    && (forall k :: 0 <= k <= |text| ==> !WebStart(text, k))
  }

  lemma NoFamily(text: string, i: nat)
    requires Plain(text)
    ensures PrefixedAt(Encode(text), i) == None
  {
    hide Encode, RunEnd, PrefixAt, StartsWithAt, Mentions;
    if PrefixedAt(Encode(text), i).Some? {
      var prefix := PrefixAt(Encode(text), i, 0).value;
      var k :| 0 <= k < |PREFIXES| && PREFIXES[k] == prefix;
      FamiliesPlain(k);
      MentionedAt(text, i, prefix);
    }
  }

  lemma NoBearerWord(text: string, i: nat)
    requires Plain(text)
    ensures BearerAt(Encode(text), i) == None
  {
    hide Encode, RunEnd, StartsWithAt, Mentions;
    if i < |Encode(text)| && StartsWithAt(Encode(text), i, "bearer") {
      assert LowerWord("bearer");
      MentionedAt(text, i, "bearer");
    }
  }

  lemma NoSeparator(text: string, i: nat)
    requires Plain(text)
    ensures AssignmentAt(text, i) == None
  {
    hide Encode, Mentions, LabelAt, ValueAt, IsBoundary, IsSeparator;
    if i < |Encode(text)| && IsSeparator(Encode(text)[i]) { SeparatorThere(text, i); }
  }

  lemma SeparatorThere(text: string, i: nat)
    requires i < |Encode(text)| && IsSeparator(Encode(text)[i])
    ensures '=' in text || ':' in text
  {
    hide Encode, Behind, Before, IsBoundary;
    ByteIsChar(text, i);
    assert Behind(text, i)[0] in text;
  }

  lemma {:induction false} FirstPart(t: seq<Byte>)
    ensures SplitDots(t)[0] <= t
  {
    if t != [] { FirstPart(t[1..]); }
  }

  lemma NoWebToken(text: string, i: nat)
    requires Plain(text)
    ensures JwtAt(Encode(text), i) == None
  {
    hide Encode, RunEnd, SplitDots, Mentions, Behind, Before, IsBoundary, BeginsWith;
    var bytes := Encode(text);
    if JwtAt(bytes, i).Some? {
      var end := JwtAt(bytes, i).value.end;
      var token := bytes[i..end];
      FirstPart(token);
      forall j | 0 <= j < 3 ensures bytes[i + j] == JWT_START[j] {
        assert bytes[i + j] == token[j] == SplitDots(token)[0][j];
      }
      StartsWeb(text, i);
    }
  }

  lemma StartsWeb(text: string, i: nat)
    requires i + 3 <= |Encode(text)| && forall j :: 0 <= j < 3 ==> Encode(text)[i + j] == JWT_START[j]
    ensures exists k :: 0 <= k <= |text| && WebStart(text, k)
  {
    hide Encode, Behind, Before, IsBoundary, BeginsWith;
    var bytes := Encode(text);
    assert LowerWord("eyj");
    forall j | 0 <= j < 3 ensures LowerByte(bytes[i + j]) == "eyj"[j] as int { assert bytes[i + j] == JWT_START[j]; }
    MentionedAt(text, i, "eyj");
    ByteIsChar(text, i);
    WebLetters(Before(text, i), Behind(text, i));
    assert WebStart(text, |Before(text, i)|);
  }

  lemma WebLetters(front: string, rest: string)
    requires BeginsWith(rest, "eyj")
    requires |Encode(front)| + 3 <= |Encode(front + rest)|
    requires forall j :: 0 <= j < 3 ==> Encode(front + rest)[|Encode(front)| + j] == JWT_START[j]
    ensures WebStart(front + rest, |front|)
  {
    hide Encode, AnyCase;
    var three, more, bytes, n := rest[..3], rest[3..], Encode(front + rest), |Encode(front)|;
    assert LowerWord("eyj");
    AnyCaseAscii(three, "eyj");
    assert front + three + more == front + rest;
    PartAt(front, three, more);
    forall j | 0 <= j < 3 ensures three[j] == "eyJ"[j] { assert bytes[n + j] == three[j] as int == JWT_START[j]; }
    assert (front + rest)[|front|..|front| + 3] == three;
  }

  lemma {:induction false} NothingFound(rule: Rule, text: string, n: nat)
    requires Plain(text)
    ensures Found(rule, text, n) == []
  {
    hide Plain, PrefixedAt, JwtAt, BearerAt, AssignmentAt;
    if n > 0 {
      NothingFound(rule, text, n - 1);
      NoFamily(text, n - 1);
      NoWebToken(text, n - 1);
      NoBearerWord(text, n - 1);
      NoSeparator(text, n - 1);
    }
  }

  /** A text without `=`, `:`, `eyJ`, the word bearer and the prefixes, in whatever case, is left as it is. */
  lemma PlainKept(text: string)
    requires Plain(text)
    ensures Collected(text) == [] && Redacted(text) == text
  {
    hide Plain, Found;
    NothingFound(Prefixed, text, |Encode(text)|);
    NothingFound(Jwt, text, |Encode(text)|);
    NothingFound(Bearer, text, |Encode(text)|);
    NothingFound(Assignment, text, |Encode(text)|);
  }
}
