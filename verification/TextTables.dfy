/** The character classes and text functions that everything else shares, in tables. */
module TextTables {
  import opened Text

  // ---- classes ----

  const SPACES: seq<int> := [
    0x09, 0x0A, 0x0B, 0x0C, 0x0D, 0x20, 0x85, 0xA0, 0x1680, 0x2000, 0x2001, 0x2002, 0x2003, 0x2004, 0x2005, 0x2006,
    0x2007, 0x2008, 0x2009, 0x200A, 0x2028, 0x2029, 0x202F, 0x205F, 0x3000]

  /** The twenty-five characters with the property White_Space. */
  lemma WhitespaceTable(c: char)
    ensures IsWhitespace(c) <==> c as int in SPACES
  {
    var n := c as int;
    if IsWhitespace(c) {
      assert SPACES[0] == 0x09 && SPACES[1] == 0x0A && SPACES[2] == 0x0B && SPACES[3] == 0x0C && SPACES[4] == 0x0D;
      assert SPACES[5] == 0x20 && SPACES[6] == 0x85 && SPACES[7] == 0xA0 && SPACES[8] == 0x1680;
      assert 0x2000 <= n <= 0x200A ==> SPACES[9 + (n - 0x2000)] == n;
      assert SPACES[20] == 0x2028 && SPACES[21] == 0x2029 && SPACES[22] == 0x202F && SPACES[23] == 0x205F;
      assert SPACES[24] == 0x3000;
    }
  }

  /** The control characters: C0, DEL and C1. */
  lemma ControlTable(c: char)
    ensures IsControl(c) <==> c as int <= 0x1F || 0x7F <= c as int <= 0x9F
  {
  }

  const DIGITS := "0123456789"

  /** The ten digits count as their places. */
  lemma DigitTable(c: char)
    ensures IsDigit(c) <==> c in DIGITS
    ensures forall k :: 0 <= k < 10 && c == DIGITS[k] ==> DigitsValue([c]) == k && Decimal(k) == [c]
  {
    if IsDigit(c) { assert c == DIGITS[c as int - 0x30]; }
    if c in DIGITS { assert [c][..0] == ""; }
  }

  const HEX_DIGITS := "0123456789abcdefABCDEF"

  lemma HexTable(c: char)
    ensures IsHex(c) <==> c in HEX_DIGITS
  {
    var n := c as int;
    if IsHex(c) {
      assert 0x30 <= n <= 0x39 ==> HEX_DIGITS[n - 0x30] == c;
      assert 0x61 <= n <= 0x66 ==> HEX_DIGITS[10 + (n - 0x61)] == c;
      assert 0x41 <= n <= 0x46 ==> HEX_DIGITS[16 + (n - 0x41)] == c;
    }
  }

  /** A tag is the name of the hash, a colon and sixty-four hexadecimal digits. */
  lemma TagMeans(s: string)
    ensures ValidTag(s)
       <==> exists hex :: s == "sha256:" + hex && |hex| == 64 && forall c :: c in hex ==> c in HEX_DIGITS
  {
    if ValidTag(s) {
      var hex := s[7..];
      forall c | c in hex ensures c in HEX_DIGITS { HexTable(c); }
      assert s == "sha256:" + hex;
    }
    if hex :| s == "sha256:" + hex && |hex| == 64 && forall c :: c in hex ==> c in HEX_DIGITS {
      forall i | 7 <= i < 71 ensures IsHex(s[i]) {
        assert s[i] == hex[i - 7];
        HexTable(s[i]);
      }
    }
  }

  /** What is printed of a text is the text itself, but for control characters that have no escape, which are spaces. */
  lemma CleanTable(c: char)
    ensures Clean([c]) == if IsControl(c) && c !in "\n\r\t" then " " else [c]
  {
    assert Clean([c])[0] == CleanChar(c);
  }

  // ---- case ----

  predicate SameLetter(c: char, lower: char) {
    c == lower || ('a' <= lower <= 'z' && c as int == lower as int - 32)
  }

  /** The text is this lower-case word, in any ASCII case. */
  predicate AnyCase(s: string, word: string) {
    |s| == |word| && forall i :: 0 <= i < |s| ==> SameLetter(s[i], word[i])
  }

  predicate LowerWord(word: string) {
    forall i :: 0 <= i < |word| ==> word[i] < '\U{80}' && !('A' <= word[i] <= 'Z')
  }

  lemma AnyCaseLower(s: string, word: string)
    requires LowerWord(word)
    ensures AnyCase(s, word) <==> AsciiLower(s) == word
  {
    if AsciiLower(s) == word {
      forall i | 0 <= i < |s| ensures SameLetter(s[i], word[i]) { assert AsciiLower(s)[i] == word[i]; }
    }
    if AnyCase(s, word) {
      forall i | 0 <= i < |s| ensures AsciiLower(s)[i] == word[i] { assert SameLetter(s[i], word[i]); }
    }
  }

  // ---- trimming ----

  predicate AllWhite(s: string) {
    forall i :: 0 <= i < |s| ==> IsWhitespace(s[i])
  }

  lemma {:induction false} TrimmedStart(pre: string, s: string)
    requires AllWhite(pre) && s != "" && !IsWhitespace(s[0])
    ensures TrimStart(pre + s) == s
  {
    hide IsWhitespace;
    if pre == "" {
      assert pre + s == s;
    } else {
      assert (pre + s)[1..] == pre[1..] + s;
      TrimmedStart(pre[1..], s);
    }
  }

  lemma {:induction false} TrimmedEnd(s: string, post: string)
    requires AllWhite(post) && s != "" && !IsWhitespace(s[|s| - 1])
    ensures TrimEnd(s + post) == s
  {
    hide IsWhitespace;
    if post == "" {
      assert s + post == s;
    } else {
      var k := |post| - 1;
      assert (s + post)[..|s + post| - 1] == s + post[..k];
      TrimmedEnd(s, post[..k]);
    }
  }

  lemma {:induction false} TrimEndSplits(s: string)
    ensures var t := TrimEnd(s);
            && |t| <= |s| && t == s[..|t|] && AllWhite(s[|t|..]) && (t != "" ==> !IsWhitespace(t[|t| - 1]))
  {
    hide IsWhitespace;
    if s != "" && IsWhitespace(s[|s| - 1]) {
      TrimEndSplits(s[..|s| - 1]);
      var t := TrimEnd(s);
      assert s[|t|..] == s[..|s| - 1][|t|..] + [s[|s| - 1]];
    }
  }

  lemma {:induction false} TrimKeeps(x: string, y: string)
    requires x != "" && !IsWhitespace(x[|x| - 1])
    ensures x <= TrimEnd(x + y)
  {
    hide IsWhitespace;
    if y == "" {
      assert x + y == x;
    } else if IsWhitespace(y[|y| - 1]) {
      assert (x + y)[..|x + y| - 1] == x + y[..|y| - 1];
      TrimKeeps(x, y[..|y| - 1]);
    }
  }

  /** Trimming takes white space off both ends, and nothing else: it is the only way to write the text as white space,
      nothing or something that neither begins nor ends with any, and white space. */
  lemma TrimmedExactly(pre: string, core: string, post: string)
    requires AllWhite(pre) && AllWhite(post)
    requires core != "" ==> !IsWhitespace(core[0]) && !IsWhitespace(core[|core| - 1])
    ensures TrimEnd(TrimStart(pre + core + post)) == core
  {
    hide TrimEnd, TrimStart, IsWhitespace;
    assert pre + core + post == pre + (core + post);
    if core == "" {
      assert pre + core + post == pre + post;
      WhiteTrimmed(pre + post);
    } else {
      TrimmedStart(pre, core + post);
      TrimmedEnd(core, post);
    }
  }

  lemma {:induction false} WhiteTrimmed(s: string)
    requires AllWhite(s)
    ensures TrimEnd(TrimStart(s)) == ""
  {
    hide IsWhitespace;
    if s != "" { WhiteTrimmed(s[1..]); }
  }
}
