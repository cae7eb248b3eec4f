/** A text as its UTF-8 bytes: what a byte offset into it means, which offsets lie between characters, and what a
    slice between two such offsets is. */
module Utf8 {
  import opened Text

  type Byte = n: nat | n < 256

  /** Section 3 of RFC 3629. */
  function Encoded(c: char): (r: seq<Byte>)
    ensures |r| == Utf8Length(c) && !IsContinuation(r[0])
    ensures forall i :: 0 < i < |r| ==> IsContinuation(r[i])
    ensures r[0] < 0x80 <==> |r| == 1
    ensures c < '\U{80}' ==> r == [c as int]
  {
    var n := c as int;
    if n < 0x80 then [n]
    else if n < 0x800 then [0xC0 + n / 0x40, 0x80 + n % 0x40]
    else if n < 0x1_0000 then [0xE0 + n / 0x1000, 0x80 + n / 0x40 % 0x40, 0x80 + n % 0x40]
    else [0xF0 + n / 0x4_0000, 0x80 + n / 0x1000 % 0x40, 0x80 + n / 0x40 % 0x40, 0x80 + n % 0x40]
  }

  predicate IsContinuation(b: Byte) {
    0x80 <= b < 0xC0
  }

  /** `as_bytes` */
  function Encode(s: string): (r: seq<Byte>) {
    if s == "" then [] else Encoded(s[0]) + Encode(s[1..])
  }

  lemma EncodeFirst(s: string)
    requires s != ""
    ensures Encode(s) == Encoded(s[0]) + Encode(s[1..])
  {
  }

  lemma TailJoin(a: string, b: string)
    requires a != ""
    ensures a + b != "" && (a + b)[0] == a[0] && (a + b)[1..] == a[1..] + b
  {
  }

  lemma Regrouped(a: seq<Byte>, b: seq<Byte>, c: seq<Byte>)
    ensures a + (b + c) == (a + b) + c
  {
  }

  lemma {:induction false} EncodeJoin(a: string, b: string)
    ensures Encode(a + b) == Encode(a) + Encode(b)
  {
    if a == "" {
      assert a + b == b;
    } else {
      hide *;
      TailJoin(a, b);
      EncodeJoin(a[1..], b);
      EncodeFirst(a);
      EncodeFirst(a + b);
      Regrouped(Encoded(a[0]), Encode(a[1..]), Encode(b));
    }
  }

  lemma LoneCharacter(c: char)
    ensures Encode([c]) == Encoded(c)
  {
    assert [c][1..] == "";
  }

  lemma {:induction false} EncodeLength(s: string)
    ensures |Encode(s)| == ByteLength(s)
  {
    if s != "" {
      var front, last := s[..|s| - 1], s[|s| - 1];
      EncodeLength(front);
      EncodeJoin(front, [last]);
      LoneCharacter(last);
      assert s == front + [last];
    }
  }

  lemma ByteLengthJoin(a: string, b: string)
    ensures ByteLength(a + b) == ByteLength(a) + ByteLength(b)
  {
    EncodeLength(a);
    EncodeLength(b);
    EncodeLength(a + b);
    EncodeJoin(a, b);
  }

  lemma {:induction false} ByteBounds(s: string)
    ensures |s| <= ByteLength(s) <= 4 * |s|
  {
    if s != "" { ByteBounds(s[..|s| - 1]); }
  }

  lemma {:induction false} AsciiLength(s: string)
    requires forall i :: 0 <= i < |s| ==> s[i] < '\U{80}'
    ensures ByteLength(s) == |s|
  {
    if s != "" { AsciiLength(s[..|s| - 1]); }
  }

  // ---- boundaries ----

  /** `is_char_boundary` */
  predicate IsBoundary(bytes: seq<Byte>, i: nat) {
    i == 0 || i == |bytes| || (i < |bytes| && !IsContinuation(bytes[i]))
  }

  lemma InsideFirst(s: string, i: nat)
    requires s != "" && 0 < i < Utf8Length(s[0])
    ensures !IsBoundary(Encode(s), i)
  {
    assert Encode(s)[i] == Encoded(s[0])[i];
  }

  /** A boundary behind the first character is one of the rest. */
  lemma BoundaryRest(s: string, i: nat)
    requires s != "" && 0 < i <= |Encode(s)| && IsBoundary(Encode(s), i)
    ensures Utf8Length(s[0]) <= i && IsBoundary(Encode(s[1..]), i - Utf8Length(s[0]))
  {
    if i < Utf8Length(s[0]) { InsideFirst(s, i); }
  }

  /** `&s[..i]` */
  function Before(s: string, i: nat): (r: string)
    requires i <= |Encode(s)| && IsBoundary(Encode(s), i)
    ensures |r| <= |s| && r == s[..|r|] && Encode(r) == Encode(s)[..i]
  {
    if i == 0 then ""
    else
      BoundaryRest(s, i);
      [s[0]] + Before(s[1..], i - Utf8Length(s[0]))
  }

  /** `&s[i..]` */
  function Behind(s: string, i: nat): (r: string)
    requires i <= |Encode(s)| && IsBoundary(Encode(s), i)
    ensures |r| <= |s| && r == s[|s| - |r|..] && Encode(r) == Encode(s)[i..]
  {
    if i == 0 then s
    else
      BoundaryRest(s, i);
      Behind(s[1..], i - Utf8Length(s[0]))
  }

  lemma BoundaryBefore(s: string, i: nat, j: nat)
    requires i <= j <= |Encode(s)| && IsBoundary(Encode(s), i) && IsBoundary(Encode(s), j)
    ensures IsBoundary(Encode(Before(s, j)), i) && i <= |Encode(Before(s, j))|
  {
  }

  /** `&s[i..j]` */
  function Slice(s: string, i: nat, j: nat): (r: string)
    requires i <= j <= |Encode(s)| && IsBoundary(Encode(s), i) && IsBoundary(Encode(s), j)
    ensures Encode(r) == Encode(s)[i..j]
  {
    BoundaryBefore(s, i, j);
    Behind(Before(s, j), i)
  }

  /** The boundaries are exactly the byte offsets of characters, and the end. */
  lemma BoundaryExactly(s: string, i: nat)
    requires i <= |Encode(s)|
    ensures IsBoundary(Encode(s), i) <==> exists k :: 0 <= k <= |s| && |Encode(s[..k])| == i
  {
    if IsBoundary(Encode(s), i) {
      var k := |Before(s, i)|;
      assert |Encode(s[..k])| == i;
    }
    if exists k :: 0 <= k <= |s| && |Encode(s[..k])| == i {
      var k :| 0 <= k <= |s| && |Encode(s[..k])| == i;
      CharacterAt(s, k);
    }
  }

  /** Where character `k` lies. */
  lemma CharacterAt(s: string, k: nat)
    requires k <= |s|
    ensures var i := |Encode(s[..k])|;
            && i <= |Encode(s)| && IsBoundary(Encode(s), i)
            && (k < |s| ==> i + Utf8Length(s[k]) <= |Encode(s)| && Encode(s)[i..i + Utf8Length(s[k])] == Encoded(s[k]))
  {
    var front, rest := s[..k], s[k..];
    assert s == front + rest;
    EncodeJoin(front, rest);
    if rest != "" {
      assert Encode(rest) == Encoded(s[k]) + Encode(rest[1..]);
      assert Encode(s)[|Encode(front)|] == Encoded(s[k])[0];
    }
  }

  /** No byte of a character but its first is at a boundary. */
  lemma NoBoundaryInside(s: string, k: nat, i: nat)
    requires k < |s| && |Encode(s[..k])| < i < |Encode(s[..k])| + Utf8Length(s[k])
    ensures i < |Encode(s)| && !IsBoundary(Encode(s), i)
  {
    CharacterAt(s, k);
    var start := |Encode(s[..k])|;
    assert Encode(s)[i] == Encode(s)[start..start + Utf8Length(s[k])][i - start] == Encoded(s[k])[i - start];
  }

  // ---- ASCII ----

  lemma {:induction false} BehindAscii(s: string, i: nat)
    requires i < |Encode(s)| && Encode(s)[i] < 0x80
    ensures IsBoundary(Encode(s), i) && IsBoundary(Encode(s), i + 1)
  {
    hide Encoded;
    var first, rest := Encoded(s[0]), Encode(s[1..]);
    EncodeFirst(s);
    if i < |first| {
      assert first[i] < 0x80;
      assert i == 0 && |first| == 1;
      if rest != [] {
        StartsAtBoundary(s[1..]);
        assert Encode(s)[1] == rest[0];
      }
    } else {
      var j := i - |first|;
      assert rest[j] == Encode(s)[i];
      BehindAscii(s[1..], j);
      assert j + 1 < |rest| ==> rest[j + 1] == Encode(s)[i + 1];
    }
  }

  lemma StartsAtBoundary(s: string)
    requires s != ""
    ensures Encode(s) != [] && !IsContinuation(Encode(s)[0])
  {
    assert Encode(s)[0] == Encoded(s[0])[0];
  }

  // ---- stepping over characters ----

  lemma OneMore(s: string, k: nat)
    requires k < |s|
    ensures |Encode(s[..k + 1])| == |Encode(s[..k])| + Utf8Length(s[k])
  {
    hide Encode, Encoded;
    assert s[..k + 1] == s[..k] + [s[k]];
    EncodeJoin(s[..k], [s[k]]);
    LoneCharacter(s[k]);
  }

  /** A boundary is the offset of what lies behind it. */
  lemma OffsetOf(s: string, i: nat)
    requires i <= |Encode(s)| && IsBoundary(Encode(s), i)
    ensures |Encode(s[..|s| - |Behind(s, i)|])| == i
  {
    hide Encode, Behind, IsBoundary;
    var rest := Behind(s, i);
    assert s == s[..|s| - |rest|] + rest;
    EncodeJoin(s[..|s| - |rest|], rest);
  }

  /** The character at a boundary ends at one. */
  lemma StepForward(s: string, i: nat)
    requires i <= |Encode(s)| && IsBoundary(Encode(s), i) && Behind(s, i) != ""
    ensures var next := i + Utf8Length(Behind(s, i)[0]); next <= |Encode(s)| && IsBoundary(Encode(s), next)
  {
    hide Encode, Behind, IsBoundary, Utf8Length;
    var k := |s| - |Behind(s, i)|;
    OffsetOf(s, i);
    OneMore(s, k);
    CharacterAt(s, k + 1);
  }

  /** The character that ends at a boundary starts at one. */
  lemma StepBack(s: string, i: nat)
    requires 0 < i <= |Encode(s)| && IsBoundary(Encode(s), i)
    ensures Before(s, i) != ""
    ensures var width := Utf8Length(Before(s, i)[|Before(s, i)| - 1]); width <= i && IsBoundary(Encode(s), i - width)
  {
    var k := |Before(s, i)| - 1;
    assert Before(s, i) == s[..k + 1];
    OneMore(s, k);
    CharacterAt(s, k);
  }

  // ---- slices of joined texts ----

  lemma OffsetsRise(s: string, j: nat, k: nat)
    requires j < k <= |s|
    ensures |Encode(s[..j])| < |Encode(s[..k])|
  {
    hide Encode;
    assert s[..k] == s[..j] + s[j..k];
    EncodeJoin(s[..j], s[j..k]);
    EncodeLength(s[j..k]);
    ByteBounds(s[j..k]);
  }

  lemma CutAt(a: string, b: string)
    ensures |Encode(a)| <= |Encode(a + b)| && IsBoundary(Encode(a + b), |Encode(a)|)
  {
    hide Encode;
    assert (a + b)[..|a|] == a;
    CharacterAt(a + b, |a|);
  }

  /** The text before the offset of a part is what was put in front of it. */
  lemma BeforeAt(a: string, b: string)
    ensures |Encode(a)| <= |Encode(a + b)| && IsBoundary(Encode(a + b), |Encode(a)|)
    ensures Before(a + b, |Encode(a)|) == a
  {
    hide Encode, Before, IsBoundary;
    CutAt(a, b);
    var s := a + b;
    var k := |Before(s, |Encode(a)|)|;
    assert s[..|a|] == a;
    OffsetBefore(s, |Encode(a)|);
    if k < |a| { OffsetsRise(s, k, |a|); }
    if |a| < k { OffsetsRise(s, |a|, k); }
  }

  lemma OffsetBefore(s: string, i: nat)
    requires i <= |Encode(s)| && IsBoundary(Encode(s), i)
    ensures |Encode(s[..|Before(s, i)|])| == i
  {
    hide Before, IsBoundary;
    assert Before(s, i) == s[..|Before(s, i)|];
  }

  lemma BehindAt(a: string, b: string)
    ensures |Encode(a)| <= |Encode(a + b)| && IsBoundary(Encode(a + b), |Encode(a)|)
    ensures Behind(a + b, |Encode(a)|) == b
  {
    hide Encode, Behind, IsBoundary;
    CutAt(a, b);
    var s := a + b;
    var k := |s| - |Behind(s, |Encode(a)|)|;
    assert s[..|a|] == a;
    OffsetOf(s, |Encode(a)|);
    if k < |a| { OffsetsRise(s, k, |a|); }
    if |a| < k { OffsetsRise(s, |a|, k); }
    assert s[|a|..] == b;
  }

  lemma SliceAt(a: string, b: string, c: string)
    ensures var i, j := |Encode(a)|, |Encode(a + b)|;
            && i <= j <= |Encode(a + b + c)| && IsBoundary(Encode(a + b + c), i) && IsBoundary(Encode(a + b + c), j)
            && Slice(a + b + c, i, j) == b
  {
    hide Encode, Before, Behind, IsBoundary;
    assert a + b + c == a + (b + c);
    CutAt(a, b + c);
    CutAt(a, b);
    BeforeAt(a + b, c);
    BehindAt(a, b);
  }

  // ---- decoding ----

  /** Section 3 of RFC 3629, read backwards: the first byte says how many follow, and the character is put together from
      their free bits. */
  lemma EncodedMeans(c: char)
    ensures var n, r := c as int, Encoded(c);
            && (r[0] < 0x80 ==> |r| == 1 && n == r[0])
            && (0xC0 <= r[0] < 0xE0 ==> |r| == 2 && n + 0xC0 * 0x40 + 0x80 == r[0] as int * 0x40 + r[1])
            && (0xE0 <= r[0] < 0xF0 ==>
                  && |r| == 3
                  && n + 0xE0 * 0x1000 + 0x80 * 0x40 + 0x80 == r[0] as int * 0x1000 + r[1] as int * 0x40 + r[2])
            && (0xF0 <= r[0] < 0xF8 ==>
                  && |r| == 4
                  && n + 0xF0 * 0x4_0000 + 0x80 * 0x1000 + 0x80 * 0x40 + 0x80
                     == r[0] as int * 0x4_0000 + r[1] as int * 0x1000 + r[2] as int * 0x40 + r[3])
            && (r[0] < 0x80 || 0xC0 <= r[0] < 0xF8) && forall i :: 0 < i < |r| ==> 0x80 <= r[i] < 0xC0
  {
    var n := c as int;
    if 0x800 <= n < 0x1_0000 {
      assert n == n / 0x1000 * 0x1000 + n / 0x40 % 0x40 * 0x40 + n % 0x40 by { ThreeParts(n); }
    } else if 0x1_0000 <= n {
      FourParts(n);
    }
  }

  lemma ThreeParts(n: nat)
    ensures n == n / 0x1000 * 0x1000 + n / 0x40 % 0x40 * 0x40 + n % 0x40
  {
    assert n / 0x40 == n / 0x1000 * 0x40 + n / 0x40 % 0x40;
  }

  lemma FourParts(n: nat)
    ensures n == n / 0x4_0000 * 0x4_0000 + n / 0x1000 % 0x40 * 0x1000 + n / 0x40 % 0x40 * 0x40 + n % 0x40
  {
    ThreeParts(n);
    assert n / 0x1000 == n / 0x4_0000 * 0x40 + n / 0x1000 % 0x40;
  }
}
