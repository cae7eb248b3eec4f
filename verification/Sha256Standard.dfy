/** FIPS 180-4 in its own terms: where the constants come from, what the functions do to each bit, and how words and
    lengths are laid out in bytes. */
module Sha256Standard {
  import opened Sha256

  // ---- constants ----

  const PRIMES_0: seq<nat> := [2, 3, 5, 7, 11, 13, 17, 19]
  const PRIMES_1: seq<nat> := [23, 29, 31, 37, 41, 43, 47, 53]
  const PRIMES_2: seq<nat> := [59, 61, 67, 71, 73, 79, 83, 89]
  const PRIMES_3: seq<nat> := [97, 101, 103, 107, 109, 113, 127, 131]
  const PRIMES_4: seq<nat> := [137, 139, 149, 151, 157, 163, 167, 173]
  const PRIMES_5: seq<nat> := [179, 181, 191, 193, 197, 199, 211, 223]
  const PRIMES_6: seq<nat> := [227, 229, 233, 239, 241, 251, 257, 263]
  const PRIMES_7: seq<nat> := [269, 271, 277, 281, 283, 293, 307, 311]

  /** The first sixty-four prime numbers. */
  const PRIMES: seq<nat> :=
    PRIMES_0 + PRIMES_1 + PRIMES_2 + PRIMES_3 + PRIMES_4 + PRIMES_5 + PRIMES_6 + PRIMES_7

  /** `word` is the first thirty-two bits behind the point of the square root of `n`. */
  ghost predicate IsSquareRoot(n: nat, word: nat) {
    exists whole: nat :: SquareRoot(n, whole, word)
  }

  predicate SquareRoot(n: nat, whole: nat, word: nat) {
    var root := whole * 0x1_0000_0000 + word;
    word < 0x1_0000_0000 && root * root <= n * 0x1_0000_0000_0000_0000 < (root + 1) * (root + 1)
  }

  /** `word` is the first thirty-two bits behind the point of the cube root of `n`. */
  ghost predicate IsCubeRoot(n: nat, word: nat) {
    exists whole: nat :: CubeRoot(n, whole, word)
  }

  predicate CubeRoot(n: nat, whole: nat, word: nat) {
    var root := whole * 0x1_0000_0000 + word;
    && word < 0x1_0000_0000
    && root * root * root <= n * 0x1_0000_0000_0000_0000_0000_0000 < (root + 1) * (root + 1) * (root + 1)
  }

  /** The initial hash value is the square roots of the first eight primes. */
  lemma InitialRoots()
    ensures |INITIAL| == 8 && forall i :: 0 <= i < 8 ==> IsSquareRoot(PRIMES_0[i], INITIAL[i] as nat)
  {
    assert SquareRoot(2, 1, INITIAL[0] as nat) && SquareRoot(3, 1, INITIAL[1] as nat);
    assert SquareRoot(5, 2, INITIAL[2] as nat) && SquareRoot(7, 2, INITIAL[3] as nat);
    assert SquareRoot(11, 3, INITIAL[4] as nat) && SquareRoot(13, 3, INITIAL[5] as nat);
    assert SquareRoot(17, 4, INITIAL[6] as nat) && SquareRoot(19, 4, INITIAL[7] as nat);
  }

  ghost predicate RowOfRoots(primes: seq<nat>, words: seq<bv32>) {
    |primes| == |words| == 8 && forall i :: 0 <= i < 8 ==> IsCubeRoot(primes[i], words[i] as nat)
  }

  lemma RoundRoots0Low()
    ensures forall i :: 0 <= i < 4 ==> IsCubeRoot(PRIMES_0[i], ROUND_0[i] as nat)
  {
    assert CubeRoot(2, 1, ROUND_0[0] as nat) && CubeRoot(3, 1, ROUND_0[1] as nat);
    assert CubeRoot(5, 1, ROUND_0[2] as nat) && CubeRoot(7, 1, ROUND_0[3] as nat);
  }

  lemma RoundRoots0High()
    ensures forall i :: 4 <= i < 8 ==> IsCubeRoot(PRIMES_0[i], ROUND_0[i] as nat)
  {
    assert CubeRoot(11, 2, ROUND_0[4] as nat) && CubeRoot(13, 2, ROUND_0[5] as nat);
    assert CubeRoot(17, 2, ROUND_0[6] as nat) && CubeRoot(19, 2, ROUND_0[7] as nat);
  }

  lemma RoundRoots0()
    ensures RowOfRoots(PRIMES_0, ROUND_0)
  {
    hide IsCubeRoot;
    RoundRoots0Low();
    RoundRoots0High();
  }

  lemma RoundRoots1Low()
    ensures forall i :: 0 <= i < 4 ==> IsCubeRoot(PRIMES_1[i], ROUND_1[i] as nat)
  {
    assert CubeRoot(23, 2, ROUND_1[0] as nat) && CubeRoot(29, 3, ROUND_1[1] as nat);
    assert CubeRoot(31, 3, ROUND_1[2] as nat) && CubeRoot(37, 3, ROUND_1[3] as nat);
  }

  lemma RoundRoots1High()
    ensures forall i :: 4 <= i < 8 ==> IsCubeRoot(PRIMES_1[i], ROUND_1[i] as nat)
  {
    assert CubeRoot(41, 3, ROUND_1[4] as nat) && CubeRoot(43, 3, ROUND_1[5] as nat);
    assert CubeRoot(47, 3, ROUND_1[6] as nat) && CubeRoot(53, 3, ROUND_1[7] as nat);
  }

  lemma RoundRoots1()
    ensures RowOfRoots(PRIMES_1, ROUND_1)
  {
    hide IsCubeRoot;
    RoundRoots1Low();
    RoundRoots1High();
  }

  lemma RoundRoots2Low()
    ensures forall i :: 0 <= i < 4 ==> IsCubeRoot(PRIMES_2[i], ROUND_2[i] as nat)
  {
    assert CubeRoot(59, 3, ROUND_2[0] as nat) && CubeRoot(61, 3, ROUND_2[1] as nat);
    assert CubeRoot(67, 4, ROUND_2[2] as nat) && CubeRoot(71, 4, ROUND_2[3] as nat);
  }

  lemma RoundRoots2High()
    ensures forall i :: 4 <= i < 8 ==> IsCubeRoot(PRIMES_2[i], ROUND_2[i] as nat)
  {
    assert CubeRoot(73, 4, ROUND_2[4] as nat) && CubeRoot(79, 4, ROUND_2[5] as nat);
    assert CubeRoot(83, 4, ROUND_2[6] as nat) && CubeRoot(89, 4, ROUND_2[7] as nat);
  }

  lemma RoundRoots2()
    ensures RowOfRoots(PRIMES_2, ROUND_2)
  {
    hide IsCubeRoot;
    RoundRoots2Low();
    RoundRoots2High();
  }

  lemma RoundRoots3Low()
    ensures forall i :: 0 <= i < 4 ==> IsCubeRoot(PRIMES_3[i], ROUND_3[i] as nat)
  {
    assert CubeRoot(97, 4, ROUND_3[0] as nat) && CubeRoot(101, 4, ROUND_3[1] as nat);
    assert CubeRoot(103, 4, ROUND_3[2] as nat) && CubeRoot(107, 4, ROUND_3[3] as nat);
  }

  lemma RoundRoots3High()
    ensures forall i :: 4 <= i < 8 ==> IsCubeRoot(PRIMES_3[i], ROUND_3[i] as nat)
  {
    assert CubeRoot(109, 4, ROUND_3[4] as nat) && CubeRoot(113, 4, ROUND_3[5] as nat);
    assert CubeRoot(127, 5, ROUND_3[6] as nat) && CubeRoot(131, 5, ROUND_3[7] as nat);
  }

  lemma RoundRoots3()
    ensures RowOfRoots(PRIMES_3, ROUND_3)
  {
    hide IsCubeRoot;
    RoundRoots3Low();
    RoundRoots3High();
  }

  lemma RoundRoots4Low()
    ensures forall i :: 0 <= i < 4 ==> IsCubeRoot(PRIMES_4[i], ROUND_4[i] as nat)
  {
    assert CubeRoot(137, 5, ROUND_4[0] as nat) && CubeRoot(139, 5, ROUND_4[1] as nat);
    assert CubeRoot(149, 5, ROUND_4[2] as nat) && CubeRoot(151, 5, ROUND_4[3] as nat);
  }

  lemma RoundRoots4High()
    ensures forall i :: 4 <= i < 8 ==> IsCubeRoot(PRIMES_4[i], ROUND_4[i] as nat)
  {
    assert CubeRoot(157, 5, ROUND_4[4] as nat) && CubeRoot(163, 5, ROUND_4[5] as nat);
    assert CubeRoot(167, 5, ROUND_4[6] as nat) && CubeRoot(173, 5, ROUND_4[7] as nat);
  }

  lemma RoundRoots4()
    ensures RowOfRoots(PRIMES_4, ROUND_4)
  {
    hide IsCubeRoot;
    RoundRoots4Low();
    RoundRoots4High();
  }

  lemma RoundRoots5Low()
    ensures forall i :: 0 <= i < 4 ==> IsCubeRoot(PRIMES_5[i], ROUND_5[i] as nat)
  {
    assert CubeRoot(179, 5, ROUND_5[0] as nat) && CubeRoot(181, 5, ROUND_5[1] as nat);
    assert CubeRoot(191, 5, ROUND_5[2] as nat) && CubeRoot(193, 5, ROUND_5[3] as nat);
  }

  lemma RoundRoots5High()
    ensures forall i :: 4 <= i < 8 ==> IsCubeRoot(PRIMES_5[i], ROUND_5[i] as nat)
  {
    assert CubeRoot(197, 5, ROUND_5[4] as nat) && CubeRoot(199, 5, ROUND_5[5] as nat);
    assert CubeRoot(211, 5, ROUND_5[6] as nat) && CubeRoot(223, 6, ROUND_5[7] as nat);
  }

  lemma RoundRoots5()
    ensures RowOfRoots(PRIMES_5, ROUND_5)
  {
    hide IsCubeRoot;
    RoundRoots5Low();
    RoundRoots5High();
  }

  lemma RoundRoots6Low()
    ensures forall i :: 0 <= i < 4 ==> IsCubeRoot(PRIMES_6[i], ROUND_6[i] as nat)
  {
    assert CubeRoot(227, 6, ROUND_6[0] as nat) && CubeRoot(229, 6, ROUND_6[1] as nat);
    assert CubeRoot(233, 6, ROUND_6[2] as nat) && CubeRoot(239, 6, ROUND_6[3] as nat);
  }

  lemma RoundRoots6High()
    ensures forall i :: 4 <= i < 8 ==> IsCubeRoot(PRIMES_6[i], ROUND_6[i] as nat)
  {
    assert CubeRoot(241, 6, ROUND_6[4] as nat) && CubeRoot(251, 6, ROUND_6[5] as nat);
    assert CubeRoot(257, 6, ROUND_6[6] as nat) && CubeRoot(263, 6, ROUND_6[7] as nat);
  }

  lemma RoundRoots6()
    ensures RowOfRoots(PRIMES_6, ROUND_6)
  {
    hide IsCubeRoot;
    RoundRoots6Low();
    RoundRoots6High();
  }

  lemma RoundRoots7Low()
    ensures forall i :: 0 <= i < 4 ==> IsCubeRoot(PRIMES_7[i], ROUND_7[i] as nat)
  {
    assert CubeRoot(269, 6, ROUND_7[0] as nat) && CubeRoot(271, 6, ROUND_7[1] as nat);
    assert CubeRoot(277, 6, ROUND_7[2] as nat) && CubeRoot(281, 6, ROUND_7[3] as nat);
  }

  lemma RoundRoots7High()
    ensures forall i :: 4 <= i < 8 ==> IsCubeRoot(PRIMES_7[i], ROUND_7[i] as nat)
  {
    assert CubeRoot(283, 6, ROUND_7[4] as nat) && CubeRoot(293, 6, ROUND_7[5] as nat);
    assert CubeRoot(307, 6, ROUND_7[6] as nat) && CubeRoot(311, 6, ROUND_7[7] as nat);
  }

  lemma RoundRoots7()
    ensures RowOfRoots(PRIMES_7, ROUND_7)
  {
    hide IsCubeRoot;
    RoundRoots7Low();
    RoundRoots7High();
  }

  lemma RowsJoined(a: seq<nat>, b: seq<nat>, x: seq<bv32>, y: seq<bv32>)
    requires |a| == |x| && RowOfRoots(b, y) && forall i :: 0 <= i < |a| ==> IsCubeRoot(a[i], x[i] as nat)
    ensures |a + b| == |x + y| == |a| + 8 && forall i :: 0 <= i < |a + b| ==> IsCubeRoot((a + b)[i], (x + y)[i] as nat)
  {
    hide IsCubeRoot;
  }

  /** The round constants are the cube roots of the first sixty-four primes. */
  lemma RoundRoots()
    ensures |ROUND| == |PRIMES| == 64 && forall t :: 0 <= t < 64 ==> IsCubeRoot(PRIMES[t], ROUND[t] as nat)
  {
    hide IsCubeRoot, RowOfRoots;
    RoundRoots0();
    RoundRoots1();
    RoundRoots2();
    RoundRoots3();
    RoundRoots4();
    RoundRoots5();
    RoundRoots6();
    RoundRoots7();
    FirstRow();
    var a1, x1 := PRIMES_0 + PRIMES_1, ROUND_0 + ROUND_1;
    var a2, x2 := a1 + PRIMES_2, x1 + ROUND_2;
    var a3, x3 := a2 + PRIMES_3, x2 + ROUND_3;
    var a4, x4 := a3 + PRIMES_4, x3 + ROUND_4;
    var a5, x5 := a4 + PRIMES_5, x4 + ROUND_5;
    var a6, x6 := a5 + PRIMES_6, x5 + ROUND_6;
    RowsJoined(PRIMES_0, PRIMES_1, ROUND_0, ROUND_1);
    RowsJoined(a1, PRIMES_2, x1, ROUND_2);
    RowsJoined(a2, PRIMES_3, x2, ROUND_3);
    RowsJoined(a3, PRIMES_4, x3, ROUND_4);
    RowsJoined(a4, PRIMES_5, x4, ROUND_5);
    RowsJoined(a5, PRIMES_6, x5, ROUND_6);
    RowsJoined(a6, PRIMES_7, x6, ROUND_7);
  }

  lemma FirstRow()
    requires RowOfRoots(PRIMES_0, ROUND_0)
    ensures |PRIMES_0| == |ROUND_0| == 8 && forall i :: 0 <= i < 8 ==> IsCubeRoot(PRIMES_0[i], ROUND_0[i] as nat)
  {
    hide IsCubeRoot;
  }

  // ---- bits ----

  /** Where the bits of `x` are set, the choice has those of `y`, and where they are not, those of `z`. */
  lemma ChooseBits(x: bv32, y: bv32, z: bv32, m: bv32)
    ensures x & m == m ==> Ch(x, y, z) & m == y & m
    ensures x & m == 0 ==> Ch(x, y, z) & m == z & m
  {
  }

  /** Wherever two of the three agree, the majority has what they have. */
  lemma MajorityBits(x: bv32, y: bv32, z: bv32, m: bv32)
    ensures x & m == y & m ==> Maj(x, y, z) & m == x & m
    ensures x & m == z & m ==> Maj(x, y, z) & m == x & m
    ensures y & m == z & m ==> Maj(x, y, z) & m == y & m
  {
    FirstTwo(x, y, z, m);
    FirstTwo(x, z, y, m);
    FirstTwo(y, z, x, m);
    Symmetric(x, y, z);
  }

  lemma FirstTwo(x: bv32, y: bv32, z: bv32, m: bv32)
    ensures x & m == y & m ==> Maj(x, y, z) & m == x & m
  {
  }

  lemma Symmetric(x: bv32, y: bv32, z: bv32)
    ensures Maj(x, y, z) == Maj(x, z, y) == Maj(y, z, x)
  {
  }

  lemma Rotated2(x: bv32)
    ensures Rotr(x, 2) == (x >> 2) | (x << 30)
  {
  }

  lemma Rotated13(x: bv32)
    ensures Rotr(x, 13) == (x >> 13) | (x << 19)
  {
  }

  lemma Rotated22(x: bv32)
    ensures Rotr(x, 22) == (x >> 22) | (x << 10)
  {
  }

  lemma Rotated6(x: bv32)
    ensures Rotr(x, 6) == (x >> 6) | (x << 26)
  {
  }

  lemma Rotated11(x: bv32)
    ensures Rotr(x, 11) == (x >> 11) | (x << 21)
  {
  }

  lemma Rotated25(x: bv32)
    ensures Rotr(x, 25) == (x >> 25) | (x << 7)
  {
  }

  lemma Rotated7(x: bv32)
    ensures Rotr(x, 7) == (x >> 7) | (x << 25)
  {
  }

  lemma Rotated18(x: bv32)
    ensures Rotr(x, 18) == (x >> 18) | (x << 14)
  {
  }

  lemma Rotated17(x: bv32)
    ensures Rotr(x, 17) == (x >> 17) | (x << 15)
  {
  }

  lemma Rotated19(x: bv32)
    ensures Rotr(x, 19) == (x >> 19) | (x << 13)
  {
  }

  lemma BigSigma0Of(x: bv32, a: bv32, b: bv32, c: bv32)
    requires a == Rotr(x, 2) && b == Rotr(x, 13) && c == Rotr(x, 22)
    ensures BigSigma0(x) == a ^ b ^ c
  {
    hide Rotr;
  }

  /** The sigmas are parities of the word, turned to the right by fixed distances or shifted. */
  lemma BigSigma0Means(x: bv32, a: bv32, b: bv32, c: bv32)
    requires a == (x >> 2) | (x << 30) && b == (x >> 13) | (x << 19) && c == (x >> 22) | (x << 10)
    ensures BigSigma0(x) == a ^ b ^ c
  {
    hide *;
    Rotated2(x);
    Rotated13(x);
    Rotated22(x);
    BigSigma0Of(x, a, b, c);
  }

  lemma BigSigma1Of(x: bv32, a: bv32, b: bv32, c: bv32)
    requires a == Rotr(x, 6) && b == Rotr(x, 11) && c == Rotr(x, 25)
    ensures BigSigma1(x) == a ^ b ^ c
  {
    hide Rotr;
  }

  lemma BigSigma1Means(x: bv32, a: bv32, b: bv32, c: bv32)
    requires a == (x >> 6) | (x << 26) && b == (x >> 11) | (x << 21) && c == (x >> 25) | (x << 7)
    ensures BigSigma1(x) == a ^ b ^ c
  {
    hide *;
    Rotated6(x);
    Rotated11(x);
    Rotated25(x);
    BigSigma1Of(x, a, b, c);
  }

  lemma SmallSigma0Of(x: bv32, a: bv32, b: bv32, c: bv32)
    requires a == Rotr(x, 7) && b == Rotr(x, 18) && c == x >> 3
    ensures SmallSigma0(x) == a ^ b ^ c
  {
    hide Rotr;
  }

  lemma SmallSigma0Means(x: bv32, a: bv32, b: bv32, c: bv32)
    requires a == (x >> 7) | (x << 25) && b == (x >> 18) | (x << 14) && c == x >> 3
    ensures SmallSigma0(x) == a ^ b ^ c
  {
    hide *;
    Rotated7(x);
    Rotated18(x);
    SmallSigma0Of(x, a, b, c);
  }

  lemma SmallSigma1Of(x: bv32, a: bv32, b: bv32, c: bv32)
    requires a == Rotr(x, 17) && b == Rotr(x, 19) && c == x >> 10
    ensures SmallSigma1(x) == a ^ b ^ c
  {
    hide Rotr;
  }

  lemma SmallSigma1Means(x: bv32, a: bv32, b: bv32, c: bv32)
    requires a == (x >> 17) | (x << 15) && b == (x >> 19) | (x << 13) && c == x >> 10
    ensures SmallSigma1(x) == a ^ b ^ c
  {
    hide *;
    Rotated17(x);
    Rotated19(x);
    SmallSigma1Of(x, a, b, c);
  }

  // ---- bytes ----

  /** The number the bytes stand for, most significant first. */
  function NumberOf(bytes: seq<Byte>): nat {
    if bytes == [] then 0 else NumberOf(bytes[..|bytes| - 1]) * 256 + bytes[|bytes| - 1]
  }

  lemma {:induction false} BigEndianMeans(n: nat, k: nat)
    requires n < Power256(k)
    ensures NumberOf(BigEndian(n, k)) == n
  {
    if k > 0 {
      assert n / 256 < Power256(k - 1);
      BigEndianMeans(n / 256, k - 1);
      assert BigEndian(n, k)[..k - 1] == BigEndian(n / 256, k - 1);
    }
  }

  lemma NumberOfFour(bytes: seq<Byte>)
    requires |bytes| == 4
    ensures NumberOf(bytes) == ((bytes[0] as int * 256 + bytes[1]) * 256 + bytes[2]) * 256 + bytes[3]
  {
    assert bytes[..3][..2] == bytes[..2] && bytes[..2][..1] == bytes[..1] && bytes[..1][..0] == [];
    assert NumberOf(bytes[..1]) == bytes[0];
    assert NumberOf(bytes[..2]) == NumberOf(bytes[..1]) * 256 + bytes[1];
    assert NumberOf(bytes[..3]) == NumberOf(bytes[..2]) * 256 + bytes[2];
  }

  lemma BytesOf(n: nat)
    requires n < 0x1_0000_0000
    ensures n == ((n / 0x100_0000 % 256 * 256 + n / 0x1_0000 % 256) * 256 + n / 0x100 % 256) * 256 + n % 256
  {
    assert n / 0x100 == n / 0x1_0000 * 256 + n / 0x100 % 256;
    assert n / 0x1_0000 == n / 0x100_0000 * 256 + n / 0x1_0000 % 256;
  }

  /** Words are written and read most significant byte first. */
  lemma WordBytesMean(w: bv32)
    ensures NumberOf(WordBytes(w)) == w as int
  {
    NumberOfFour(WordBytes(w));
    BytesOf(w as int);
  }

  lemma WordOfMeans(a: Byte, b: Byte, c: Byte, d: Byte)
    ensures NumberOf([a, b, c, d]) < 0x1_0000_0000 && WordOf(a, b, c, d) == NumberOf([a, b, c, d]) as bv32
  {
    NumberOfFour([a, b, c, d]);
  }

  /** Padding: the message, a one bit, zeros, and the length of the message in bits. */
  lemma PaddedMeans(message: seq<Byte>)
    requires |message| < 0x2000_0000_0000_0000
    ensures var p := Padded(message);
            && p[..|message|] == message && p[|message|] == 0x80
            && (forall i :: |message| < i < |p| - 8 ==> p[i] == 0) && NumberOf(p[|p| - 8..]) == 8 * |message|
  {
    hide BigEndian, ZeroCount;
    var p := Padded(message);
    EightBytes();
    BigEndianMeans(|message| * 8, 8);
    assert p[|p| - 8..] == BigEndian(|message| * 8, 8);
  }

  /** The digest is the words of the last hash value, and the text of a tag its bytes in two lower-case digits each. */
  lemma {:induction false} DigestMeans(h: seq<bv32>, i: nat)
    requires i < |h|
    ensures NumberOf(DigestBytes(h)[4 * i..4 * i + 4]) == h[i] as int
  {
    var n := |h| - 1;
    var front := DigestBytes(h[..n]);
    if i < n {
      DigestMeans(h[..n], i);
      assert DigestBytes(h)[4 * i..4 * i + 4] == front[4 * i..4 * i + 4];
    } else {
      WordBytesMean(h[n]);
      assert DigestBytes(h)[4 * i..4 * i + 4] == WordBytes(h[n]);
    }
  }

  lemma {:induction false} HexMeans(bytes: seq<Byte>, i: nat)
    requires i < |bytes|
    ensures HexOf(bytes)[2 * i] == "0123456789abcdef"[bytes[i] / 16]
    ensures HexOf(bytes)[2 * i + 1] == "0123456789abcdef"[bytes[i] % 16]
  {
    if i < |bytes| - 1 { HexMeans(bytes[..|bytes| - 1], i); }
  }
}
