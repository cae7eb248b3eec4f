/** SHA-256 as the repository computes it, with loops over arrays, and as FIPS 180-4 defines it, by recursion:
    the loops compute the definition. Padding is whole blocks, minimal, and loses nothing. */
module Sha256 {
  import opened Text

  type Byte = n: int | 0 <= n < 256

  const INITIAL: seq<bv32> := [
    0x6a09e667, 0xbb67ae85, 0x3c6ef372, 0xa54ff53a, 0x510e527f, 0x9b05688c, 0x1f83d9ab, 0x5be0cd19]

  const ROUND_0: seq<bv32> := [
    0x428a2f98, 0x71374491, 0xb5c0fbcf, 0xe9b5dba5, 0x3956c25b, 0x59f111f1, 0x923f82a4, 0xab1c5ed5]
  const ROUND_1: seq<bv32> := [
    0xd807aa98, 0x12835b01, 0x243185be, 0x550c7dc3, 0x72be5d74, 0x80deb1fe, 0x9bdc06a7, 0xc19bf174]
  const ROUND_2: seq<bv32> := [
    0xe49b69c1, 0xefbe4786, 0x0fc19dc6, 0x240ca1cc, 0x2de92c6f, 0x4a7484aa, 0x5cb0a9dc, 0x76f988da]
  const ROUND_3: seq<bv32> := [
    0x983e5152, 0xa831c66d, 0xb00327c8, 0xbf597fc7, 0xc6e00bf3, 0xd5a79147, 0x06ca6351, 0x14292967]
  const ROUND_4: seq<bv32> := [
    0x27b70a85, 0x2e1b2138, 0x4d2c6dfc, 0x53380d13, 0x650a7354, 0x766a0abb, 0x81c2c92e, 0x92722c85]
  const ROUND_5: seq<bv32> := [
    0xa2bfe8a1, 0xa81a664b, 0xc24b8b70, 0xc76c51a3, 0xd192e819, 0xd6990624, 0xf40e3585, 0x106aa070]
  const ROUND_6: seq<bv32> := [
    0x19a4c116, 0x1e376c08, 0x2748774c, 0x34b0bcb5, 0x391c0cb3, 0x4ed8aa4a, 0x5b9cca4f, 0x682e6ff3]
  const ROUND_7: seq<bv32> := [
    0x748f82ee, 0x78a5636f, 0x84c87814, 0x8cc70208, 0x90befffa, 0xa4506ceb, 0xbef9a3f7, 0xc67178f2]

  const ROUND: seq<bv32> := ROUND_0 + ROUND_1 + ROUND_2 + ROUND_3 + ROUND_4 + ROUND_5 + ROUND_6 + ROUND_7

  // ---- the definition (FIPS 180-4, sections 4.1.2, 5.1.1 and 6.2.2) ----

  function Rotr(x: bv32, n: nat): bv32
    requires n < 32
  {
    (x >> n) | (x << (32 - n))
  }

  /** Addition of words, modulo 2^32. */
  function Add(x: bv32, y: bv32): bv32 { x + y }

  function Sum(w: bv32, x: bv32, y: bv32, z: bv32): bv32 { w + x + y + z }

  function SmallSigma0(x: bv32): bv32 { Rotr(x, 7) ^ Rotr(x, 18) ^ (x >> 3) }

  function SmallSigma1(x: bv32): bv32 { Rotr(x, 17) ^ Rotr(x, 19) ^ (x >> 10) }

  function BigSigma0(x: bv32): bv32 { Rotr(x, 2) ^ Rotr(x, 13) ^ Rotr(x, 22) }

  function BigSigma1(x: bv32): bv32 { Rotr(x, 6) ^ Rotr(x, 11) ^ Rotr(x, 25) }

  function Ch(x: bv32, y: bv32, z: bv32): bv32 { (x & y) ^ (!x & z) }

  function Maj(x: bv32, y: bv32, z: bv32): bv32 { (x & y) ^ (x & z) ^ (y & z) }

  function WordOf(a: Byte, b: Byte, c: Byte, d: Byte): bv32 {
    (a * 0x100_0000 + b * 0x1_0000 + c * 0x100 + d) as bv32
  }

  type Block = b: seq<Byte> | |b| == 64 witness seq(64, _ => 0)

  /** The message schedule. */
  function Schedule(block: Block, t: nat): bv32 {
    if t < 16 then WordOf(block[4 * t], block[4 * t + 1], block[4 * t + 2], block[4 * t + 3])
    else
      Sum(SmallSigma1(Schedule(block, t - 2)), Schedule(block, t - 7), SmallSigma0(Schedule(block, t - 15)),
          Schedule(block, t - 16))
  }

  datatype Working = Working(a: bv32, b: bv32, c: bv32, d: bv32, e: bv32, f: bv32, g: bv32, h: bv32)

  /** The working variables after `t` rounds. */
  function Rounds(block: Block, start: Working, t: nat): Working
    requires t <= 64
  {
    if t == 0 then start
    else
      var w := Rounds(block, start, t - 1);
      var t1 := Add(Add(Add(Add(w.h, BigSigma1(w.e)), Ch(w.e, w.f, w.g)), ROUND[t - 1]), Schedule(block, t - 1));
      var t2 := Add(BigSigma0(w.a), Maj(w.a, w.b, w.c));
      Working(Add(t1, t2), w.a, w.b, w.c, Add(w.d, t1), w.e, w.f, w.g)
  }

  type Hash = h: seq<bv32> | |h| == 8 witness seq(8, _ => 0)

  function WorkingOf(h: Hash): Working {
    Working(h[0], h[1], h[2], h[3], h[4], h[5], h[6], h[7])
  }

  function Compressed(h: Hash, block: Block): Hash {
    var w := Rounds(block, WorkingOf(h), 64);
    [Add(h[0], w.a), Add(h[1], w.b), Add(h[2], w.c), Add(h[3], w.d),
     Add(h[4], w.e), Add(h[5], w.f), Add(h[6], w.g), Add(h[7], w.h)]
  }

  /** The hash value after the first `n` blocks of a padded message. */
  function HashAfter(padded: seq<Byte>, n: nat): Hash
    requires 64 * n <= |padded|
  {
    if n == 0 then INITIAL else Compressed(HashAfter(padded, n - 1), padded[64 * (n - 1)..64 * n])
  }

  function BigEndian(n: nat, k: nat): (r: seq<Byte>)
    ensures |r| == k
  {
    if k == 0 then [] else BigEndian(n / 256, k - 1) + [n % 256]
  }

  function Zeros(n: nat): (r: seq<Byte>)
    ensures |r| == n && forall i :: 0 <= i < n ==> r[i] == 0
  {
    seq(n, _ => 0)
  }

  /** The smallest number of zero bytes that leaves eight bytes of the last block. */
  function ZeroCount(len: nat): (k: nat)
    ensures k < 64 && (len + 1 + k) % 64 == 56 && (len + 9 + k) % 64 == 0
  {
    (119 - len % 64) % 64
  }

  const U64_RANGE: nat := 0x1_0000_0000_0000_0000

  function Padded(message: seq<Byte>): (r: seq<Byte>)
    ensures |r| == |message| + 9 + ZeroCount(|message|) && |r| % 64 == 0
  {
    message + [0x80] + Zeros(ZeroCount(|message|)) + BigEndian((|message| * 8) % U64_RANGE, 8)
  }

  function WordBytes(w: bv32): (r: seq<Byte>)
    ensures |r| == 4
  {
    var n := w as int;
    [n / 0x100_0000 % 256, n / 0x1_0000 % 256, n / 0x100 % 256, n % 256]
  }

  function DigestBytes(h: seq<bv32>): (r: seq<Byte>)
    ensures |r| == 4 * |h|
  {
    if h == [] then [] else DigestBytes(h[..|h| - 1]) + WordBytes(h[|h| - 1])
  }

  /** SHA-256 of a message. */
  function Digest(message: seq<Byte>): (r: seq<Byte>)
    ensures |r| == 32
  {
    var padded := Padded(message);
    DigestBytes(HashAfter(padded, |padded| / 64))
  }

  function HexChar(n: nat): char
    requires n < 16
  {
    "0123456789abcdef"[n]
  }

  function HexOf(bytes: seq<Byte>): (r: string)
    ensures |r| == 2 * |bytes|
  {
    if bytes == [] then ""
    else
      var last := bytes[|bytes| - 1];
      HexOf(bytes[..|bytes| - 1]) + [HexChar(last / 16), HexChar(last % 16)]
  }

  /** `sha256_tagged` */
  function Tagged(message: seq<Byte>): string {
    "sha256:" + HexOf(Digest(message))
  }

  // ---- the loops ----

  /** `compress`: the schedule is filled in place, eight variables are rotated, the state is added to. */
  method Compress(state: array<bv32>, chunk: Block)
    requires state.Length == 8
    modifies state
    ensures state[..] == Compressed(old(state[..]), chunk)
  {
    ghost var before: Hash := state[..];
    var schedule := FillSchedule(chunk);
    var start := Working(state[0], state[1], state[2], state[3], state[4], state[5], state[6], state[7]);
    var w := RunRounds(chunk, schedule, start);
    hide *;
    AddAll(state, w);
    AddedUp(before, chunk, w, state[..]);
  }

  method AddAll(state: array<bv32>, w: Working)
    requires state.Length == 8
    modifies state
    ensures state[..] == old([Add(state[0], w.a), Add(state[1], w.b), Add(state[2], w.c), Add(state[3], w.d),
                              Add(state[4], w.e), Add(state[5], w.f), Add(state[6], w.g), Add(state[7], w.h)])
  {
    hide Add;
    state[0], state[1] := Add(state[0], w.a), Add(state[1], w.b);
    state[2], state[3] := Add(state[2], w.c), Add(state[3], w.d);
    state[4], state[5] := Add(state[4], w.e), Add(state[5], w.f);
    state[6], state[7] := Add(state[6], w.g), Add(state[7], w.h);
  }

  lemma AddedUp(before: Hash, chunk: Block, w: Working, after: seq<bv32>)
    requires w == Rounds(chunk, Working(before[0], before[1], before[2], before[3], before[4], before[5], before[6],
                                        before[7]), 64)
    requires after == [Add(before[0], w.a), Add(before[1], w.b), Add(before[2], w.c), Add(before[3], w.d),
                       Add(before[4], w.e), Add(before[5], w.f), Add(before[6], w.g), Add(before[7], w.h)]
    ensures after == Compressed(before, chunk)
  {
    hide Rounds, Add;
  }

  method FillSchedule(chunk: Block) returns (schedule: array<bv32>)
    ensures fresh(schedule) && schedule.Length == 64 && forall t :: 0 <= t < 64 ==> schedule[t] == Schedule(chunk, t)
  {
    hide WordOf, SmallSigma0, SmallSigma1, Sum;
    schedule := new bv32[64];
    for index := 0 to 16
      invariant forall t :: 0 <= t < index ==> schedule[t] == Schedule(chunk, t)
    {
      schedule[index] := WordOf(chunk[4 * index], chunk[4 * index + 1], chunk[4 * index + 2], chunk[4 * index + 3]);
    }
    for index := 16 to 64
      invariant forall t :: 0 <= t < index ==> schedule[t] == Schedule(chunk, t)
    {
      var s0 := SmallSigma0(schedule[index - 15]);
      var s1 := SmallSigma1(schedule[index - 2]);
      Reordered(schedule[index - 16], s0, schedule[index - 7], s1);
      schedule[index] := Sum(schedule[index - 16], s0, schedule[index - 7], s1);
    }
  }

  /** The code adds the four terms of a schedule word in another order than the standard. */
  lemma Reordered(a: bv32, b: bv32, c: bv32, d: bv32)
    ensures Sum(a, b, c, d) == Sum(d, c, b, a)
  {
  }

  method RunRounds(chunk: Block, schedule: array<bv32>, start: Working) returns (w: Working)
    requires schedule.Length == 64 && forall t :: 0 <= t < 64 ==> schedule[t] == Schedule(chunk, t)
    ensures w == Rounds(chunk, start, 64)
  {
    hide Schedule, BigSigma0, BigSigma1, Ch, Maj, Add;
    var a, b, c, d, e, f, g, h := start.a, start.b, start.c, start.d, start.e, start.f, start.g, start.h;
    for index := 0 to 64
      invariant Working(a, b, c, d, e, f, g, h) == Rounds(chunk, start, index)
    {
      var temp1 := Add(Add(Add(Add(h, BigSigma1(e)), Ch(e, f, g)), ROUND[index]), schedule[index]);
      var temp2 := Add(BigSigma0(a), Maj(a, b, c));
      h := g;
      g := f;
      f := e;
      e := Add(d, temp1);
      d := c;
      c := b;
      b := a;
      a := Add(temp1, temp2);
    }
    w := Working(a, b, c, d, e, f, g, h);
  }

  /** The padding loop pushes zeros until eight bytes are left of the block. */
  method Pad(bytes: seq<Byte>) returns (padded: seq<Byte>)
    ensures padded == Padded(bytes)
  {
    var bitLen := (|bytes| * 8) % U64_RANGE;
    padded := bytes + [0x80];
    ghost var zeros := 0;
    while |padded| % 64 != 56
      invariant zeros <= ZeroCount(|bytes|) && padded == bytes + [0x80] + Zeros(zeros)
      decreases ZeroCount(|bytes|) - zeros
    {
      FewerZeros(|bytes|, zeros);
      assert Zeros(zeros + 1) == Zeros(zeros) + [0];
      padded := padded + [0];
      zeros := zeros + 1;
    }
    NoFewerZeros(|bytes|, zeros);
    padded := padded + BigEndian(bitLen, 8);
  }

  lemma FewerZeros(len: nat, zeros: nat)
    requires zeros <= ZeroCount(len) && (len + 1 + zeros) % 64 != 56
    ensures zeros < ZeroCount(len)
  {
  }

  lemma NoFewerZeros(len: nat, zeros: nat)
    requires zeros <= ZeroCount(len) && (len + 1 + zeros) % 64 == 56
    ensures zeros == ZeroCount(len)
  {
  }

  method Sha256(bytes: seq<Byte>) returns (digest: seq<Byte>)
    ensures digest == Digest(bytes)
  {
    hide Compressed, Padded, DigestBytes;
    var padded := Pad(bytes);
    var state := new bv32[8](i requires 0 <= i < 8 => INITIAL[i]);
    assert state[..] == INITIAL;
    for block := 0 to |padded| / 64
      invariant state[..] == HashAfter(padded, block)
    {
      Compress(state, padded[64 * block..64 * (block + 1)]);
    }
    digest := [];
    for i := 0 to 8
      invariant state[..] == HashAfter(padded, |padded| / 64)
      invariant digest == DigestBytes(state[..i])
    {
      DigestMore(state[..i + 1]);
      assert state[..i + 1][..i] == state[..i];
      digest := digest + WordBytes(state[i]);
    }
    assert state[..8] == state[..];
  }

  lemma DigestMore(h: seq<bv32>)
    requires h != []
    ensures DigestBytes(h) == DigestBytes(h[..|h| - 1]) + WordBytes(h[|h| - 1])
  {
  }

  // ---- padding ----

  function Power256(k: nat): (p: nat)
    ensures p > 0
  {
    if k == 0 then 1 else 256 * Power256(k - 1)
  }

  lemma {:induction false} BigEndianInjective(m: nat, n: nat, k: nat)
    requires m < Power256(k) && n < Power256(k) && BigEndian(m, k) == BigEndian(n, k)
    ensures m == n
  {
    if k > 0 {
      var p, q := BigEndian(m / 256, k - 1), BigEndian(n / 256, k - 1);
      assert BigEndian(m, k)[..k - 1] == p && BigEndian(n, k)[..k - 1] == q;
      assert BigEndian(m, k)[k - 1] == m % 256 && BigEndian(n, k)[k - 1] == n % 256;
      BigEndianInjective(m / 256, n / 256, k - 1);
    }
  }

  lemma EightBytes()
    ensures Power256(8) == U64_RANGE
  {
    assert Power256(2) == 0x1_0000;
    assert Power256(4) == 0x1_0000_0000;
    assert Power256(6) == 0x1_0000_0000_0000;
  }

  /** Padding is whole blocks, and no shorter padding has room for the marker and the length. */
  lemma PaddingMinimal(message: seq<Byte>)
    ensures |Padded(message)| % 64 == 0 && |message| + 9 <= |Padded(message)| < |message| + 9 + 64
    ensures forall n: nat :: n % 64 == 0 && |message| + 9 <= n ==> |Padded(message)| <= n
  {
    hide BigEndian, Zeros;
    var len := |Padded(message)|;
    forall n: nat | n % 64 == 0 && |message| + 9 <= n ensures len <= n {
      assert n < len ==> n <= len - 64;
    }
  }

  /** Two messages that a 64-bit length can tell apart are padded differently. */
  lemma PaddingInjective(x: seq<Byte>, y: seq<Byte>)
    requires |x| < 0x2000_0000_0000_0000 && |y| < 0x2000_0000_0000_0000 && Padded(x) == Padded(y)
    ensures x == y
  {
    hide BigEndian, ZeroCount;
    var p := Padded(x);
    var cut := |p| - 8;
    assert p[cut..] == BigEndian(|x| * 8, 8);
    assert Padded(y)[cut..] == BigEndian(|y| * 8, 8);
    EightBytes();
    BigEndianInjective(|x| * 8, |y| * 8, 8);
    assert x == p[..|x|] && y == Padded(y)[..|y|];
  }

  // ---- tags ----

  lemma {:induction false} HexOfHex(bytes: seq<Byte>)
    ensures forall i :: 0 <= i < |HexOf(bytes)| ==> IsHex(HexOf(bytes)[i])
  {
    if bytes != [] { HexOfHex(bytes[..|bytes| - 1]); }
  }

  /** Every digest the repository prints is a tag its checkers accept. */
  lemma TaggedIsTag(message: seq<Byte>)
    ensures ValidTag(Tagged(message))
  {
    hide Digest;
    HexOfHex(Digest(message));
    var tag := Tagged(message);
    assert tag[..7] == "sha256:";
    forall i | 7 <= i < 71 ensures IsHex(tag[i]) { assert tag[i] == HexOf(Digest(message))[i - 7]; }
  }
}
