/**
 `sha256Bytes` of the operations kernel (packages/operations/src/kernel.ts) computes SHA-256 as FIPS 180-4
 defines it. The code works on JavaScript numbers: 32-bit operators give signed results and sums are unbounded
 until `>>> 0` reduces them. The specification works on 32-bit words.
 */
module Sha256 {
  import opened Common
  import opened Bits
  import opened ByteStrings

  const TWO32 := 0x1_0000_0000

  type Word = w: int | 0 <= w < TWO32

  // ---------------------------------------------------------------- FIPS 180-4

  lemma WordBounds(a: Word, b: Word)
    ensures And(a, b) < TWO32 && Or(a, b) < TWO32 && Xor(a, b) < TWO32
  {
    SmallPowers();
    AndBound(a, b, 32);
    OrBound(a, b, 32);
    XorBound(a, b, 32);
  }

  function AndW(a: Word, b: Word): Word {
    WordBounds(a, b);
    And(a, b)
  }

  function OrW(a: Word, b: Word): Word {
    WordBounds(a, b);
    Or(a, b)
  }

  function XorW(a: Word, b: Word): Word {
    WordBounds(a, b);
    Xor(a, b)
  }

  function NotW(a: Word): Word {
    TWO32 - 1 - a
  }

  /** SHR, section 3.2. */
  function Shr(n: nat, x: Word): Word {
    DivBound(x, Pow2(n));
    x / Pow2(n)
  }

  /** ROTR, section 3.2: the right shift or the left shift by the rest of the word. */
  function Rotr(n: nat, x: Word): Word
    requires 0 < n < 32
  {
    OrW(Shr(n, x), x * Pow2(32 - n) % TWO32)
  }

  // The six logical functions of section 4.1.2.

  function Ch(x: Word, y: Word, z: Word): Word {
    XorW(AndW(x, y), AndW(NotW(x), z))
  }

  function Maj(x: Word, y: Word, z: Word): Word {
    XorW(XorW(AndW(x, y), AndW(x, z)), AndW(y, z))
  }

  function BigSigma0(x: Word): Word {
    XorW(XorW(Rotr(2, x), Rotr(13, x)), Rotr(22, x))
  }

  function BigSigma1(x: Word): Word {
    XorW(XorW(Rotr(6, x), Rotr(11, x)), Rotr(25, x))
  }

  function SmallSigma0(x: Word): Word {
    XorW(XorW(Rotr(7, x), Rotr(18, x)), Shr(3, x))
  }

  function SmallSigma1(x: Word): Word {
    XorW(XorW(Rotr(17, x), Rotr(19, x)), Shr(10, x))
  }

  // The constants of section 4.2.2, sixteen at a time.
  const ROUND_0: seq<Word> := [
    0x428a2f98, 0x71374491, 0xb5c0fbcf, 0xe9b5dba5, 0x3956c25b, 0x59f111f1, 0x923f82a4, 0xab1c5ed5,
    0xd807aa98, 0x12835b01, 0x243185be, 0x550c7dc3, 0x72be5d74, 0x80deb1fe, 0x9bdc06a7, 0xc19bf174]
  const ROUND_16: seq<Word> := [
    0xe49b69c1, 0xefbe4786, 0x0fc19dc6, 0x240ca1cc, 0x2de92c6f, 0x4a7484aa, 0x5cb0a9dc, 0x76f988da,
    0x983e5152, 0xa831c66d, 0xb00327c8, 0xbf597fc7, 0xc6e00bf3, 0xd5a79147, 0x06ca6351, 0x14292967]
  const ROUND_32: seq<Word> := [
    0x27b70a85, 0x2e1b2138, 0x4d2c6dfc, 0x53380d13, 0x650a7354, 0x766a0abb, 0x81c2c92e, 0x92722c85,
    0xa2bfe8a1, 0xa81a664b, 0xc24b8b70, 0xc76c51a3, 0xd192e819, 0xd6990624, 0xf40e3585, 0x106aa070]
  const ROUND_48: seq<Word> := [
    0x19a4c116, 0x1e376c08, 0x2748774c, 0x34b0bcb5, 0x391c0cb3, 0x4ed8aa4a, 0x5b9cca4f, 0x682e6ff3,
    0x748f82ee, 0x78a5636f, 0x84c87814, 0x8cc70208, 0x90befffa, 0xa4506ceb, 0xbef9a3f7, 0xc67178f2]

  const ROUND: seq<Word> := ROUND_0 + ROUND_16 + ROUND_32 + ROUND_48

  /** The initial hash value of section 5.3.3. */
  const INITIAL: seq<Word> := [
    0x6a09e667, 0xbb67ae85, 0x3c6ef372, 0xa54ff53a, 0x510e527f, 0x9b05688c, 0x1f83d9ab, 0x5be0cd19]

  /** The word after the last of the schedule so far. */
  function NextWord(w: seq<Word>): Word
    requires |w| >= 16
  {
    (SmallSigma1(w[|w| - 2]) + w[|w| - 7] + SmallSigma0(w[|w| - 15]) + w[|w| - 16]) % TWO32
  }

  /** The message schedule of section 6.2.2, step 1, up to word `n`. */
  function Schedule(block: seq<Word>, n: nat): (w: seq<Word>)
    requires |block| == 16 && 16 <= n <= 64
    ensures |w| == n
  {
    if n == 16 then block
    else
      var w := Schedule(block, n - 1);
      w + [NextWord(w)]
  }

  /** The working variables a to h. */
  datatype Working = Working(a: Word, b: Word, c: Word, d: Word, e: Word, f: Word, g: Word, h: Word)

  function T1(v: Working, k: Word, w: Word): Word {
    (v.h + BigSigma1(v.e) + Ch(v.e, v.f, v.g) + k + w) % TWO32
  }

  function T2(v: Working): Word {
    (BigSigma0(v.a) + Maj(v.a, v.b, v.c)) % TWO32
  }

  function Shifted(v: Working, t1: Word, t2: Word): Working {
    Working((t1 + t2) % TWO32, v.a, v.b, v.c, (v.d + t1) % TWO32, v.e, v.f, v.g)
  }

  /** Section 6.2.2, step 3, for one t. */
  function Round(v: Working, k: Word, w: Word): Working {
    Shifted(v, T1(v, k, w), T2(v))
  }

  function Rounds(v: Working, w: seq<Word>, t: nat): Working
    requires t <= 64 == |w|
  {
    if t == 0 then v else Round(Rounds(v, w, t - 1), ROUND[t - 1], w[t - 1])
  }

  function ToWorking(h: seq<Word>): Working
    requires |h| == 8
  {
    Working(h[0], h[1], h[2], h[3], h[4], h[5], h[6], h[7])
  }

  /** Section 6.2.2, step 4. */
  function AddWorking(h: seq<Word>, v: Working): (h': seq<Word>)
    requires |h| == 8
    ensures |h'| == 8
  {
    [(h[0] + v.a) % TWO32, (h[1] + v.b) % TWO32, (h[2] + v.c) % TWO32, (h[3] + v.d) % TWO32,
     (h[4] + v.e) % TWO32, (h[5] + v.f) % TWO32, (h[6] + v.g) % TWO32, (h[7] + v.h) % TWO32]
  }

  /** Section 6.2.2, steps 2 to 4. */
  function Compress(h: seq<Word>, w: seq<Word>): (h': seq<Word>)
    requires |h| == 8 && |w| == 64
    ensures |h'| == 8
  {
    AddWorking(h, Rounds(ToWorking(h), w, 64))
  }

  /** Word `i` of a block, most significant byte first (section 3.1). */
  function WordAt(block: Bytes, i: nat): Word
    requires 4 * i + 4 <= |block|
  {
    (block[4 * i] as int) * 0x100_0000 + (block[4 * i + 1] as int) * 0x1_0000 + (block[4 * i + 2] as int) * 0x100
    + (block[4 * i + 3] as int)
  }

  function BlockWords(block: Bytes): (w: seq<Word>)
    requires |block| == 64
    ensures |w| == 16
  {
    seq(16, i requires 0 <= i < 16 => WordAt(block, i))
  }

  /** The hash value after the whole blocks of `bytes`. */
  function HashBlocks(bytes: Bytes): (h: seq<Word>)
    ensures |h| == 8
  {
    if |bytes| < 64 then INITIAL
    else
      var n := |bytes| - 64;
      Compress(HashBlocks(bytes[..n]), Schedule(BlockWords(bytes[n..]), 64))
  }

  /** The number of zero bytes: the least with which message, marker and length fill whole blocks (section 5.1.1). */
  function PadZeros(n: nat): (k: nat)
    ensures (n + 1 + k + 8) % 64 == 0 && k < 64
  {
    (119 - n % 64) % 64
  }

  /** The padded message of section 5.1.1 in bytes. */
  function Pad(m: Bytes): Bytes {
    m + [0x80] + Zeros(PadZeros(|m|)) + BigEndian(8 * |m|, 8)
  }

  function WordsToBytes(h: seq<Word>): (b: Bytes)
    ensures |b| == 4 * |h|
  {
    if h == [] then [] else WordsToBytes(h[..|h| - 1]) + BigEndian(h[|h| - 1], 4)
  }

  /** SHA-256 of a byte string. */
  function Hash(m: Bytes): (digest: Bytes)
    ensures |digest| == 32
  {
    WordsToBytes(HashBlocks(Pad(m)))
  }
}
