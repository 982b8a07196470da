/** The code of `sha256Bytes` on JavaScript numbers, proved to compute SHA-256. */
module Sha256Code {
  import opened Common
  import opened Bits
  import opened ByteStrings
  import opened Sha256

  // ---------------------------------------------------------------- JavaScript's 32-bit operators

  /** ToUint32, the effect of `>>> 0` and of storing into a `Uint32Array`. */
  function ToUint32(x: int): Word {
    x % TWO32
  }

  /** ToInt32, the result of every other bitwise operator. */
  function ToInt32(x: int): int {
    if x % TWO32 < 0x8000_0000 then x % TWO32 else x % TWO32 - TWO32
  }

  lemma SignedIsCongruent(x: int)
    ensures ToUint32(ToInt32(x)) == ToUint32(x)
  {
  }

  lemma WordIsItself(x: Word)
    ensures ToUint32(x) == x
  {
  }

  predicate IsInt32(x: int) {
    -0x8000_0000 <= x < 0x8000_0000
  }

  /** `x >>> n` */
  method ShiftRight(x: int, n: nat) returns (r: Word)
    ensures r == Shr(n, ToUint32(x))
  {
    DivBound(ToUint32(x), Pow2(n));
    r := ToUint32(x) / Pow2(n);
  }

  /** `x << n` */
  method ShiftLeft(x: int, n: nat) returns (r: int)
    ensures IsInt32(r) && ToUint32(r) == ToUint32(x) * Pow2(n) % TWO32
  {
    r := ToInt32(ToUint32(x) * Pow2(n));
    SignedIsCongruent(ToUint32(x) * Pow2(n));
  }

  method BitAnd(a: int, b: int) returns (r: int)
    ensures IsInt32(r) && ToUint32(r) == AndW(ToUint32(a), ToUint32(b))
  {
    r := ToInt32(AndW(ToUint32(a), ToUint32(b)));
    SignedIsCongruent(AndW(ToUint32(a), ToUint32(b)));
    WordIsItself(AndW(ToUint32(a), ToUint32(b)));
  }

  method BitOr(a: int, b: int) returns (r: int)
    ensures IsInt32(r) && ToUint32(r) == OrW(ToUint32(a), ToUint32(b))
  {
    r := ToInt32(OrW(ToUint32(a), ToUint32(b)));
    SignedIsCongruent(OrW(ToUint32(a), ToUint32(b)));
    WordIsItself(OrW(ToUint32(a), ToUint32(b)));
  }

  method BitXor(a: int, b: int) returns (r: int)
    ensures IsInt32(r) && ToUint32(r) == XorW(ToUint32(a), ToUint32(b))
  {
    r := ToInt32(XorW(ToUint32(a), ToUint32(b)));
    SignedIsCongruent(XorW(ToUint32(a), ToUint32(b)));
    WordIsItself(XorW(ToUint32(a), ToUint32(b)));
  }

  method BitNot(a: int) returns (r: int)
    ensures IsInt32(r) && ToUint32(r) == NotW(ToUint32(a))
  {
    r := ToInt32(NotW(ToUint32(a)));
    SignedIsCongruent(NotW(ToUint32(a)));
    WordIsItself(NotW(ToUint32(a)));
  }

  /** `rotateRight32`, whose result is signed. */
  method RotateRight32(value: int, shift: nat) returns (r: int)
    requires 0 < shift < 32
    ensures IsInt32(r) && ToUint32(r) == Rotr(shift, ToUint32(value))
  {
    var right := ShiftRight(value, shift);
    var left := ShiftLeft(value, 32 - shift);
    r := BitOr(right, left);
    WordIsItself(right);
  }

  /** `a ^ b ^ c` */
  method Xor3(a: int, b: int, c: int) returns (r: int)
    ensures IsInt32(r) && ToUint32(r) == XorW(XorW(ToUint32(a), ToUint32(b)), ToUint32(c))
  {
    r := BitXor(a, b);
    r := BitXor(r, c);
  }

  // ---------------------------------------------------------------- the expressions of the rounds

  method Sigma0Code(previous15: Word) returns (r: int)
    ensures IsInt32(r) && ToUint32(r) == SmallSigma0(previous15)
  {
    var a := RotateRight32(previous15, 7);
    var b := RotateRight32(previous15, 18);
    var c := ShiftRight(previous15, 3);
    r := Xor3(a, b, c);
    WordIsItself(previous15);
    WordIsItself(c);
  }

  method Sigma1Code(previous2: Word) returns (r: int)
    ensures IsInt32(r) && ToUint32(r) == SmallSigma1(previous2)
  {
    var a := RotateRight32(previous2, 17);
    var b := RotateRight32(previous2, 19);
    var c := ShiftRight(previous2, 10);
    r := Xor3(a, b, c);
    WordIsItself(previous2);
    WordIsItself(c);
  }

  method Sum1Code(e: Word) returns (r: int)
    ensures IsInt32(r) && ToUint32(r) == BigSigma1(e)
  {
    var a := RotateRight32(e, 6);
    var b := RotateRight32(e, 11);
    var c := RotateRight32(e, 25);
    r := Xor3(a, b, c);
    WordIsItself(e);
  }

  method Sum0Code(a: Word) returns (r: int)
    ensures IsInt32(r) && ToUint32(r) == BigSigma0(a)
  {
    var x := RotateRight32(a, 2);
    var y := RotateRight32(a, 13);
    var z := RotateRight32(a, 22);
    r := Xor3(x, y, z);
    WordIsItself(a);
  }

  /** `(e & f) ^ (~e & g)` */
  method ChooseCode(e: Word, f: Word, g: Word) returns (r: int)
    ensures IsInt32(r) && ToUint32(r) == Ch(e, f, g)
  {
    var x := BitAnd(e, f);
    var n := BitNot(e);
    var y := BitAnd(n, g);
    r := BitXor(x, y);
    WordIsItself(e);
    WordIsItself(f);
    WordIsItself(g);
  }

  /** `(a & b) ^ (a & c) ^ (b & c)` */
  method MajorityCode(a: Word, b: Word, c: Word) returns (r: int)
    ensures IsInt32(r) && ToUint32(r) == Maj(a, b, c)
  {
    var x := BitAnd(a, b);
    var y := BitAnd(a, c);
    var z := BitAnd(b, c);
    r := Xor3(x, y, z);
    WordIsItself(a);
    WordIsItself(b);
    WordIsItself(c);
  }

  /** Reducing an operand first does not change a sum modulo 2^32. */
  lemma SumIsModular(a: int, b: int)
    ensures ToUint32(a + b) == ToUint32(ToUint32(a) + b)
  {
  }

  lemma Sum5(h: Word, s: int, c: int, k: Word, w: Word)
    ensures ToUint32(h + s + c + k + w) == (h + ToUint32(s) + ToUint32(c) + k + w) % TWO32
  {
    SumIsModular(s, h + c + k + w);
    SumIsModular(c, h + ToUint32(s) + k + w);
  }

  lemma Sum4(a: Word, s: int, b: Word, t: int)
    ensures ToUint32(a + s + b + t) == (ToUint32(t) + b + ToUint32(s) + a) % TWO32
  {
    SumIsModular(s, a + b + t);
    SumIsModular(t, a + ToUint32(s) + b);
  }

  // ---------------------------------------------------------------- padding

  /** The padding loop: `0x80`, zeros, and the bit length in the last eight bytes. */
  method PadMessage(input: Bytes) returns (padded: array<Byte>)
    ensures fresh(padded) && padded[..] == Pad(input)
  {
    var bitLength := 8 * |input|;
    var paddedLength := (|input| + 9 + 63) / 64 * 64;
    PaddedLengthIs(|input|);
    padded := new Byte[paddedLength](_ => 0);
    forall i | 0 <= i < |input| {
      padded[i] := input[i];
    }
    padded[|input|] := 0x80;
    ghost var zeroed := padded[..];
    for index := 0 to 8
      invariant forall j | 0 <= j < paddedLength - index :: padded[j] == zeroed[j]
      invariant forall j | 0 <= j < index :: padded[paddedLength - 1 - j] == bitLength / Pow2(8 * j) % 0x100
    {
      padded[paddedLength - 1 - index] := bitLength / Pow2(8 * index) % 0x100;
    }
    forall i | 0 <= i < 8 ensures padded[paddedLength - 8 + i] == BigEndian(bitLength, 8)[i] {
      BigEndianAt(bitLength, 8, 7 - i);
      assert padded[paddedLength - 1 - (7 - i)] == bitLength / Pow2(8 * (7 - i)) % 0x100;
    }
    assert padded[paddedLength - 8..] == BigEndian(bitLength, 8);
    PadIs(input, padded[..]);
  }

  lemma PaddedLengthIs(n: nat)
    ensures (n + 9 + 63) / 64 * 64 == n + 1 + PadZeros(n) + 8
  {
  }

  lemma ThreeParts(s: Bytes, a: nat, b: nat)
    requires a <= b <= |s|
    ensures s == s[..a] + s[a..b] + s[b..]
  {
  }

  lemma PadIs(input: Bytes, padded: Bytes)
    requires |padded| == |input| + 1 + PadZeros(|input|) + 8
    requires padded[..|input|] == input && padded[|input|] == 0x80
    requires forall i | |input| < i < |padded| - 8 :: padded[i] == 0
    requires padded[|padded| - 8..] == BigEndian(8 * |input|, 8)
    ensures padded == Pad(input)
  {
    var n := |input| + 1;
    var m := n + PadZeros(|input|);
    assert padded[..n] == input + [0x80];
    assert padded[n..m] == Zeros(PadZeros(|input|));
    ThreeParts(padded, n, m);
  }

  // ---------------------------------------------------------------- the message schedule

  lemma OrBytes(b0: Byte, b1: Byte, b2: Byte, b3: Byte, hi: int, mid: int, lo: int)
    requires hi == (b0 as int) * 0x100_0000 && mid == (b1 as int) * 0x1_0000 && lo == (b2 as int) * 0x100
    ensures OrW(hi, mid) == hi + mid && OrW(hi + mid, lo) == hi + mid + lo && OrW(hi + mid + lo, b3) == hi + mid + lo + b3
  {
    SmallPowers();
    OrDisjoint(mid, b0, 24);
    OrDisjoint(lo, (b0 as int) * 0x100 + b1, 16);
    OrDisjoint(b3, (b0 as int) * 0x1_0000 + (b1 as int) * 0x100 + b2, 8);
  }

  /** A byte moved up by at most 24 places stays inside the word. */
  method ShiftByte(b: Byte, n: nat, ghost p: nat) returns (r: int)
    requires p == Pow2(n) && p <= 0x100_0000
    ensures ToUint32(r) == (b as int) * p
  {
    r := ShiftLeft(b, n);
    WordIsItself(b);
    MulMonotone(p, b, 0xff);
    WordIsItself((b as int) * p);
  }

  /** `x | y` for words without a common bit. */
  method OrCode(x: int, y: int, ghost a: Word, ghost b: Word) returns (r: int)
    requires ToUint32(x) == a && ToUint32(y) == b && OrW(a, b) == a + b
    ensures ToUint32(r) == a + b
  {
    r := BitOr(x, y);
  }

  /** Four bytes to a word with signed shifts and ors. */
  method WordCode(b0: Byte, b1: Byte, b2: Byte, b3: Byte) returns (r: int)
    ensures ToUint32(r) == (b0 as int) * 0x100_0000 + (b1 as int) * 0x1_0000 + (b2 as int) * 0x100 + (b3 as int)
  {
    SmallPowers();
    ghost var hi: Word, mid: Word, lo: Word := (b0 as int) * 0x100_0000, (b1 as int) * 0x1_0000, (b2 as int) * 0x100;
    OrBytes(b0, b1, b2, b3, hi, mid, lo);
    var x0 := ShiftByte(b0, 24, 0x100_0000);
    var x1 := ShiftByte(b1, 16, 0x1_0000);
    var x2 := ShiftByte(b2, 8, 0x100);
    r := OrCode(x0, x1, hi, mid);
    r := OrCode(r, x2, hi + mid, lo);
    WordIsItself(b3);
    r := OrCode(r, b3, hi + mid + lo, b3);
  }

  /** The first sixteen words of the schedule are the words of the block. */
  method LoadBlock(padded: array<Byte>, offset: nat, words: array<Word>)
    requires offset + 64 <= padded.Length && words.Length == 64
    modifies words
    ensures words[..16] == BlockWords(old(padded[offset..offset + 64]))
  {
    ghost var block := padded[offset..offset + 64];
    for index := 0 to 16
      invariant forall j | 0 <= j < index :: words[j] == WordAt(block, j)
    {
      var base := offset + index * 4;
      var word := WordCode(padded[base], padded[base + 1], padded[base + 2], padded[base + 3]);
      assert block[4 * index] == padded[base] && block[4 * index + 1] == padded[base + 1]
             && block[4 * index + 2] == padded[base + 2] && block[4 * index + 3] == padded[base + 3];
      words[index] := ToUint32(word);
    }
    assert words[..16] == BlockWords(block);
  }

  method ScheduleWord(words: array<Word>, index: nat) returns (word: Word)
    requires 16 <= index < words.Length
    ensures word == NextWord(words[..index])
  {
    ghost var before := words[..index];
    var sigma0 := Sigma0Code(words[index - 15]);
    var sigma1 := Sigma1Code(words[index - 2]);
    Sum4(words[index - 16], sigma0, words[index - 7], sigma1);
    word := ToUint32(words[index - 16] + sigma0 + words[index - 7] + sigma1);
  }

  lemma ScheduleNext(block: seq<Word>, index: nat, before: seq<Word>, word: Word)
    requires |block| == 16 && 16 <= index < 64 && before == Schedule(block, index) && word == NextWord(before)
    ensures Schedule(block, index + 1) == before + [word]
  {
  }

  /** The first `index` words are those of the schedule. */
  ghost predicate FilledTo(words: seq<Word>, block: seq<Word>, index: nat) {
    |block| == 16 && 16 <= index <= 64 && |words| == 64 && words[..index] == Schedule(block, index)
  }

  /** One turn of the loop that extends the schedule. */
  method ScheduleStep(words: array<Word>, index: nat, ghost block: seq<Word>)
    requires index < 64 && FilledTo(words[..], block, index)
    modifies words
    ensures FilledTo(words[..], block, index + 1)
  {
    ghost var before := words[..index];
    assert words[..][..index] == before;
    var word := ScheduleWord(words, index);
    ScheduleNext(block, index, before, word);
    words[index] := word;
    assert words[..][..index + 1] == before + [word];
  }

  method ExtendSchedule(words: array<Word>, ghost block: seq<Word>)
    requires FilledTo(words[..], block, 16)
    modifies words
    ensures FilledTo(words[..], block, 64)
  {
    for index := 16 to 64
      invariant FilledTo(words[..], block, index)
    {
      ScheduleStep(words, index, block);
    }
  }

  /** The schedule is filled in place: sixteen words of the block, then the recurrence. */
  method FillSchedule(padded: array<Byte>, offset: nat, words: array<Word>)
    requires offset + 64 <= padded.Length && words.Length == 64
    modifies words
    ensures words[..] == Schedule(BlockWords(old(padded[offset..offset + 64])), 64)
  {
    ghost var block := BlockWords(padded[offset..offset + 64]);
    LoadBlock(padded, offset, words);
    assert words[..][..16] == words[..16];
    ExtendSchedule(words, block);
    assert words[..][..64] == words[..];
  }

  // ---------------------------------------------------------------- the rounds

  method Temporary1(v: Working, k: Word, w: Word) returns (t: Word)
    ensures t == T1(v, k, w)
  {
    var sum1 := Sum1Code(v.e);
    var choose := ChooseCode(v.e, v.f, v.g);
    t := ToUint32(v.h + sum1 + choose + k + w);
    Sum5(v.h, sum1, choose, k, w);
  }

  lemma Sum2(s: int, t: int)
    ensures ToUint32(s + t) == (ToUint32(s) + ToUint32(t)) % TWO32
  {
    SumIsModular(s, t);
    SumIsModular(t, ToUint32(s));
  }

  method Temporary2(v: Working) returns (t: Word)
    ensures t == T2(v)
  {
    var sum0 := Sum0Code(v.a);
    var majority := MajorityCode(v.a, v.b, v.c);
    t := ToUint32(sum0 + majority);
    Sum2(sum0, majority);
  }

  /** The shift of the eight variables, one after another. */
  method ShiftVariables(v: Working, temporary1: Word, temporary2: Word) returns (next: Working)
    ensures next == Shifted(v, temporary1, temporary2)
  {
    var a, b, c, d, e, f, g, h := v.a, v.b, v.c, v.d, v.e, v.f, v.g, v.h;
    h := g;
    g := f;
    f := e;
    e := ToUint32(d + temporary1);
    d := c;
    c := b;
    b := a;
    a := ToUint32(temporary1 + temporary2);
    next := Working(a, b, c, d, e, f, g, h);
  }

  /** The body of the round loop. */
  method RoundCode(v: Working, k: Word, w: Word) returns (next: Working)
    ensures next == Round(v, k, w)
  {
    var temporary1 := Temporary1(v, k, w);
    var temporary2 := Temporary2(v);
    next := ShiftVariables(v, temporary1, temporary2);
  }

  method RunRounds(hash: array<Word>, words: array<Word>) returns (v: Working)
    requires hash.Length == 8 && words.Length == 64
    ensures v == Rounds(ToWorking(hash[..]), words[..], 64)
  {
    v := Working(hash[0], hash[1], hash[2], hash[3], hash[4], hash[5], hash[6], hash[7]);
    for index := 0 to 64
      invariant v == Rounds(ToWorking(hash[..]), words[..], index)
    {
      v := RoundCode(v, ROUND[index], words[index]);
    }
  }

  /** `hash[index] = (hash[index]! + value) >>> 0` */
  method AddAt(hash: array<Word>, index: nat, value: Word)
    requires index < hash.Length
    modifies hash
    ensures hash[index] == (old(hash[index]) + value) % TWO32
    ensures forall j | 0 <= j < hash.Length && j != index :: hash[j] == old(hash[j])
  {
    hash[index] := ToUint32(hash[index] + value);
  }

  method AddToHash(hash: array<Word>, v: Working)
    requires hash.Length == 8
    modifies hash
    ensures hash[..] == AddWorking(old(hash[..]), v)
  {
    AddAt(hash, 0, v.a);
    AddAt(hash, 1, v.b);
    AddAt(hash, 2, v.c);
    AddAt(hash, 3, v.d);
    AddAt(hash, 4, v.e);
    AddAt(hash, 5, v.f);
    AddAt(hash, 6, v.g);
    AddAt(hash, 7, v.h);
  }

  method CompressBlock(hash: array<Word>, words: array<Word>)
    requires hash.Length == 8 && words.Length == 64
    modifies hash
    ensures hash[..] == Compress(old(hash[..]), old(words[..]))
  {
    var v := RunRounds(hash, words);
    AddToHash(hash, v);
  }

  // ---------------------------------------------------------------- the digest

  /** The four bytes of a word, each cut from a right shift by storing it in a byte array. */
  lemma WordBytes(word: Word)
    ensures BigEndian(word, 4) == [word / 0x100_0000 % 0x100, word / 0x1_0000 % 0x100, word / 0x100 % 0x100, word % 0x100]
  {
    assert BigEndian(word, 4) == BigEndian(word / 0x100, 3) + [word % 0x100];
    assert BigEndian(word / 0x100, 3) == BigEndian(word / 0x100 / 0x100, 2) + [word / 0x100 % 0x100];
    assert BigEndian(word / 0x100 / 0x100, 2) == BigEndian(word / 0x100 / 0x100 / 0x100, 1) + [word / 0x100 / 0x100 % 0x100];
    assert BigEndian(word / 0x100 / 0x100 / 0x100, 1) == [] + [word / 0x100 / 0x100 / 0x100 % 0x100];
  }

  method AbsorbBlock(hash: array<Word>, words: array<Word>, padded: array<Byte>, offset: nat)
    requires hash.Length == 8 && words.Length == 64 && hash != words
    requires offset + 64 <= padded.Length && offset % 64 == 0
    requires hash[..] == HashBlocks(padded[..offset])
    modifies hash, words
    ensures hash[..] == HashBlocks(old(padded[..offset + 64]))
  {
    ghost var message := padded[..];
    assert message[..offset] == padded[..offset] && message[..offset + 64] == padded[..offset + 64]
           && message[offset..offset + 64] == padded[offset..offset + 64];
    FillSchedule(padded, offset, words);
    CompressBlock(hash, words);
    OneMoreBlock(message, offset);
  }

  lemma RoomForBlock(offset: nat, length: nat)
    requires offset < length && offset % 64 == 0 && length % 64 == 0
    ensures offset + 64 <= length && (offset + 64) % 64 == 0
  {
  }

  method InitialHash(ghost empty: Bytes) returns (hash: array<Word>)
    requires empty == []
    ensures hash.Length == 8 && hash[..] == HashBlocks(empty) && fresh(hash)
  {
    hash := new Word[8](i requires 0 <= i < 8 => INITIAL[i]);
  }

  method HashMessage(padded: array<Byte>) returns (hash: array<Word>)
    requires padded.Length % 64 == 0
    ensures hash.Length == 8 && hash[..] == HashBlocks(padded[..]) && fresh(hash)
  {
    hash := InitialHash(padded[..0]);
    var words := new Word[64];
    var offset := 0;
    while offset < padded.Length
      invariant 0 <= offset <= padded.Length && offset % 64 == 0
      invariant hash[..] == HashBlocks(padded[..offset])
    {
      RoomForBlock(offset, padded.Length);
      AbsorbBlock(hash, words, padded, offset);
      offset := offset + 64;
    }
    assert padded[..offset] == padded[..];
  }

  lemma OneMoreBlock(message: Bytes, offset: nat)
    requires offset + 64 <= |message|
    ensures HashBlocks(message[..offset + 64])
            == Compress(HashBlocks(message[..offset]), Schedule(BlockWords(message[offset..offset + 64]), 64))
  {
    assert message[..offset + 64][..offset] == message[..offset];
    assert message[..offset + 64][offset..] == message[offset..offset + 64];
  }

  method DigestBytes(hash: array<Word>) returns (output: Bytes)
    requires hash.Length == 8
    ensures output == WordsToBytes(hash[..])
  {
    output := [];
    for index := 0 to 8
      invariant output == WordsToBytes(hash[..index])
    {
      var piece := WordToBytes(hash[index]);
      assert hash[..index + 1][..index] == hash[..index];
      output := output + piece;
    }
    assert hash[..8] == hash[..];
  }

  method WordToBytes(word: Word) returns (b: Bytes)
    ensures b == BigEndian(word, 4)
  {
    var b0 := ShiftRight(word, 24);
    var b1 := ShiftRight(word, 16);
    var b2 := ShiftRight(word, 8);
    SmallPowers();
    WordIsItself(word);
    WordBytes(word);
    b := [b0 % 0x100, b1 % 0x100, b2 % 0x100, word % 0x100];
  }

  /** `sha256Bytes` returns the SHA-256 digest of its input, whatever the input. */
  method Sha256Bytes(input: Bytes) returns (output: Bytes)
    ensures output == Hash(input)
  {
    var padded := PadMessage(input);
    assert |Pad(input)| == padded.Length;
    var hash := HashMessage(padded);
    output := DigestBytes(hash);
  }
}
