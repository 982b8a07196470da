/**
 The byte builders that packages/operations repeats in kernel.ts, actions.ts and limit-orders.ts: words, dynamic
 tails, concatenation and hexadecimal. A `None` result is a thrown error.
 */
module AbiCode {
  import opened Common
  import opened Bits
  import opened ByteStrings
  import opened Abi

  // ---------------------------------------------------------------- hexadecimal text

  const HEX_PREFIX: Text := [0x30, 0x78]

  /** `/^0x(?:[0-9a-f]{2})*$/` */
  predicate IsBytesText(t: Text) {
    |t| >= 2 && t[..2] == HEX_PREFIX && IsHexPairs(t[2..])
  }

  /** `/^0x[0-9a-f]{40}$/` */
  predicate IsAddressText(t: Text) {
    |t| == 42 && IsBytesText(t)
  }

  /** `/^0x[0-9a-f]{64}$/` */
  predicate IsBytes32Text(t: Text) {
    |t| == 66 && IsBytesText(t)
  }

  function BytesOfText(t: Text): (b: Bytes)
    requires IsBytesText(t)
    ensures |b| == (|t| - 2) / 2
  {
    Unhex(t[2..])
  }

  function TextOfBytes(b: Bytes): Text {
    HEX_PREFIX + Hex(b)
  }

  /** A canonical byte text is the text of its bytes. */
  lemma TextRoundTrip(t: Text)
    requires IsBytesText(t)
    ensures TextOfBytes(BytesOfText(t)) == t
  {
    HexOfUnhex(t[2..]);
    assert t == t[..2] + t[2..];
  }

  lemma BytesRoundTrip(b: Bytes)
    ensures IsBytesText(TextOfBytes(b)) && BytesOfText(TextOfBytes(b)) == b
  {
    assert TextOfBytes(b)[2..] == Hex(b);
    UnhexOfHex(b);
  }

  /** The accepted texts are exactly those of byte strings; an address is one of twenty bytes, a digest one of thirty-two. */
  lemma BytesTextIs(t: Text)
    ensures IsBytesText(t) <==> exists b: Bytes :: t == TextOfBytes(b)
    ensures IsAddressText(t) <==> exists b: Bytes | |b| == 20 :: t == TextOfBytes(b)
    ensures IsBytes32Text(t) <==> exists b: Bytes | |b| == 32 :: t == TextOfBytes(b)
  {
    if IsBytesText(t) { TextRoundTrip(t); }
    forall b: Bytes | t == TextOfBytes(b) ensures IsBytesText(t) && |t| == 2 + 2 * |b| { BytesRoundTrip(b); }
  }

  method BytesToHex(bytes: Bytes) returns (output: Text)
    ensures output == Hex(bytes)
  {
    output := [];
    for i := 0 to |bytes|
      invariant output == Hex(bytes[..i])
    {
      assert bytes[..i + 1] == bytes[..i] + [bytes[i]];
      HexNext(bytes[..i], bytes[i]);
      output := output + HexPair(bytes[i]);
    }
    assert bytes[..|bytes|] == bytes;
  }

  lemma UnhexStep(hex: Text, index: nat)
    requires IsHexPairs(hex) && 2 * index + 2 <= |hex|
    ensures IsHexPairs(hex[..2 * index]) && IsHexPairs(hex[..2 * (index + 1)])
    ensures Unhex(hex[..2 * (index + 1)])
            == Unhex(hex[..2 * index]) + [PairValue(hex[2 * index], hex[2 * index + 1])]
  {
    UnhexNext(hex[..2 * index], hex[2 * index], hex[2 * index + 1]);
    assert hex[..2 * (index + 1)] == hex[..2 * index] + [hex[2 * index], hex[2 * index + 1]];
  }

  method HexToBytes(hex: Text) returns (output: array<Byte>)
    requires IsHexPairs(hex)
    ensures fresh(output) && output[..] == Unhex(hex)
  {
    output := new Byte[|hex| / 2](_ => 0);
    for index := 0 to output.Length
      invariant output[..index] == Unhex(hex[..2 * index])
    {
      UnhexStep(hex, index);
      output[index] := PairValue(hex[2 * index], hex[2 * index + 1]);
    }
    assert hex[..2 * output.Length] == hex && output[..output.Length] == output[..];
  }

  // ---------------------------------------------------------------- words

  /** `uintWord` and `encodeUint256`: the last byte first, shifting the value away. */
  method UintWord(value: int) returns (r: Option<Word>)
    ensures r == if 0 <= value < UINT256_LIMIT then Some(WordOf(value)) else None
  {
    if value < 0 || value >= UINT256_LIMIT { return None; }
    var output := new Byte[32](_ => 0);
    var rest: nat := value;
    var index := 31;
    while index >= 0
      invariant -1 <= index <= 31 && rest == ShiftedDown(value, 8 * (31 - index))
      invariant forall k | index < k < 32 :: output[k] == ByteAt(value, 31 - k)
    {
      output[index] := LowByte(rest);
      NextShift(value, 31 - index);
      rest := ShiftedDown(rest, 8);
      index := index - 1;
    }
    WordFromBytes(output[..], value, 32);
    return Some(output[..]);
  }

  /** `Number(value & 0xffn)` */
  method LowByte(value: nat) returns (b: Byte)
    ensures b == value % 0x100
  {
    SmallPowers();
    AndMask(value, 8);
    b := And(value, 0xff);
  }

  lemma WordFromBytes(bytes: Bytes, value: nat, size: nat)
    requires |bytes| == size == 32 && forall k | 0 <= k < 32 :: bytes[k] == ByteAt(value, 31 - k)
    ensures bytes == WordOf(value)
  {
    forall k | 0 <= k < size ensures bytes[k] == BigEndian(value, size)[k] {
      BigEndianAt(value, size, 31 - k);
    }
  }

  lemma NextShift(v: nat, j: nat)
    ensures ShiftedDown(ShiftedDown(v, 8 * j), 8) == ShiftedDown(v, 8 * (j + 1))
  {
    SmallPowers();
    Pow2Sum(8 * j, 8);
    DivDiv(v, Pow2(8 * j), 0x100);
  }

  function AddressBytes(address: Text): Word
    requires IsAddressText(address)
  {
    Zeros(12) + BytesOfText(address)
  }

  // ---------------------------------------------------------------- concatenation and tails

  function TotalLength(parts: seq<Bytes>): nat {
    if parts == [] then 0 else TotalLength(parts[..|parts| - 1]) + |parts[|parts| - 1]|
  }

  lemma {:induction false} FlattenLength(parts: seq<Bytes>)
    ensures |Flatten(parts)| == TotalLength(parts)
  {
    if parts != [] { FlattenLength(parts[..|parts| - 1]); }
  }

  lemma {:induction false} PrefixFits(parts: seq<Bytes>, i: nat)
    requires i <= |parts|
    ensures TotalLength(parts[..i]) <= TotalLength(parts)
    ensures i < |parts| ==> TotalLength(parts[..i + 1]) == TotalLength(parts[..i]) + |parts[i]|
    decreases |parts|
  {
    if i < |parts| {
      assert parts[..i + 1][..i] == parts[..i];
      PrefixFits(parts[..|parts| - 1], i);
      assert parts[..|parts| - 1][..i] == parts[..i];
    } else {
      assert parts[..i] == parts;
    }
  }

  /** The parts one after another, copied into one buffer. */
  method ConcatBytes(parts: seq<Bytes>) returns (output: Bytes)
    ensures output == Flatten(parts)
  {
    var length := 0;
    for i := 0 to |parts|
      invariant length == TotalLength(parts[..i])
    {
      PrefixFits(parts, i);
      length := length + |parts[i]|;
    }
    assert parts[..|parts|] == parts;
    var buffer := new Byte[length](_ => 0);
    FillBuffer(buffer, parts);
    return buffer[..];
  }

  method FillBuffer(buffer: array<Byte>, parts: seq<Bytes>)
    requires buffer.Length == TotalLength(parts)
    modifies buffer
    ensures buffer[..] == Flatten(parts)
  {
    assert parts[..|parts|] == parts;
    var offset := 0;
    for i := 0 to |parts|
      invariant offset == TotalLength(parts[..i]) <= buffer.Length && buffer[..offset] == Flatten(parts[..i])
    {
      PrefixFits(parts, i);
      PrefixFits(parts, i + 1);
      AppendPart(buffer, parts[i], offset, parts[..i]);
      assert parts[..i + 1] == parts[..i] + [parts[i]];
      offset := offset + |parts[i]|;
    }
    assert buffer[..offset] == buffer[..];
  }

  /** The next part goes behind those already in the buffer. */
  method AppendPart(buffer: array<Byte>, part: Bytes, offset: nat, ghost before: seq<Bytes>)
    requires offset + |part| <= buffer.Length && buffer[..offset] == Flatten(before)
    modifies buffer
    ensures buffer[..offset + |part|] == Flatten(before + [part])
  {
    SetPart(buffer, part, offset);
    FlattenNext(before, part);
    assert buffer[..offset + |part|] == buffer[..offset] + buffer[offset..offset + |part|];
  }

  /** `output.set(part, offset)` */
  method SetPart(output: array<Byte>, part: Bytes, offset: nat)
    requires offset + |part| <= output.Length
    modifies output
    ensures output[offset..offset + |part|] == part && output[..offset] == old(output[..offset])
    ensures output[offset + |part|..] == old(output[offset + |part|..])
  {
    forall i | 0 <= i < |part| {
      output[offset + i] := part[i];
    }
  }

  method AddressWord(address: Text) returns (r: Option<Word>)
    ensures r == if IsAddressText(address) then Some(AddressBytes(address)) else None
  {
    if !IsAddressText(address) { return None; }
    var bytes := HexToBytes(address[2..]);
    var output := new Byte[32](_ => 0);
    ghost var zeros := output[..12];
    SetPart(output, bytes[..], 12);
    assert zeros == Zeros(12);
    assert output[..] == output[..12] + output[12..32];
    return Some(output[..]);
  }

  lemma CeilOfWords(n: nat)
    ensures (n + 31) / 32 * 32 == n + PaddingFor(n)
  {
  }

  /** The bytes, then zeros up to `Math.ceil(n / 32) * 32`. */
  method PadToWords(bytes: Bytes) returns (padded: Bytes)
    ensures padded == bytes + Zeros(PaddingFor(|bytes|))
  {
    CeilOfWords(|bytes|);
    var buffer := new Byte[(|bytes| + 31) / 32 * 32](_ => 0);
    ghost var zeros := buffer[|bytes|..];
    SetPart(buffer, bytes, 0);
    assert zeros == Zeros(PaddingFor(|bytes|));
    assert buffer[..] == buffer[0..|bytes|] + buffer[|bytes|..];
    padded := buffer[..];
  }

  /** `encodeStringTail` and `stringTail` after encoding to UTF-8, and `bytesTail` after decoding the hexadecimal. */
  method Tail(bytes: Bytes) returns (r: Option<Bytes>)
    ensures r == if |bytes| < UINT256_LIMIT then Some(Enc(Dynamic(bytes))) else None
  {
    var padded := PadToWords(bytes);
    var length := UintWord(|bytes|);
    if length.None? { return None; }
    var tail := ConcatBytes([length.value, padded]);
    FlattenTwo(length.value, padded);
    assert WordOf(|bytes|) + padded == Enc(Dynamic(bytes));
    return Some(tail);
  }

  lemma FlattenTwo(a: Bytes, b: Bytes)
    ensures Flatten([a, b]) == a + b
  {
    assert [a, b] == [a] + [b];
    FlattenNext([a], b);
    FlattenNext([], a);
    assert [] + [a] == [a];
  }

  method BytesTail(value: Text) returns (r: Option<Bytes>)
    ensures r == if IsBytesText(value) && (|value| - 2) / 2 < UINT256_LIMIT
                 then Some(Enc(Dynamic(BytesOfText(value)))) else None
  {
    if !IsBytesText(value) { return None; }
    var bytes := HexToBytes(value[2..]);
    r := Tail(bytes[..]);
  }

  // ---------------------------------------------------------------- components one at a time

  lemma FirstIsDynamic(ps: seq<Part>, bytes: Bytes, rest: seq<Part>, offset: nat)
    requires ps == [Part(true, bytes)] + rest
    ensures Heads(ps, offset) == WordOf(offset) + Heads(rest, offset + |bytes|)
    ensures Tails(ps) == bytes + Tails(rest) && HeadSize(ps) == 32 + HeadSize(rest)
    ensures OffsetsFit(ps, offset) == (offset < UINT256_LIMIT && OffsetsFit(rest, offset + |bytes|))
  {
    assert ps[1..] == rest && ps[0] == Part(true, bytes);
  }

  /** The same, with a name for the offset of the next tail. */
  lemma FirstIsDynamicAt(ps: seq<Part>, bytes: Bytes, rest: seq<Part>, offset: nat, next: nat)
    requires ps == [Part(true, bytes)] + rest && next == offset + |bytes|
    ensures Heads(ps, offset) == WordOf(offset) + Heads(rest, next)
    ensures Tails(ps) == bytes + Tails(rest) && HeadSize(ps) == 32 + HeadSize(rest)
    ensures OffsetsFit(ps, offset) == (offset < UINT256_LIMIT && OffsetsFit(rest, next))
  {
    FirstIsDynamic(ps, bytes, rest, offset);
  }

  lemma FirstIsStatic(ps: seq<Part>, w: Word, rest: seq<Part>, offset: nat)
    requires ps == [Part(false, w)] + rest
    ensures Heads(ps, offset) == w + Heads(rest, offset)
    ensures Tails(ps) == Tails(rest) && HeadSize(ps) == 32 + HeadSize(rest)
    ensures OffsetsFit(ps, offset) == OffsetsFit(rest, offset)
  {
    assert ps[1..] == rest && ps[0] == Part(false, w);
  }

  function Words(words: seq<Word>): (ps: seq<Part>) {
    seq(|words|, i requires 0 <= i < |words| => Part(false, words[i]))
  }

  /** Static words stand one after another in front of the other heads. */
  lemma {:induction false} LeadingWords(ps: seq<Part>, words: seq<Word>, rest: seq<Part>, offset: nat)
    requires ps == Words(words) + rest
    ensures Heads(ps, offset) == Flatten(words) + Heads(rest, offset)
    ensures Tails(ps) == Tails(rest) && HeadSize(ps) == 32 * |words| + HeadSize(rest)
    ensures OffsetsFit(ps, offset) == OffsetsFit(rest, offset)
    decreases |words|
  {
    if words == [] {
      assert ps == rest;
    } else {
      var front, last := words[..|words| - 1], words[|words| - 1];
      var middle := [Part(false, last)] + rest;
      assert ps == Words(front) + middle;
      LeadingWords(ps, front, middle, offset);
      FirstIsStatic(middle, last, rest, offset);
    }
  }

  lemma LastWords(ps: seq<Part>, words: seq<Word>, offset: nat)
    requires ps == Words(words)
    ensures Heads(ps, offset) == Flatten(words) && Tails(ps) == []
    ensures HeadSize(ps) == 32 * |words| && OffsetsFit(ps, offset)
  {
    LeadingWords(ps, words, [], offset);
  }

  lemma DynamicThenWords(ps: seq<Part>, bytes: Bytes, back: seq<Word>, offset: nat)
    requires ps == [Part(true, bytes)] + Words(back)
    ensures Heads(ps, offset) == WordOf(offset) + Flatten(back) && Tails(ps) == bytes
    ensures HeadSize(ps) == 32 + 32 * |back| && OffsetsFit(ps, offset) == (offset < UINT256_LIMIT)
  {
    var rest, next := Words(back), offset + |bytes|;
    LastWords(rest, back, next);
    FirstIsDynamicAt(ps, bytes, rest, offset, next);
  }

  /** Words around one dynamic component: it leaves its offset, the length of the heads, among them. */
  lemma OneDynamic(ps: seq<Part>, front: seq<Word>, bytes: Bytes, back: seq<Word>, head: nat)
    requires ps == Words(front) + ([Part(true, bytes)] + Words(back)) && head == 32 * (|front| + 1 + |back|)
    ensures Join(ps) == Flatten(front) + (WordOf(head) + Flatten(back)) + bytes
    ensures HeadSize(ps) == head && OffsetsFit(ps, head) == (head < UINT256_LIMIT)
  {
    var rest := [Part(true, bytes)] + Words(back);
    DynamicThenWords(rest, bytes, back, head);
    LeadingWords(ps, front, rest, head);
  }
}
