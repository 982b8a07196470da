/** `encodeBundlerMulticall` (packages/operations/src/actions.ts) and a decoder that undoes it. */
module Multicall {
  import opened Common
  import opened ByteStrings
  import opened Abi
  import opened AbiCode

  /** The fields of a frozen call that reach the calldata; its value is always zero and it never skips a revert. */
  datatype FrozenCall = FrozenCall(to: Text, calldata: Text, callbackHash: Text)

  predicate ValidCall(c: FrozenCall) {
    IsAddressText(c.to) && IsBytesText(c.calldata) && IsBytes32Text(c.callbackHash)
  }

  /** (address to, uint256 value, bytes data, bool skipRevert, bytes32 callbackHash) */
  const CALL_TYPE := TupleType([WordType, WordType, BytesType, WordType, WordType])

  const ARGUMENTS := TupleType([ArrayType(CALL_TYPE)])

  function CallFields(to: Word, data: Bytes, hash: Word): seq<Value> {
    [Static(to), Static(WordOf(0)), Dynamic(data), Static(WordOf(0)), Static(hash)]
  }

  function CallValue(c: FrozenCall): Value
    requires ValidCall(c)
  {
    Tuple(CallFields(AddressBytes(c.to), BytesOfText(c.calldata), BytesOfText(c.callbackHash)))
  }

  function CallValues(calls: seq<FrozenCall>): seq<Value>
    requires forall i | 0 <= i < |calls| :: ValidCall(calls[i])
  {
    seq(|calls|, i requires 0 <= i < |calls| => CallValue(calls[i]))
  }

  predicate AllValid(calls: seq<FrozenCall>) {
    forall i | 0 <= i < |calls| :: ValidCall(calls[i])
  }

  // ---------------------------------------------------------------- one call

  lemma CallParts(to: Word, data: Bytes, hash: Word)
    ensures Parts(CallFields(to, data, hash))
            == Words([to, WordOf(0)]) + ([Part(true, Enc(Dynamic(data)))] + Words([WordOf(0), hash]))
    ensures IsDynamic(Tuple(CallFields(to, data, hash)))
  {
    assert IsDynamic(CallFields(to, data, hash)[2]);
  }

  lemma CallEncoding(to: Word, data: Bytes, hash: Word)
    ensures Enc(Tuple(CallFields(to, data, hash)))
            == to + WordOf(0) + WordOf(160) + WordOf(0) + hash + Enc(Dynamic(data))
    ensures Fits(Tuple(CallFields(to, data, hash))) == (|data| < UINT256_LIMIT)
  {
    var zero, fields := WordOf(0), CallFields(to, data, hash);
    CallParts(to, data, hash);
    EncIsJoin(fields);
    OneDynamic(Parts(fields), [to, zero], Enc(Dynamic(data)), [zero, hash], 160);
    FlattenTwo(to, zero);
    FlattenTwo(zero, hash);
    Regroup(to, zero, WordOf(160), zero, hash, Enc(Dynamic(data)));
    CallFits(to, data, hash);
  }

  lemma CallFits(to: Word, data: Bytes, hash: Word)
    requires OffsetsFit(Parts(CallFields(to, data, hash)), HeadSize(Parts(CallFields(to, data, hash))))
    ensures Fits(Tuple(CallFields(to, data, hash))) == (|data| < UINT256_LIMIT)
  {
    var fields := CallFields(to, data, hash);
    assert Fits(fields[2]) == (|data| < UINT256_LIMIT);
    assert forall i | 0 <= i < 5 && i != 2 :: Fits(fields[i]);
  }

  lemma Regroup(a: Bytes, b: Bytes, c: Bytes, d: Bytes, e: Bytes, f: Bytes)
    ensures a + b + (c + (d + e)) + f == a + b + c + d + e + f
  {
  }

  lemma FlattenSix(a: Bytes, b: Bytes, c: Bytes, d: Bytes, e: Bytes, f: Bytes)
    ensures Flatten([a, b, c, d, e, f]) == a + b + c + d + e + f
  {
    assert [a, b, c, d, e, f] == [a, b] + [c, d] + [e, f];
    FlattenSplit([a, b] + [c, d], [e, f]);
    FlattenSplit([a, b], [c, d]);
    FlattenTwo(a, b);
    FlattenTwo(c, d);
    FlattenTwo(e, f);
  }

  /** The callback of `calls.map`. */
  method EncodeCall(c: FrozenCall) returns (r: Option<Bytes>)
    ensures r == if ValidCall(c) && Fits(CallValue(c)) then Some(Enc(CallValue(c))) else None
  {
    if ValidCall(c) {
      CallEncoding(AddressBytes(c.to), BytesOfText(c.calldata), BytesOfText(c.callbackHash));
    }
    var dynamic := BytesTail(c.calldata);
    var to := AddressWord(c.to);
    if dynamic.None? || to.None? || !IsBytes32Text(c.callbackHash) { return None; }
    var value := UintWord(0);
    var position := UintWord(5 * 32);
    var skip := UintWord(0);
    var hash := HexToBytes(c.callbackHash[2..]);
    var encoded := ConcatBytes([to.value, value.value, position.value, skip.value, hash[..], dynamic.value]);
    FlattenSix(to.value, value.value, position.value, skip.value, hash[..], dynamic.value);
    return Some(encoded);
  }

  // ---------------------------------------------------------------- the array

  predicate AllDynamic(vs: seq<Value>) {
    forall i | 0 <= i < |vs| :: IsDynamic(vs[i])
  }

  predicate AllFit(vs: seq<Value>) {
    forall i | 0 <= i < |vs| :: Fits(vs[i])
  }

  /** Components that all are dynamic. */
  function Dynamics(bs: seq<Bytes>): (ps: seq<Part>) {
    seq(|bs|, i requires 0 <= i < |bs| => Part(true, bs[i]))
  }

  function Encodings(vs: seq<Value>): seq<Bytes> {
    seq(|vs|, i requires 0 <= i < |vs| => Enc(vs[i]))
  }

  lemma DynamicParts(vs: seq<Value>)
    requires AllDynamic(vs)
    ensures Parts(vs) == Dynamics(Encodings(vs))
  {
  }

  lemma {:induction false} DynamicTails(bs: seq<Bytes>)
    ensures HeadSize(Dynamics(bs)) == 32 * |bs| && Tails(Dynamics(bs)) == Flatten(bs)
  {
    if bs != [] {
      var rest := bs[1..];
      DynamicTails(rest);
      assert Dynamics(bs) == [Part(true, bs[0])] + Dynamics(rest);
      FirstIsDynamic(Dynamics(bs), bs[0], Dynamics(rest), 0);
      assert bs == [bs[0]] + rest;
      FlattenSplit([bs[0]], rest);
      FlattenOne(bs[0]);
    }
  }

  lemma NextHead(bs: seq<Bytes>, i: nat, offset: nat, words: seq<Bytes>)
    requires i < |bs|
    ensures OffsetsFit(Dynamics(bs[i..]), offset)
            == (offset < UINT256_LIMIT && OffsetsFit(Dynamics(bs[i + 1..]), offset + |bs[i]|))
    ensures Flatten(words) + Heads(Dynamics(bs[i..]), offset)
            == Flatten(words + [WordOf(offset)]) + Heads(Dynamics(bs[i + 1..]), offset + |bs[i]|)
  {
    assert Dynamics(bs[i..]) == [Part(true, bs[i])] + Dynamics(bs[i + 1..]);
    FirstIsDynamic(Dynamics(bs[i..]), bs[i], Dynamics(bs[i + 1..]), offset);
    FlattenNext(words, WordOf(offset));
  }

  /** The head words, written one by one while `offset` runs ahead over the encodings. */
  method Offsets(encoded: seq<Bytes>) returns (offsets: Option<seq<Bytes>>)
    ensures offsets.Some? == OffsetsFit(Dynamics(encoded), 32 * |encoded|)
    ensures offsets.Some? ==> Flatten(offsets.value) == Heads(Dynamics(encoded), 32 * |encoded|)
  {
    var offset: nat := |encoded| * 32;
    var words: seq<Bytes> := [];
    for i := 0 to |encoded|
      invariant Flatten(words) + Heads(Dynamics(encoded[i..]), offset) == Heads(Dynamics(encoded), 32 * |encoded|)
      invariant OffsetsFit(Dynamics(encoded[i..]), offset) == OffsetsFit(Dynamics(encoded), 32 * |encoded|)
    {
      NextHead(encoded, i, offset, words);
      var word := UintWord(offset);
      if word.None? { return None; }
      words := words + [word.value];
      offset := offset + |encoded[i]|;
    }
    return Some(words);
  }

  method EncodeCalls(calls: seq<FrozenCall>) returns (encoded: Option<seq<Bytes>>)
    ensures encoded.Some? == (AllValid(calls) && AllFit(CallValues(calls)))
    ensures encoded.Some? ==> encoded.value == Encodings(CallValues(calls))
  {
    var parts: seq<Bytes> := [];
    for i := 0 to |calls|
      invariant |parts| == i
      invariant forall k | 0 <= k < i :: ValidCall(calls[k]) && Fits(CallValue(calls[k])) && parts[k] == Enc(CallValue(calls[k]))
    {
      var part := EncodeCall(calls[i]);
      if part.None? {
        assert AllValid(calls) ==> CallValues(calls)[i] == CallValue(calls[i]);
        return None;
      }
      parts := parts + [part.value];
    }
    assert parts == Encodings(CallValues(calls));
    return Some(parts);
  }

  lemma CallsAreDynamic(calls: seq<FrozenCall>)
    requires AllValid(calls)
    ensures AllDynamic(CallValues(calls))
  {
    forall i | 0 <= i < |calls| ensures IsDynamic(CallValues(calls)[i]) {
      var c := calls[i];
      CallParts(AddressBytes(c.to), BytesOfText(c.calldata), BytesOfText(c.callbackHash));
    }
  }

  /** The values that the encoder has to encode, when every call is well formed. */
  function Payload(calls: seq<FrozenCall>): Value
    requires AllValid(calls)
  {
    Tuple([Array(CallValues(calls))])
  }

  lemma ArrayEncoding(vs: seq<Value>, bs: seq<Bytes>)
    requires AllDynamic(vs) && bs == Encodings(vs)
    ensures Enc(Array(vs)) == WordOf(|vs|) + (Heads(Dynamics(bs), 32 * |vs|) + Flatten(bs))
    ensures Fits(Array(vs)) == (|vs| < UINT256_LIMIT && OffsetsFit(Dynamics(bs), 32 * |vs|) && AllFit(vs))
  {
    EncIsJoin(vs);
    DynamicParts(vs);
    DynamicTails(bs);
  }

  lemma PayloadEncoding(vs: seq<Value>, bs: seq<Bytes>)
    requires AllDynamic(vs) && bs == Encodings(vs)
    ensures Enc(Tuple([Array(vs)])) == WordOf(32) + (WordOf(|vs|) + (Heads(Dynamics(bs), 32 * |vs|) + Flatten(bs)))
    ensures Fits(Tuple([Array(vs)])) == (|vs| < UINT256_LIMIT && OffsetsFit(Dynamics(bs), 32 * |vs|) && AllFit(vs))
  {
    ArrayEncoding(vs, bs);
    OnlyArray(Array(vs));
  }

  lemma OnlyArray(v: Value)
    requires IsDynamic(v)
    ensures Enc(Tuple([v])) == WordOf(32) + Enc(v) && Fits(Tuple([v])) == Fits(v)
  {
    EncIsJoin([v]);
    assert Parts([v]) == [Part(true, Enc(v))] + Words([]);
    DynamicThenWords(Parts([v]), Enc(v), [], 32);
    assert Fits(Tuple([v])) == (OffsetsFit(Parts([v]), HeadSize(Parts([v]))) && Fits([v][0]));
  }

  lemma FlattenArray(a: Bytes, bs: seq<Bytes>, cs: seq<Bytes>)
    ensures Flatten([a] + bs + cs) == a + (Flatten(bs) + Flatten(cs))
  {
    FlattenSplit([a] + bs, cs);
    FlattenSplit([a], bs);
    FlattenOne(a);
  }

  function Calldata(selector: Bytes, v: Value): Text {
    TextOfBytes(selector + Enc(v))
  }

  /** The calldata is the selector and the ABI encoding of the call list; it throws exactly when that does not exist. */
  method EncodeBundlerMulticall(selector: Bytes, calls: seq<FrozenCall>) returns (r: Option<Text>)
    ensures r == if AllValid(calls) && Fits(Payload(calls)) then Some(Calldata(selector, Payload(calls))) else None
  {
    var encoded := EncodeCalls(calls);
    if AllValid(calls) {
      CallsAreDynamic(calls);
      PayloadEncoding(CallValues(calls), Encodings(CallValues(calls)));
    }
    if encoded.None? { return None; }
    var offsets := Offsets(encoded.value);
    if offsets.None? { return None; }
    var count := UintWord(|calls|);
    if count.None? { return None; }
    var list := ConcatBytes([count.value] + offsets.value + encoded.value);
    FlattenArray(count.value, offsets.value, encoded.value);
    r := Wrap(selector, list);
  }

  method Wrap(selector: Bytes, list: Bytes) returns (r: Option<Text>)
    ensures r == Some(TextOfBytes(selector + (WordOf(32) + list)))
  {
    var word := UintWord(32);
    var bytes := ConcatBytes([selector, word.value, list]);
    assert [selector, word.value, list] == [selector, word.value] + [list];
    FlattenNext([selector, word.value], list);
    FlattenTwo(selector, word.value);
    assert bytes == selector + (WordOf(32) + list);
    var hex := BytesToHex(bytes);
    return Some(HEX_PREFIX + hex);
  }

  // ---------------------------------------------------------------- reading it back

  predicate IsPlainCall(v: Value) {
    && v.Tuple? && |v.fields| == 5
    && v.fields[0].Static? && v.fields[1].Static? && v.fields[2].Dynamic? && v.fields[3].Static? && v.fields[4].Static?
    && v.fields[0].word[..12] == Zeros(12) && v.fields[1].word == WordOf(0) && v.fields[3].word == WordOf(0)
  }

  /** The call of a decoded tuple, if its value is zero and it does not skip reverts. */
  function ReadCall(v: Value): Option<FrozenCall> {
    if IsPlainCall(v)
    then Some(FrozenCall(TextOfBytes(v.fields[0].word[12..]), TextOfBytes(v.fields[2].data), TextOfBytes(v.fields[4].word)))
    else None
  }

  function ReadCalls(vs: seq<Value>): Option<seq<FrozenCall>> {
    if vs == [] then Some([])
    else
      var first, rest := ReadCall(vs[0]), ReadCalls(vs[1..]);
      if first.Some? && rest.Some? then Some([first.value] + rest.value) else None
  }

  /** Reads calldata by the ABI of the function alone. */
  function DecodeMulticall(selector: Bytes, text: Text): Option<seq<FrozenCall>> {
    if !IsBytesText(text) || !(selector <= BytesOfText(text)) then None
    else
      var v := Dec(ARGUMENTS, BytesOfText(text), |selector|);
      if v.Some? && v.value.Tuple? && |v.value.fields| == 1 && v.value.fields[0].Array?
      then ReadCalls(v.value.fields[0].items)
      else None
  }

  lemma FieldsAreRead(to: Word, data: Bytes, hash: Word)
    requires to[..12] == Zeros(12)
    ensures ReadCall(Tuple(CallFields(to, data, hash)))
            == Some(FrozenCall(TextOfBytes(to[12..]), TextOfBytes(data), TextOfBytes(hash)))
  {
  }

  lemma ReadCallOfValue(c: FrozenCall)
    requires ValidCall(c)
    ensures ReadCall(CallValue(c)) == Some(c)
  {
    var to := AddressBytes(c.to);
    assert to[..12] == Zeros(12) && to[12..] == BytesOfText(c.to);
    FieldsAreRead(to, BytesOfText(c.calldata), BytesOfText(c.callbackHash));
    TextRoundTrip(c.to);
    TextRoundTrip(c.calldata);
    TextRoundTrip(c.callbackHash);
  }

  lemma {:induction false} ReadCallsOfValues(vs: seq<Value>, calls: seq<FrozenCall>)
    requires |vs| == |calls| && forall i | 0 <= i < |vs| :: ReadCall(vs[i]) == Some(calls[i])
    ensures ReadCalls(vs) == Some(calls)
  {
    if vs != [] {
      forall i | 0 <= i < |vs| - 1 ensures ReadCall(vs[1..][i]) == Some(calls[1..][i]) {
        assert ReadCall(vs[i + 1]) == Some(calls[i + 1]);
      }
      ReadCallsOfValues(vs[1..], calls[1..]);
      assert [calls[0]] + calls[1..] == calls;
    }
  }

  lemma CallsAreRead(calls: seq<FrozenCall>)
    requires AllValid(calls)
    ensures ReadCalls(CallValues(calls)) == Some(calls)
  {
    forall i | 0 <= i < |calls| ensures ReadCall(CallValues(calls)[i]) == Some(calls[i]) {
      ReadCallOfValue(calls[i]);
    }
    ReadCallsOfValues(CallValues(calls), calls);
  }

  lemma CallHasType(to: Word, data: Bytes, hash: Word)
    ensures HasType(Tuple(CallFields(to, data, hash)), CALL_TYPE)
  {
  }

  lemma PayloadHasType(calls: seq<FrozenCall>)
    requires AllValid(calls)
    ensures HasType(Payload(calls), ARGUMENTS)
  {
    forall i | 0 <= i < |calls| ensures HasType(CallValues(calls)[i], CALL_TYPE) {
      var c := calls[i];
      CallHasType(AddressBytes(c.to), BytesOfText(c.calldata), BytesOfText(c.callbackHash));
    }
    assert HasType(Array(CallValues(calls)), ArrayType(CALL_TYPE));
  }

  lemma SelectorThenPayload(selector: Bytes, v: Value)
    ensures IsBytesText(Calldata(selector, v)) && BytesOfText(Calldata(selector, v)) == selector + Enc(v)
    ensures selector <= selector + Enc(v) && IsAt(selector + Enc(v), |selector|, Enc(v))
  {
    BytesRoundTrip(selector + Enc(v));
  }

  /** Decoding the calldata returns every target, calldata and callback hash, in order, for lists of any length. */
  lemma MulticallRoundTrip(selector: Bytes, calls: seq<FrozenCall>)
    requires AllValid(calls) && Fits(Payload(calls))
    ensures DecodeMulticall(selector, Calldata(selector, Payload(calls))) == Some(calls)
  {
    var v := Payload(calls);
    SelectorThenPayload(selector, v);
    PayloadHasType(calls);
    DecodesWhatWasEncoded(v, ARGUMENTS, selector + Enc(v), |selector|);
    CallsAreRead(calls);
  }

  /** Different call lists never share calldata. */
  lemma MulticallIsInjective(selector: Bytes, calls: seq<FrozenCall>, others: seq<FrozenCall>)
    requires AllValid(calls) && Fits(Payload(calls)) && AllValid(others) && Fits(Payload(others))
    requires Calldata(selector, Payload(calls)) == Calldata(selector, Payload(others))
    ensures calls == others
  {
    MulticallRoundTrip(selector, calls);
    MulticallRoundTrip(selector, others);
  }

  // ---------------------------------------------------------------- offsets

  /** Where component `i` starts, counted from the first head. */
  function OffsetOf(bs: seq<Bytes>, i: nat): nat
    requires i <= |bs|
  {
    32 * |bs| + |Flatten(bs[..i])|
  }

  lemma AroundPiece(bs: seq<Bytes>, i: nat)
    requires i < |bs|
    ensures bs == bs[..i] + [bs[i]] + bs[i + 1..]
  {
  }

  lemma FlattenAround(bs: seq<Bytes>, i: nat)
    requires i < |bs|
    ensures Flatten(bs) == Flatten(bs[..i]) + bs[i] + Flatten(bs[i + 1..])
  {
    AroundPiece(bs, i);
    FlattenThree(bs, bs[..i], bs[i], bs[i + 1..]);
  }

  lemma FlattenThree(bs: seq<Bytes>, before: seq<Bytes>, piece: Bytes, after: seq<Bytes>)
    requires bs == before + [piece] + after
    ensures Flatten(bs) == Flatten(before) + piece + Flatten(after)
  {
    FlattenSplit(before + [piece], after);
    FlattenNext(before, piece);
  }

  lemma FlattenFirst(bs: seq<Bytes>, i: nat)
    requires 0 < i <= |bs|
    ensures |Flatten(bs[..i])| == |bs[0]| + |Flatten(bs[1..][..i - 1])|
  {
    assert bs[..i] == [bs[0]] + bs[1..][..i - 1];
    FlattenSplit([bs[0]], bs[1..][..i - 1]);
    FlattenOne(bs[0]);
  }

  lemma AtShifted(a: Bytes, b: Bytes, at: nat, piece: Bytes)
    requires IsAt(b, at, piece)
    ensures IsAt(a + b, |a| + at, piece)
  {
    assert (a + b)[|a| + at..|a| + at + |piece|] == b[at..at + |piece|];
  }

  lemma AtPrefix(a: Bytes, b: Bytes, at: nat, piece: Bytes)
    requires IsAt(a, at, piece)
    ensures IsAt(a + b, at, piece)
  {
    assert (a + b)[at..at + |piece|] == a[at..at + |piece|];
  }

  lemma HeadFirst(bs: seq<Bytes>, rest: seq<Bytes>, offset: nat, next: nat)
    requires |bs| > 0 && rest == bs[1..] && next == offset + |bs[0]|
    ensures Heads(Dynamics(bs), offset) == WordOf(offset) + Heads(Dynamics(rest), next)
    ensures OffsetsFit(Dynamics(bs), offset) == (offset < UINT256_LIMIT && OffsetsFit(Dynamics(rest), next))
  {
    assert Dynamics(bs) == [Part(true, bs[0])] + Dynamics(rest);
    FirstIsDynamicAt(Dynamics(bs), bs[0], Dynamics(rest), offset, next);
  }

  lemma {:induction false} HeadWord(bs: seq<Bytes>, offset: nat, i: nat, n: nat)
    requires OffsetsFit(Dynamics(bs), offset) && i < |bs| && n == offset + |Flatten(bs[..i])|
    ensures n < UINT256_LIMIT && IsAt(Heads(Dynamics(bs), offset), 32 * i, WordOf(n))
  {
    var rest, next := bs[1..], offset + |bs[0]|;
    var heads := Heads(Dynamics(rest), next);
    HeadFirst(bs, rest, offset, next);
    if i == 0 {
      assert bs[..0] == [];
      AtPrefix(WordOf(offset), heads, 0, WordOf(offset));
    } else {
      FlattenFirst(bs, i);
      HeadWord(rest, next, i - 1, n);
      AtShifted(WordOf(offset), heads, 32 * (i - 1), WordOf(n));
    }
  }

  lemma {:induction false} WholeWordsBefore(bs: seq<Bytes>)
    requires forall i | 0 <= i < |bs| :: |bs[i]| % 32 == 0
    ensures |Flatten(bs)| % 32 == 0
  {
    if bs != [] {
      WholeWordsBefore(bs[..|bs| - 1]);
      WholeWords(Flatten(bs[..|bs| - 1]), bs[|bs| - 1]);
    }
  }

  lemma ReadInPrefix(body: Bytes, heads: Bytes, tails: Bytes, at: nat, n: nat)
    requires body == heads + tails && IsAt(heads, at, WordOf(n)) && n < UINT256_LIMIT
    ensures ReadWord(body, at) == Some(n)
  {
    AtPrefix(heads, tails, at, WordOf(n));
    ReadWordAt(body, at, n);
  }

  lemma PieceIsThere(heads: Bytes, before: Bytes, piece: Bytes, after: Bytes)
    ensures IsAt(heads + (before + piece + after), |heads| + |before|, piece)
  {
    AtShifted(before, piece, 0, piece);
    AtPrefix(before + piece, after, |before|, piece);
    AtShifted(heads, before + piece + after, |before|, piece);
  }

  lemma BodyIs(bs: seq<Bytes>)
    ensures Join(Dynamics(bs)) == Heads(Dynamics(bs), 32 * |bs|) + Flatten(bs)
    ensures |Heads(Dynamics(bs), 32 * |bs|)| == 32 * |bs|
  {
    DynamicTails(bs);
    HeadsEnd(Dynamics(bs), 32 * |bs|);
  }

  lemma HeadHolds(bs: seq<Bytes>, i: nat, heads: Bytes, offset: nat)
    requires i < |bs| && offset == OffsetOf(bs, i)
    requires OffsetsFit(Dynamics(bs), 32 * |bs|) && heads == Heads(Dynamics(bs), 32 * |bs|)
    ensures IsAt(heads, 32 * i, WordOf(offset)) && offset < UINT256_LIMIT
  {
    HeadWord(bs, 32 * |bs|, i, offset);
  }

  lemma OffsetIsRead(bs: seq<Bytes>, i: nat, body: Bytes, heads: Bytes, tails: Bytes, offset: nat)
    requires i < |bs| && offset == OffsetOf(bs, i)
    requires OffsetsFit(Dynamics(bs), 32 * |bs|) && heads == Heads(Dynamics(bs), 32 * |bs|)
    requires body == heads + tails
    ensures ReadWord(body, 32 * i) == Some(offset)
  {
    HeadHolds(bs, i, heads, offset);
    ReadInPrefix(body, heads, tails, 32 * i, offset);
  }

  lemma OffsetIsAligned(bs: seq<Bytes>, i: nat)
    requires i < |bs| && forall k | 0 <= k < |bs| :: |bs[k]| % 32 == 0
    ensures OffsetOf(bs, i) % 32 == 0
  {
    WholeWordsBefore(bs[..i]);
  }

  lemma ComponentIsThere(bs: seq<Bytes>, i: nat)
    requires i < |bs|
    ensures IsAt(Join(Dynamics(bs)), OffsetOf(bs, i), bs[i])
  {
    BodyIs(bs);
    FlattenAround(bs, i);
    PieceIsThere(Heads(Dynamics(bs), 32 * |bs|), Flatten(bs[..i]), bs[i], Flatten(bs[i + 1..]));
  }

  lemma ComponentFound(bs: seq<Bytes>, i: nat, body: Bytes, offset: nat)
    requires i < |bs| && body == Join(Dynamics(bs)) && offset == OffsetOf(bs, i)
    requires OffsetsFit(Dynamics(bs), 32 * |bs|) && forall k | 0 <= k < |bs| :: |bs[k]| % 32 == 0
    ensures ReadWord(body, 32 * i) == Some(offset) && offset % 32 == 0 && IsAt(body, offset, bs[i])
  {
    BodyIs(bs);
    OffsetIsRead(bs, i, body, Heads(Dynamics(bs), 32 * |bs|), Flatten(bs), offset);
    ComponentIsThere(bs, i);
    OffsetIsAligned(bs, i);
  }

  /**
   The i-th head of the call array holds an offset that is a multiple of 32, and the encoding of the i-th call stands
   there, in bounds. Positions count from the first head, after the outer offset and the length.
   */
  lemma OffsetsPointAtCalls(calls: seq<FrozenCall>, i: nat, body: Bytes) returns (offset: nat)
    requires AllValid(calls) && Fits(Payload(calls)) && i < |calls|
    requires body == Join(Parts(CallValues(calls)))
    ensures Enc(Payload(calls)) == WordOf(32) + (WordOf(|calls|) + body)
    ensures ReadWord(body, 32 * i) == Some(offset) && offset % 32 == 0
    ensures IsAt(body, offset, Enc(CallValue(calls[i])))
  {
    var vs := CallValues(calls);
    var bs := Encodings(vs);
    CallsAreDynamic(calls);
    PayloadEncoding(vs, bs);
    BodyIs(bs);
    DynamicParts(vs);
    forall k | 0 <= k < |bs| ensures |bs[k]| % 32 == 0 {
      EncodingFillsWords(vs[k]);
    }
    offset := OffsetOf(bs, i);
    ComponentFound(bs, i, body, offset);
  }
}
