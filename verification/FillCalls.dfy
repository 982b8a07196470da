/**
 The calls of the fill functions and of the permit transfer: `encodeFillCall`
 (packages/operations/src/limit-orders.ts) and `encodePermitTransferCall` (packages/operations/src/actions.ts).
 */
module FillCalls {
  import opened Common
  import opened ByteStrings
  import opened Abi
  import opened AbiCode
  import opened CompactSignatures

  // ---------------------------------------------------------------- static tuples

  lemma StaticTuple(words: seq<Word>, v: Value)
    requires v == Tuple(Statics(words))
    ensures !IsDynamic(v) && Fits(v) && Enc(v) == Flatten(words)
  {
    EncIsJoin(Statics(words));
    assert Parts(Statics(words)) == Words(words);
    LastWords(Words(words), words, HeadSize(Words(words)));
  }

  function Statics(words: seq<Word>): (vs: seq<Value>) {
    seq(|words|, i requires 0 <= i < |words| => Static(words[i]))
  }

  lemma FirstIsInline(ps: seq<Part>, bytes: Bytes, rest: seq<Part>, offset: nat)
    requires ps == [Part(false, bytes)] + rest
    ensures Heads(ps, offset) == bytes + Heads(rest, offset)
    ensures Tails(ps) == Tails(rest) && HeadSize(ps) == |bytes| + HeadSize(rest)
    ensures OffsetsFit(ps, offset) == OffsetsFit(rest, offset)
  {
    assert ps[1..] == rest && ps[0] == Part(false, bytes);
  }

  // ---------------------------------------------------------------- the arguments

  datatype FillFunction = FillOrder | FillOrderArgs | FillContractOrder | FillContractOrderArgs

  datatype FillCall = FillCall(
    functionName: FillFunction, order: seq<int>, signature: Text, amount: int, takerTraits: int, args: Text)

  predicate IsWord(n: int) {
    0 <= n < UINT256_LIMIT
  }

  /** The eight words of an order, if all its numbers fit. */
  predicate IsOrder(order: seq<int>) {
    |order| == 8 && forall i | 0 <= i < 8 :: IsWord(order[i])
  }

  function OrderWords(order: seq<int>): seq<Word>
    requires IsOrder(order)
  {
    seq(8, i requires 0 <= i < 8 => WordOf(order[i]))
  }

  predicate SignedByKey(f: FillCall) {
    f.functionName.FillOrder? || f.functionName.FillOrderArgs?
  }

  predicate TakesArgs(f: FillCall) {
    f.functionName.FillOrderArgs? || f.functionName.FillContractOrderArgs?
  }

  /** What the encoder checks. */
  predicate Encodable(f: FillCall) {
    && IsOrder(f.order) && IsWord(f.amount) && IsWord(f.takerTraits)
    && (if SignedByKey(f) then CompactSignature(f.signature).Some? else IsBytesText(f.signature))
    && (if TakesArgs(f) then IsBytesText(f.args) else f.args == HEX_PREFIX)
  }

  /** (order, r, vs, amount, takerTraits[, args]) or (order, signature, amount, takerTraits[, args]) */
  function Arguments(f: FillCall): seq<Value>
    requires Encodable(f)
  {
    var order, amount, traits := Tuple(Statics(OrderWords(f.order))), Static(WordOf(f.amount)), Static(WordOf(f.takerTraits));
    match f.functionName
    case FillOrder => [order, Static(Compact(f).0), Static(Compact(f).1), amount, traits]
    case FillOrderArgs =>
      [order, Static(Compact(f).0), Static(Compact(f).1), amount, traits, Dynamic(BytesOfText(f.args))]
    case FillContractOrder => [order, Dynamic(BytesOfText(f.signature)), amount, traits]
    case FillContractOrderArgs =>
      [order, Dynamic(BytesOfText(f.signature)), amount, traits, Dynamic(BytesOfText(f.args))]
  }

  function Compact(f: FillCall): (Word, Word)
    requires SignedByKey(f) && CompactSignature(f.signature).Some?
  {
    CompactSignature(f.signature).value
  }

  const ORDER_TYPE := TupleType([WordType, WordType, WordType, WordType, WordType, WordType, WordType, WordType])

  function ArgumentTypes(name: FillFunction): seq<Type> {
    match name
    case FillOrder => [ORDER_TYPE, WordType, WordType, WordType, WordType]
    case FillOrderArgs => [ORDER_TYPE, WordType, WordType, WordType, WordType, BytesType]
    case FillContractOrder => [ORDER_TYPE, BytesType, WordType, WordType]
    case FillContractOrderArgs => [ORDER_TYPE, BytesType, WordType, WordType, BytesType]
  }

  // ---------------------------------------------------------------- the layouts

  lemma JoinOf(ps: seq<Part>, head: nat, heads: Bytes, tails: Bytes)
    requires HeadSize(ps) == head && Heads(ps, head) == heads && Tails(ps) == tails
    ensures Join(ps) == heads + tails && OffsetsFit(ps, HeadSize(ps)) == OffsetsFit(ps, head)
  {
  }

  lemma WordsOnly(ps: seq<Part>, order: Bytes, words: seq<Word>)
    requires ps == [Part(false, order)] + Words(words)
    ensures Join(ps) == order + Flatten(words) && OffsetsFit(ps, HeadSize(ps))
  {
    var head := |order| + 32 * |words|;
    LastWords(Words(words), words, head);
    FirstIsInline(ps, order, Words(words), head);
    JoinOf(ps, head, order + Flatten(words), []);
  }

  lemma LastDynamic(ps: seq<Part>, tail: Bytes, offset: nat)
    requires ps == [Part(true, tail)]
    ensures Heads(ps, offset) == WordOf(offset) && Tails(ps) == tail && HeadSize(ps) == 32
    ensures OffsetsFit(ps, offset) == (offset < UINT256_LIMIT)
  {
    assert ps == [Part(true, tail)] + [];
    FirstIsDynamicAt(ps, tail, [], offset, offset + |tail|);
  }

  lemma WordsThenTail(ps: seq<Part>, words: seq<Word>, tail: Bytes, offset: nat)
    requires ps == Words(words) + [Part(true, tail)]
    ensures Heads(ps, offset) == Flatten(words) + WordOf(offset) && Tails(ps) == tail
    ensures HeadSize(ps) == 32 * |words| + 32 && OffsetsFit(ps, offset) == (offset < UINT256_LIMIT)
  {
    var last := [Part(true, tail)];
    LastDynamic(last, tail, offset);
    LeadingWords(ps, words, last, offset);
  }

  lemma WordsThenDynamic(ps: seq<Part>, order: Bytes, words: seq<Word>, tail: Bytes, head: nat)
    requires ps == [Part(false, order)] + (Words(words) + [Part(true, tail)]) && head == |order| + 32 * |words| + 32
    ensures Join(ps) == order + (Flatten(words) + WordOf(head)) + tail
    ensures OffsetsFit(ps, HeadSize(ps)) == (head < UINT256_LIMIT)
  {
    var rest := Words(words) + [Part(true, tail)];
    WordsThenTail(rest, words, tail, head);
    FirstIsInline(ps, order, rest, head);
    JoinOf(ps, head, order + (Flatten(words) + WordOf(head)), tail);
  }

  lemma DynamicFirst(ps: seq<Part>, order: Bytes, signature: Bytes, words: seq<Word>, head: nat)
    requires ps == [Part(false, order)] + ([Part(true, signature)] + Words(words)) && head == |order| + 32 + 32 * |words|
    ensures Join(ps) == order + (WordOf(head) + Flatten(words)) + signature
    ensures OffsetsFit(ps, HeadSize(ps)) == (head < UINT256_LIMIT)
  {
    var rest := [Part(true, signature)] + Words(words);
    DynamicThenWords(rest, signature, words, head);
    FirstIsInline(ps, order, rest, head);
    JoinOf(ps, head, order + (WordOf(head) + Flatten(words)), signature);
  }

  lemma DynamicAroundWords(ps: seq<Part>, signature: Bytes, words: seq<Word>, args: Bytes, head: nat, next: nat)
    requires ps == [Part(true, signature)] + (Words(words) + [Part(true, args)]) && next == head + |signature|
    ensures Heads(ps, head) == WordOf(head) + (Flatten(words) + WordOf(next)) && Tails(ps) == signature + args
    ensures HeadSize(ps) == 64 + 32 * |words|
    ensures OffsetsFit(ps, head) == (head < UINT256_LIMIT && next < UINT256_LIMIT)
  {
    var middle := Words(words) + [Part(true, args)];
    WordsThenTail(middle, words, args, next);
    FirstIsDynamicAt(ps, signature, middle, head, next);
  }

  lemma TwoDynamics(ps: seq<Part>, order: Bytes, signature: Bytes, words: seq<Word>, args: Bytes, head: nat, next: nat)
    requires ps == [Part(false, order)] + ([Part(true, signature)] + (Words(words) + [Part(true, args)]))
    requires head == |order| + 64 + 32 * |words| && next == head + |signature|
    ensures Join(ps) == order + (WordOf(head) + (Flatten(words) + WordOf(next))) + (signature + args)
    ensures OffsetsFit(ps, HeadSize(ps)) == (head < UINT256_LIMIT && next < UINT256_LIMIT)
  {
    var rest := [Part(true, signature)] + (Words(words) + [Part(true, args)]);
    DynamicAroundWords(rest, signature, words, args, head, next);
    FirstIsInline(ps, order, rest, head);
    JoinOf(ps, head, order + (WordOf(head) + (Flatten(words) + WordOf(next))), signature + args);
  }

  /** The pieces that the encoder concatenates after the selector and the order. */
  function Pieces(f: FillCall): seq<Bytes>
    requires Encodable(f)
  {
    var amount, traits := WordOf(f.amount), WordOf(f.takerTraits);
    match f.functionName
    case FillOrder => [Compact(f).0, Compact(f).1, amount, traits]
    case FillOrderArgs => [Compact(f).0, Compact(f).1, amount, traits, WordOf(13 * 32), Enc(Dynamic(BytesOfText(f.args)))]
    case FillContractOrder => [WordOf(11 * 32), amount, traits, Enc(Dynamic(BytesOfText(f.signature)))]
    case FillContractOrderArgs =>
      [WordOf(12 * 32), amount, traits, WordOf(12 * 32 + |Enc(Dynamic(BytesOfText(f.signature)))|),
       Enc(Dynamic(BytesOfText(f.signature))), Enc(Dynamic(BytesOfText(f.args)))]
  }

  /** The lengths and offsets that the encoder writes are numbers of one word. */
  predicate LengthsFit(f: FillCall)
    requires Encodable(f)
  {
    match f.functionName
    case FillOrder => true
    case FillOrderArgs => |BytesOfText(f.args)| < UINT256_LIMIT
    case FillContractOrder => |BytesOfText(f.signature)| < UINT256_LIMIT
    case FillContractOrderArgs =>
      && |BytesOfText(f.args)| < UINT256_LIMIT && |BytesOfText(f.signature)| < UINT256_LIMIT
      && 12 * 32 + |Enc(Dynamic(BytesOfText(f.signature)))| < UINT256_LIMIT
  }

  lemma FlattenOrder(order: seq<int>)
    requires IsOrder(order)
    ensures |Flatten(OrderWords(order))| == 256
  {
    LastWords(Words(OrderWords(order)), OrderWords(order), 0);
    HeadsEnd(Words(OrderWords(order)), 0);
  }

  lemma FillOrderIs(f: FillCall, vs: seq<Value>, order: Bytes)
    requires Encodable(f) && f.functionName.FillOrder? && vs == Arguments(f)
    requires Parts(vs)[0] == Part(false, order)
    ensures Join(Parts(vs)) == order + Flatten(Pieces(f)) && OffsetsFit(Parts(vs), HeadSize(Parts(vs)))
  {
    var words: seq<Word> := [Compact(f).0, Compact(f).1, WordOf(f.amount), WordOf(f.takerTraits)];
    assert Parts(vs) == [Part(false, order)] + Words(words);
    WordsOnly(Parts(vs), order, words);
    assert words == Pieces(f);
  }

  lemma FillOrderArgsIs(f: FillCall, vs: seq<Value>, order: Bytes)
    requires Encodable(f) && f.functionName.FillOrderArgs? && vs == Arguments(f)
    requires Parts(vs)[0] == Part(false, order) && |order| == 256
    ensures Join(Parts(vs)) == order + Flatten(Pieces(f)) && OffsetsFit(Parts(vs), HeadSize(Parts(vs)))
  {
    var tail := Enc(Dynamic(BytesOfText(f.args)));
    var words: seq<Word> := [Compact(f).0, Compact(f).1, WordOf(f.amount), WordOf(f.takerTraits)];
    var ps := Parts(vs);
    assert ps == [Part(false, order)] + (Words(words) + [Part(true, tail)]);
    WordsThenDynamic(ps, order, words, tail, 13 * 32);
    PiecesOf(Pieces(f), words, WordOf(13 * 32), tail);
    SameJoin(order, Flatten(words) + WordOf(13 * 32), tail);
  }

  lemma PiecesOf(pieces: seq<Bytes>, words: seq<Bytes>, offset: Bytes, tail: Bytes)
    requires pieces == words + [offset] + [tail]
    ensures Flatten(pieces) == Flatten(words) + offset + tail
  {
    FlattenNext(words + [offset], tail);
    FlattenNext(words, offset);
  }

  lemma FillContractOrderIs(f: FillCall, vs: seq<Value>, order: Bytes)
    requires Encodable(f) && f.functionName.FillContractOrder? && vs == Arguments(f)
    requires Parts(vs)[0] == Part(false, order) && |order| == 256
    ensures Join(Parts(vs)) == order + Flatten(Pieces(f)) && OffsetsFit(Parts(vs), HeadSize(Parts(vs)))
  {
    var signature := Enc(Dynamic(BytesOfText(f.signature)));
    var words: seq<Word> := [WordOf(f.amount), WordOf(f.takerTraits)];
    var ps, pieces := Parts(vs), Pieces(f);
    ContractParts(f, vs, ps, order, words, signature);
    DynamicFirst(ps, order, signature, words, 11 * 32);
    PiecesAfter(pieces, WordOf(11 * 32), words, signature);
    SameJoin(order, WordOf(11 * 32) + Flatten(words), signature);
  }

  lemma ContractParts(f: FillCall, vs: seq<Value>, ps: seq<Part>, order: Bytes, words: seq<Word>, signature: Bytes)
    requires Encodable(f) && f.functionName.FillContractOrder? && vs == Arguments(f)
    requires ps == Parts(vs) && ps[0] == Part(false, order)
    requires words == [WordOf(f.amount), WordOf(f.takerTraits)]
    requires signature == Enc(Dynamic(BytesOfText(f.signature)))
    ensures ps == [Part(false, order)] + ([Part(true, signature)] + Words(words))
    ensures Pieces(f) == [WordOf(11 * 32)] + words + [signature]
  {
  }

  lemma PiecesAfter(pieces: seq<Bytes>, offset: Bytes, words: seq<Bytes>, tail: Bytes)
    requires pieces == [offset] + words + [tail]
    ensures Flatten(pieces) == offset + Flatten(words) + tail
  {
    FlattenNext([offset] + words, tail);
    FlattenSplit([offset], words);
    FlattenOne(offset);
  }

  lemma FillContractOrderArgsIs(f: FillCall, vs: seq<Value>, order: Bytes)
    requires Encodable(f) && f.functionName.FillContractOrderArgs? && vs == Arguments(f)
    requires Parts(vs)[0] == Part(false, order) && |order| == 256
    ensures Join(Parts(vs)) == order + Flatten(Pieces(f))
    ensures OffsetsFit(Parts(vs), HeadSize(Parts(vs)))
            == (12 * 32 + |Enc(Dynamic(BytesOfText(f.signature)))| < UINT256_LIMIT)
  {
    var signature, args := Enc(Dynamic(BytesOfText(f.signature))), Enc(Dynamic(BytesOfText(f.args)));
    var next := 12 * 32 + |signature|;
    var words: seq<Word> := [WordOf(f.amount), WordOf(f.takerTraits)];
    var ps, pieces := Parts(vs), Pieces(f);
    ContractArgsParts(f, vs, ps, order, words, signature, args);
    ContractArgsPieces(f, words, signature, args, next);
    TwoDynamics(ps, order, signature, words, args, 12 * 32, next);
    PiecesAround(pieces, WordOf(12 * 32), words, WordOf(next), signature, args);
    SameJoin(order, WordOf(12 * 32) + (Flatten(words) + WordOf(next)), signature + args);
  }

  lemma SameJoin(a: Bytes, b: Bytes, c: Bytes)
    ensures a + b + c == a + (b + c)
  {
  }

  lemma ContractArgsParts(f: FillCall, vs: seq<Value>, ps: seq<Part>, order: Bytes, words: seq<Word>, signature: Bytes, args: Bytes)
    requires Encodable(f) && f.functionName.FillContractOrderArgs? && vs == Arguments(f)
    requires ps == Parts(vs) && ps[0] == Part(false, order)
    requires words == [WordOf(f.amount), WordOf(f.takerTraits)]
    requires signature == Enc(Dynamic(BytesOfText(f.signature))) && args == Enc(Dynamic(BytesOfText(f.args)))
    ensures ps == [Part(false, order)] + ([Part(true, signature)] + (Words(words) + [Part(true, args)]))
  {
    assert ps[1] == Part(true, signature) && ps[4] == Part(true, args);
    assert ps[2] == Part(false, words[0]) && ps[3] == Part(false, words[1]);
  }

  lemma ContractArgsPieces(f: FillCall, words: seq<Word>, signature: Bytes, args: Bytes, next: nat)
    requires Encodable(f) && f.functionName.FillContractOrderArgs?
    requires words == [WordOf(f.amount), WordOf(f.takerTraits)] && next == 12 * 32 + |signature|
    requires signature == Enc(Dynamic(BytesOfText(f.signature))) && args == Enc(Dynamic(BytesOfText(f.args)))
    ensures Pieces(f) == [WordOf(12 * 32)] + words + [WordOf(next)] + [signature] + [args]
  {
    assert Pieces(f) == [WordOf(12 * 32), words[0], words[1], WordOf(next), signature, args];
    SixPieces(WordOf(12 * 32), words, WordOf(next), signature, args);
  }

  lemma SixPieces(position: Bytes, words: seq<Bytes>, next: Bytes, signature: Bytes, args: Bytes)
    requires |words| == 2
    ensures [position] + words + [next] + [signature] + [args] == [position, words[0], words[1], next, signature, args]
  {
  }

  lemma PiecesAround(pieces: seq<Bytes>, offset: Bytes, words: seq<Bytes>, next: Bytes, signature: Bytes, args: Bytes)
    requires pieces == [offset] + words + [next] + [signature] + [args]
    ensures Flatten(pieces) == offset + (Flatten(words) + next) + (signature + args)
  {
    FlattenNext([offset] + words + [next] + [signature], args);
    FlattenNext([offset] + words + [next], signature);
    FlattenNext([offset] + words, next);
    FlattenSplit([offset], words);
    FlattenOne(offset);
  }

  /** What the encoder writes is the ABI encoding of the arguments, and it exists exactly when all lengths fit. */
  lemma ArgumentsAre(f: FillCall)
    requires Encodable(f)
    ensures Enc(Tuple(Arguments(f))) == Flatten(OrderWords(f.order)) + Flatten(Pieces(f))
    ensures Fits(Tuple(Arguments(f))) == LengthsFit(f)
  {
    var vs, order := Arguments(f), Flatten(OrderWords(f.order));
    FlattenOrder(f.order);
    StaticTuple(OrderWords(f.order), vs[0]);
    EncIsJoin(vs);
    match f.functionName {
      case FillOrder => FillOrderIs(f, vs, order);
      case FillOrderArgs => FillOrderArgsIs(f, vs, order);
      case FillContractOrder => FillContractOrderIs(f, vs, order);
      case FillContractOrderArgs => FillContractOrderArgsIs(f, vs, order);
    }
    StringsDecide(f, vs);
  }

  lemma StringsDecide(f: FillCall, vs: seq<Value>)
    requires Encodable(f) && vs == Arguments(f) && Fits(vs[0])
    ensures (forall i | 0 <= i < |vs| :: Fits(vs[i]))
            <==> (&& (TakesArgs(f) ==> |BytesOfText(f.args)| < UINT256_LIMIT)
                  && (!SignedByKey(f) ==> |BytesOfText(f.signature)| < UINT256_LIMIT))
  {
    if TakesArgs(f) { assert Fits(vs[|vs| - 1]) == (|BytesOfText(f.args)| < UINT256_LIMIT); }
    if !SignedByKey(f) { assert Fits(vs[1]) == (|BytesOfText(f.signature)| < UINT256_LIMIT); }
  }

  // ---------------------------------------------------------------- the encoders

  /** `orderWords` */
  method OrderWordsCode(order: seq<int>) returns (r: Option<seq<Word>>)
    requires |order| == 8
    ensures r == if IsOrder(order) then Some(OrderWords(order)) else None
  {
    var w0 := UintWord(order[0]);
    var w1 := UintWord(order[1]);
    var w2 := UintWord(order[2]);
    var w3 := UintWord(order[3]);
    var w4 := UintWord(order[4]);
    var w5 := UintWord(order[5]);
    var w6 := UintWord(order[6]);
    var w7 := UintWord(order[7]);
    if w0.None? || w1.None? || w2.None? || w3.None? || w4.None? || w5.None? || w6.None? || w7.None? { return None; }
    var words := [w0.value, w1.value, w2.value, w3.value, w4.value, w5.value, w6.value, w7.value];
    assert words == OrderWords(order);
    return Some(words);
  }

  /** The branches for orders signed by a key. */
  method KeyPieces(f: FillCall, amount: Word, takerTraits: Word) returns (r: Option<seq<Bytes>>)
    requires IsOrder(f.order) && SignedByKey(f) && IsWord(f.amount) && IsWord(f.takerTraits)
    requires amount == WordOf(f.amount) && takerTraits == WordOf(f.takerTraits)
    ensures r == if Encodable(f) && LengthsFit(f) then Some(Pieces(f)) else None
  {
    var compact := CompactSignature(f.signature);
    if compact.None? { return None; }
    var (sr, vs) := compact.value;
    if f.functionName.FillOrder? {
      if f.args != HEX_PREFIX { return None; }
      return Some([sr, vs, amount, takerTraits]);
    }
    var args := BytesTail(f.args);
    if args.None? { return None; }
    var position := UintWord(13 * 32);
    return Some([sr, vs, amount, takerTraits, position.value, args.value]);
  }

  /** The branches for orders signed by a contract. */
  method ContractPieces(f: FillCall, amount: Word, takerTraits: Word) returns (r: Option<seq<Bytes>>)
    requires IsOrder(f.order) && !SignedByKey(f) && IsWord(f.amount) && IsWord(f.takerTraits)
    requires amount == WordOf(f.amount) && takerTraits == WordOf(f.takerTraits)
    ensures r == if Encodable(f) && LengthsFit(f) then Some(Pieces(f)) else None
  {
    var signature := BytesTail(f.signature);
    if signature.None? { return None; }
    if f.functionName.FillContractOrder? {
      if f.args != HEX_PREFIX { return None; }
      var position := UintWord(11 * 32);
      return Some([position.value, amount, takerTraits, signature.value]);
    }
    r := ContractArgsCode(f, amount, takerTraits, signature.value);
  }

  lemma ContractArgsAllowed(f: FillCall, signature: Bytes)
    requires IsOrder(f.order) && f.functionName.FillContractOrderArgs? && IsWord(f.amount) && IsWord(f.takerTraits)
    requires IsBytesText(f.signature) && |BytesOfText(f.signature)| < UINT256_LIMIT
    requires signature == Enc(Dynamic(BytesOfText(f.signature)))
    ensures Encodable(f) <==> IsBytesText(f.args)
    ensures Encodable(f) ==>
              (LengthsFit(f) <==> |BytesOfText(f.args)| < UINT256_LIMIT && 12 * 32 + |signature| < UINT256_LIMIT)
    ensures Encodable(f) ==>
              Pieces(f) == [WordOf(12 * 32), WordOf(f.amount), WordOf(f.takerTraits), WordOf(12 * 32 + |signature|),
                            signature, Enc(Dynamic(BytesOfText(f.args)))]
  {
  }

  method ContractArgsCode(f: FillCall, amount: Word, takerTraits: Word, signature: Bytes) returns (r: Option<seq<Bytes>>)
    requires IsOrder(f.order) && f.functionName.FillContractOrderArgs? && IsWord(f.amount) && IsWord(f.takerTraits)
    requires amount == WordOf(f.amount) && takerTraits == WordOf(f.takerTraits)
    requires IsBytesText(f.signature) && |BytesOfText(f.signature)| < UINT256_LIMIT
    requires signature == Enc(Dynamic(BytesOfText(f.signature)))
    ensures r == if Encodable(f) && LengthsFit(f) then Some(Pieces(f)) else None
  {
    ContractArgsAllowed(f, signature);
    var args := BytesTail(f.args);
    if args.None? { return None; }
    var position := UintWord(12 * 32);
    var next := UintWord(12 * 32 + |signature|);
    if next.None? { return None; }
    return Some([position.value, amount, takerTraits, next.value, signature, args.value]);
  }

  method FillPieces(f: FillCall) returns (r: Option<seq<Bytes>>)
    requires |f.order| == 8 && IsOrder(f.order)
    ensures r == if Encodable(f) && LengthsFit(f) then Some(Pieces(f)) else None
  {
    var amount := UintWord(f.amount);
    var takerTraits := UintWord(f.takerTraits);
    if amount.None? || takerTraits.None? { return None; }
    if f.functionName.FillOrder? || f.functionName.FillOrderArgs? {
      r := KeyPieces(f, amount.value, takerTraits.value);
    } else {
      r := ContractPieces(f, amount.value, takerTraits.value);
    }
  }

  /** `encodeFillCall`: the selector and the ABI encoding of the arguments of the function that is called. */
  method EncodeFillCall(selector: Bytes, f: FillCall) returns (r: Option<Text>)
    requires |f.order| == 8
    ensures r == if Encodable(f) && Fits(Tuple(Arguments(f)))
                 then Some(TextOfBytes(selector + Enc(Tuple(Arguments(f))))) else None
  {
    if Encodable(f) { ArgumentsAre(f); }
    var order := OrderWordsCode(f.order);
    if order.None? { return None; }
    var pieces := FillPieces(f);
    if pieces.None? { return None; }
    var bytes := ConcatCall(selector, order.value, pieces.value);
    var hex := BytesToHex(bytes);
    return Some(HEX_PREFIX + hex);
  }

  /** `concatBytes([selector(signature), ...words])` */
  method ConcatCall(selector: Bytes, order: seq<Bytes>, pieces: seq<Bytes>) returns (bytes: Bytes)
    ensures bytes == selector + (Flatten(order) + Flatten(pieces))
  {
    bytes := ConcatBytes([selector] + (order + pieces));
    FlattenSplit([selector], order + pieces);
    FlattenSplit(order, pieces);
    FlattenOne(selector);
  }

  lemma ArgumentsHaveType(f: FillCall)
    requires Encodable(f)
    ensures HasType(Tuple(Arguments(f)), TupleType(ArgumentTypes(f.functionName)))
  {
    assert HasType(Arguments(f)[0], ORDER_TYPE);
  }

  // ---------------------------------------------------------------- reading a fill call back

  datatype SignatureArgument = KeySignature(r: Word, vs: Word) | ContractSignature(signature: Text)

  /** What a fill call says to the contract. */
  datatype FillArguments = FillArguments(
    order: seq<int>, signature: SignatureArgument, amount: int, takerTraits: int, args: Text)

  function Said(f: FillCall): FillArguments
    requires Encodable(f)
  {
    FillArguments(f.order, if SignedByKey(f) then KeySignature(Compact(f).0, Compact(f).1) else ContractSignature(f.signature),
                  f.amount, f.takerTraits, f.args)
  }

  function Numbers(vs: seq<Value>): (ns: seq<int>) {
    seq(|vs|, i requires 0 <= i < |vs| => Number(vs[i]))
  }

  function Number(v: Value): int {
    if v.Static? then BigValue(v.word) else 0
  }

  /** The arguments that decoded values of the called function stand for. */
  function ReadFill(name: FillFunction, v: Value): Option<FillArguments> {
    if !v.Tuple? || |v.fields| < 4 || !v.fields[0].Tuple? then None
    else
      var vs := v.fields;
      var order := Numbers(vs[0].fields);
      match name
      case FillOrder =>
        if |vs| == 5 && vs[1].Static? && vs[2].Static?
        then Some(FillArguments(order, KeySignature(vs[1].word, vs[2].word), Number(vs[3]), Number(vs[4]), HEX_PREFIX))
        else None
      case FillOrderArgs =>
        if |vs| == 6 && vs[1].Static? && vs[2].Static? && vs[5].Dynamic?
        then Some(FillArguments(order, KeySignature(vs[1].word, vs[2].word), Number(vs[3]), Number(vs[4]), TextOfBytes(vs[5].data)))
        else None
      case FillContractOrder =>
        if |vs| == 4 && vs[1].Dynamic?
        then Some(FillArguments(order, ContractSignature(TextOfBytes(vs[1].data)), Number(vs[2]), Number(vs[3]), HEX_PREFIX))
        else None
      case FillContractOrderArgs =>
        if |vs| == 5 && vs[1].Dynamic? && vs[4].Dynamic?
        then Some(FillArguments(order, ContractSignature(TextOfBytes(vs[1].data)), Number(vs[2]), Number(vs[3]), TextOfBytes(vs[4].data)))
        else None
  }

  /** Reads calldata by the types of the called function alone. */
  function DecodeFillCall(name: FillFunction, selector: Bytes, text: Text): Option<FillArguments> {
    if !IsBytesText(text) || !(selector <= BytesOfText(text)) then None
    else
      var v := Dec(TupleType(ArgumentTypes(name)), BytesOfText(text), |selector|);
      if v.Some? then ReadFill(name, v.value) else None
  }

  lemma NumberIs(n: nat)
    requires IsWord(n)
    ensures Number(Static(WordOf(n))) == n
  {
    LimitIsPower();
    ValueOfBigEndian(n, 32);
  }

  lemma OrderIsRead(order: seq<int>)
    requires IsOrder(order)
    ensures Numbers(Statics(OrderWords(order))) == order
  {
    forall i | 0 <= i < 8 ensures Numbers(Statics(OrderWords(order)))[i] == order[i] { NumberIs(order[i]); }
  }

  lemma KeyArgumentsAreRead(f: FillCall, vs: seq<Value>)
    requires Encodable(f) && SignedByKey(f) && vs == Arguments(f)
    requires Numbers(vs[0].fields) == f.order && Number(vs[3]) == f.amount && Number(vs[4]) == f.takerTraits
    ensures ReadFill(f.functionName, Tuple(vs)) == Some(Said(f))
  {
    if TakesArgs(f) { TextRoundTrip(f.args); }
  }

  lemma ContractArgumentsAreRead(f: FillCall, vs: seq<Value>)
    requires Encodable(f) && !SignedByKey(f) && vs == Arguments(f)
    requires Numbers(vs[0].fields) == f.order && Number(vs[2]) == f.amount && Number(vs[3]) == f.takerTraits
    ensures ReadFill(f.functionName, Tuple(vs)) == Some(Said(f))
  {
    TextRoundTrip(f.signature);
    if TakesArgs(f) { TextRoundTrip(f.args); }
  }

  lemma ArgumentsAreRead(f: FillCall, vs: seq<Value>)
    requires Encodable(f) && vs == Arguments(f)
    ensures ReadFill(f.functionName, Tuple(vs)) == Some(Said(f))
  {
    OrderIsRead(f.order);
    NumberIs(f.amount);
    NumberIs(f.takerTraits);
    if SignedByKey(f) { KeyArgumentsAreRead(f, vs); } else { ContractArgumentsAreRead(f, vs); }
  }

  /** Reading the calldata by the types of the called function returns order, signature, amount, traits and args. */
  lemma FillCallRoundTrip(selector: Bytes, f: FillCall)
    requires Encodable(f) && Fits(Tuple(Arguments(f)))
    ensures DecodeFillCall(f.functionName, selector, TextOfBytes(selector + Enc(Tuple(Arguments(f))))) == Some(Said(f))
  {
    ArgumentsHaveType(f);
    TextBehind(selector, Enc(Tuple(Arguments(f))));
    ReadBack(selector, Tuple(Arguments(f)), TupleType(ArgumentTypes(f.functionName)));
    ArgumentsAreRead(f, Arguments(f));
  }

  lemma TextBehind(selector: Bytes, encoded: Bytes)
    ensures IsBytesText(TextOfBytes(selector + encoded)) && BytesOfText(TextOfBytes(selector + encoded)) == selector + encoded
    ensures selector <= selector + encoded
  {
    BytesRoundTrip(selector + encoded);
  }

  // ---------------------------------------------------------------- the permit transfer

  /** ((address token, uint256 amount), uint256 nonce, uint256 deadline), bytes signature, address to, uint256 amount */
  datatype Permit = Permit(
    token: Text, permittedAmount: int, nonce: int, deadline: int, signature: Text, receiver: Text, amount: int)

  predicate PermitEncodable(p: Permit) {
    && IsAddressText(p.token) && IsAddressText(p.receiver)
    && IsWord(p.permittedAmount) && IsWord(p.nonce) && IsWord(p.deadline) && IsWord(p.amount)
    && IsBytesText(p.signature) && p.signature != HEX_PREFIX
  }

  const PERMIT_TYPES := TupleType([
    TupleType([TupleType([WordType, WordType]), WordType, WordType]), BytesType, WordType, WordType])

  function PermitArguments(p: Permit): seq<Value>
    requires PermitEncodable(p)
  {
    [Tuple([Tuple(Statics([AddressBytes(p.token), WordOf(p.permittedAmount)])), Static(WordOf(p.nonce)), Static(WordOf(p.deadline))]),
     Dynamic(BytesOfText(p.signature)), Static(AddressBytes(p.receiver)), Static(WordOf(p.amount))]
  }

  /** The nested static tuple takes its four words in order. */
  lemma PermitTuple(token: Word, amount: Word, nonce: Word, deadline: Word, v: Value)
    requires v == Tuple([Tuple(Statics([token, amount])), Static(nonce), Static(deadline)])
    ensures !IsDynamic(v) && Fits(v) && Enc(v) == Flatten([token, amount, nonce, deadline])
  {
    var inner := Tuple(Statics([token, amount]));
    var vs := v.fields;
    StaticTuple([token, amount], inner);
    EncIsJoin(vs);
    assert Parts(vs) == [Part(false, Flatten([token, amount]))] + Words([nonce, deadline]);
    WordsOnly(Parts(vs), Flatten([token, amount]), [nonce, deadline]);
    FlattenSplit([token, amount], [nonce, deadline]);
    assert [token, amount] + [nonce, deadline] == [token, amount, nonce, deadline];
    assert !IsDynamic(vs[0]) && !IsDynamic(vs[1]) && !IsDynamic(vs[2]);
  }

  lemma PermitIs(p: Permit, vs: seq<Value>, tail: Bytes)
    requires PermitEncodable(p) && vs == PermitArguments(p) && tail == Enc(Dynamic(BytesOfText(p.signature)))
    ensures Enc(Tuple(vs))
            == Flatten([AddressBytes(p.token), WordOf(p.permittedAmount), WordOf(p.nonce), WordOf(p.deadline)])
               + (WordOf(224) + Flatten([AddressBytes(p.receiver), WordOf(p.amount)])) + tail
    ensures Fits(Tuple(vs)) == (|BytesOfText(p.signature)| < UINT256_LIMIT)
  {
    var front: seq<Word> := [AddressBytes(p.token), WordOf(p.permittedAmount), WordOf(p.nonce), WordOf(p.deadline)];
    var back: seq<Word> := [AddressBytes(p.receiver), WordOf(p.amount)];
    PermitTuple(front[0], front[1], front[2], front[3], vs[0]);
    EncIsJoin(vs);
    LastWords(Words(front), front, 0);
    HeadsEnd(Words(front), 0);
    assert Parts(vs) == [Part(false, Flatten(front))] + ([Part(true, tail)] + Words(back));
    DynamicFirst(Parts(vs), Flatten(front), tail, back, 224);
    assert Fits(vs[1]) == (|BytesOfText(p.signature)| < UINT256_LIMIT) && Fits(vs[2]) && Fits(vs[3]);
  }

  function PermitFront(p: Permit): seq<Word>
    requires PermitEncodable(p)
  {
    [AddressBytes(p.token), WordOf(p.permittedAmount), WordOf(p.nonce), WordOf(p.deadline)]
  }

  /** The head words, in two groups around the offset of the signature. */
  method PermitHeads(p: Permit) returns (r: Option<(seq<Word>, seq<Word>)>)
    requires IsBytesText(p.signature) && p.signature != HEX_PREFIX
    ensures r == if PermitEncodable(p)
                 then Some((PermitFront(p), [AddressBytes(p.receiver), WordOf(p.amount)])) else None
  {
    var h0 := AddressWord(p.token);
    var h1 := UintWord(p.permittedAmount);
    var h2 := UintWord(p.nonce);
    var h3 := UintWord(p.deadline);
    var h5 := AddressWord(p.receiver);
    var h6 := UintWord(p.amount);
    if h0.None? || h1.None? || h2.None? || h3.None? || h5.None? || h6.None? { return None; }
    return Some(([h0.value, h1.value, h2.value, h3.value], [h5.value, h6.value]));
  }

  /** `encodePermitTransferCall` */
  method EncodePermitTransferCall(selector: Bytes, p: Permit) returns (r: Option<Text>)
    ensures r == if PermitEncodable(p) && Fits(Tuple(PermitArguments(p)))
                 then Some(TextOfBytes(selector + Enc(Tuple(PermitArguments(p))))) else None
  {
    if p.signature == HEX_PREFIX || !IsBytesText(p.signature) { return None; }
    var tail := BytesTail(p.signature);
    var heads := PermitHeads(p);
    if heads.None? { return None; }
    PermitIs(p, PermitArguments(p), Enc(Dynamic(BytesOfText(p.signature))));
    if tail.None? { return None; }
    var (front, back) := heads.value;
    var bytes := ConcatPermit(selector, front, back, tail.value);
    var hex := BytesToHex(bytes);
    return Some(HEX_PREFIX + hex);
  }

  method ConcatPermit(selector: Bytes, front: seq<Bytes>, back: seq<Bytes>, tail: Bytes) returns (bytes: Bytes)
    ensures bytes == selector + (Flatten(front) + (WordOf(224) + Flatten(back)) + tail)
  {
    var position := UintWord(7 * 32);
    var pieces := [position.value] + back + [tail];
    PiecesAfter(pieces, position.value, back, tail);
    bytes := ConcatCall(selector, front, pieces);
    SameJoin(Flatten(front), WordOf(224) + Flatten(back), tail);
  }

  lemma PermitHasType(v: Value, p: Permit)
    requires PermitEncodable(p) && v == Tuple(PermitArguments(p))
    ensures HasType(v, PERMIT_TYPES)
  {
    PermitTupleHasType(v.fields[0]);
    assert HasType(v.fields[1], BytesType) && HasType(v.fields[2], WordType) && HasType(v.fields[3], WordType);
  }

  lemma PermitTupleHasType(v: Value)
    requires v.Tuple? && |v.fields| == 3 && v.fields[0].Tuple? && |v.fields[0].fields| == 2
    requires v.fields[0].fields[0].Static? && v.fields[0].fields[1].Static? && v.fields[1].Static? && v.fields[2].Static?
    ensures HasType(v, TupleType([TupleType([WordType, WordType]), WordType, WordType]))
  {
    assert HasType(v.fields[0], TupleType([WordType, WordType]));
  }

  predicate IsPermitValue(v: Value) {
    && v.Tuple? && |v.fields| == 4
    && v.fields[0].Tuple? && |v.fields[0].fields| == 3
    && v.fields[0].fields[0].Tuple? && |v.fields[0].fields[0].fields| == 2 && v.fields[0].fields[0].fields[0].Static?
    && v.fields[1].Dynamic? && v.fields[2].Static?
  }

  function ReadPermit(v: Value): Option<Permit> {
    if !IsPermitValue(v) then None
    else
      var outer := v.fields[0].fields;
      var inner := outer[0].fields;
      Some(Permit(TextOfBytes(inner[0].word[12..]), Number(inner[1]), Number(outer[1]), Number(outer[2]),
                  TextOfBytes(v.fields[1].data), TextOfBytes(v.fields[2].word[12..]), Number(v.fields[3])))
  }

  function DecodePermit(selector: Bytes, text: Text): Option<Permit> {
    if !IsBytesText(text) || !(selector <= BytesOfText(text)) then None
    else
      var v := Dec(PERMIT_TYPES, BytesOfText(text), |selector|);
      if v.Some? then ReadPermit(v.value) else None
  }

  lemma AddressIsRead(a: Text)
    requires IsAddressText(a)
    ensures TextOfBytes(AddressBytes(a)[12..]) == a
  {
    assert AddressBytes(a)[12..] == BytesOfText(a);
    TextRoundTrip(a);
  }

  lemma PermitFieldsAreRead(p: Permit, v: Value)
    requires PermitEncodable(p) && v == Tuple(PermitArguments(p))
    ensures IsPermitValue(v)
    ensures ReadPermit(v)
            == Some(Permit(TextOfBytes(AddressBytes(p.token)[12..]), Number(Static(WordOf(p.permittedAmount))),
                           Number(Static(WordOf(p.nonce))), Number(Static(WordOf(p.deadline))),
                           TextOfBytes(BytesOfText(p.signature)), TextOfBytes(AddressBytes(p.receiver)[12..]),
                           Number(Static(WordOf(p.amount)))))
  {
  }

  lemma PermitIsRead(p: Permit)
    requires PermitEncodable(p)
    ensures ReadPermit(Tuple(PermitArguments(p))) == Some(p)
  {
    PermitFieldsAreRead(p, Tuple(PermitArguments(p)));
    NumberIs(p.permittedAmount);
    NumberIs(p.nonce);
    NumberIs(p.deadline);
    NumberIs(p.amount);
    AddressIsRead(p.token);
    AddressIsRead(p.receiver);
    TextRoundTrip(p.signature);
  }

  /** Reading the calldata by its types returns every field of the permit transfer. */
  lemma PermitRoundTrip(selector: Bytes, p: Permit)
    requires PermitEncodable(p) && Fits(Tuple(PermitArguments(p)))
    ensures DecodePermit(selector, TextOfBytes(selector + Enc(Tuple(PermitArguments(p))))) == Some(p)
  {
    var v := Tuple(PermitArguments(p));
    PermitHasType(v, p);
    TextBehind(selector, Enc(v));
    ReadBack(selector, v, PERMIT_TYPES);
    PermitIsRead(p);
  }

  lemma ReadBack(selector: Bytes, v: Value, t: Type)
    requires HasType(v, t) && Fits(v)
    ensures Dec(t, selector + Enc(v), |selector|) == Some(v)
  {
    BehindSelector(selector, Enc(v));
    DecodesWhatWasEncoded(v, t, selector + Enc(v), |selector|);
  }

  lemma BehindSelector(selector: Bytes, piece: Bytes)
    ensures IsAt(selector + piece, |selector|, piece)
  {
    assert (selector + piece)[|selector|..] == piece;
  }
}
