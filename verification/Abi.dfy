/**
 The part of the Solidity contract ABI (section "Formal Specification of the Encoding") that the repository's
 hand-written encoders use: words, byte strings, tuples and arrays, with a decoder that knows only the types.
 */
module Abi {
  import opened Common
  import opened ByteStrings

  type Word = w: Bytes | |w| == 32 witness seq(32, _ => 0)

  datatype Value =
    | Static(word: Word)
    | Dynamic(data: Bytes)
    | Tuple(fields: seq<Value>)
    | Array(items: seq<Value>)

  datatype Type = WordType | BytesType | TupleType(types: seq<Type>) | ArrayType(element: Type)

  /** The word of a number below 2^256. */
  function WordOf(n: nat): Word {
    BigEndian(n, 32)
  }

  // ---------------------------------------------------------------- encoding

  predicate IsDynamic(v: Value)
    decreases v
  {
    match v
    case Static(_) => false
    case Tuple(fields) => exists i | 0 <= i < |fields| :: IsDynamic(fields[i])
    case _ => true
  }

  function PaddingFor(n: nat): (k: nat)
    ensures (n + k) % 32 == 0 && k < 32
  {
    (32 - n % 32) % 32
  }

  /** One component of a tuple or array, encoded. */
  datatype Part = Part(dynamic: bool, bytes: Bytes)

  function HeadSize(ps: seq<Part>): nat {
    if ps == [] then 0 else (if ps[0].dynamic then 32 else |ps[0].bytes|) + HeadSize(ps[1..])
  }

  /** The heads, where the tail of the first dynamic component starts at `offset`. */
  function Heads(ps: seq<Part>, offset: nat): Bytes {
    if ps == [] then []
    else if ps[0].dynamic then WordOf(offset) + Heads(ps[1..], offset + |ps[0].bytes|)
    else ps[0].bytes + Heads(ps[1..], offset)
  }

  function Tails(ps: seq<Part>): Bytes {
    if ps == [] then []
    else if ps[0].dynamic then ps[0].bytes + Tails(ps[1..])
    else Tails(ps[1..])
  }

  /** head(X1) ... head(Xk) tail(X1) ... tail(Xk) */
  function Join(ps: seq<Part>): Bytes {
    Heads(ps, HeadSize(ps)) + Tails(ps)
  }

  /** Every offset among the heads is below 2^256. */
  predicate OffsetsFit(ps: seq<Part>, offset: nat) {
    ps == [] || (
      && (ps[0].dynamic ==> offset < UINT256_LIMIT)
      && OffsetsFit(ps[1..], if ps[0].dynamic then offset + |ps[0].bytes| else offset))
  }

  /** The bytes, padded to whole words. */
  function Padded(data: Bytes): Bytes {
    data + Zeros(PaddingFor(|data|))
  }

  function Enc(v: Value): (b: Bytes)
    decreases v
  {
    match v
    case Static(word) => word
    case Dynamic(data) => WordOf(|data|) + Padded(data)
    case Tuple(fields) => Join(seq(|fields|, i requires 0 <= i < |fields| => Part(IsDynamic(fields[i]), Enc(fields[i]))))
    case Array(items) =>
      WordOf(|items|) + Join(seq(|items|, i requires 0 <= i < |items| => Part(IsDynamic(items[i]), Enc(items[i]))))
  }

  function Parts(vs: seq<Value>): (ps: seq<Part>) {
    seq(|vs|, i requires 0 <= i < |vs| => Part(IsDynamic(vs[i]), Enc(vs[i])))
  }

  lemma EncIsJoin(vs: seq<Value>)
    ensures Enc(Tuple(vs)) == Join(Parts(vs)) && Enc(Array(vs)) == WordOf(|vs|) + Join(Parts(vs))
  {
    assert Parts(vs) == seq(|vs|, i requires 0 <= i < |vs| => Part(IsDynamic(vs[i]), Enc(vs[i])));
  }

  /** Every offset, length and count that the encoding writes is below 2^256. */
  predicate Fits(v: Value)
    decreases v
  {
    match v
    case Static(_) => true
    case Dynamic(data) => |data| < UINT256_LIMIT
    case Tuple(fields) =>
      OffsetsFit(Parts(fields), HeadSize(Parts(fields))) && forall i | 0 <= i < |fields| :: Fits(fields[i])
    case Array(items) =>
      && |items| < UINT256_LIMIT && OffsetsFit(Parts(items), HeadSize(Parts(items)))
      && forall i | 0 <= i < |items| :: Fits(items[i])
  }

  // ---------------------------------------------------------------- decoding

  predicate IsDynamicType(t: Type)
    decreases t
  {
    match t
    case WordType => false
    case TupleType(types) => exists i | 0 <= i < |types| :: IsDynamicType(types[i])
    case _ => true
  }

  /** The bytes a value of the type takes among the heads. */
  function HeadSizeOf(t: Type): nat
    decreases t, 1
  {
    if IsDynamicType(t) then 32
    else
      match t
      case TupleType(types) => SumOfHeads(types)
      case _ => 32
  }

  function SumOfHeads(types: seq<Type>): nat
    decreases types, 0
  {
    if types == [] then 0 else HeadSizeOf(types[0]) + SumOfHeads(types[1..])
  }

  function ReadWord(b: Bytes, at: nat): Option<nat> {
    if at + 32 <= |b| then Some(BigValue(b[at..at + 32])) else None
  }

  /** The value of type `t` encoded at `base`. */
  function Dec(t: Type, b: Bytes, base: nat): Option<Value>
    decreases t, 2
  {
    match t
    case WordType => if base + 32 <= |b| then Some(Static(b[base..base + 32])) else None
    case BytesType =>
      var n := ReadWord(b, base);
      if n.Some? && base + 32 + n.value <= |b| then Some(Dynamic(b[base + 32..base + 32 + n.value])) else None
    case TupleType(types) =>
      var fields := DecFields(types, b, base, base);
      if fields.Some? then Some(Tuple(fields.value)) else None
    case ArrayType(element) =>
      var n := ReadWord(b, base);
      if n.None? then None else
        var items := DecItems(element, n.value, b, base + 32, base + 32);
        if items.Some? then Some(Array(items.value)) else None
  }

  /** The field of type `t` whose head is at `at`; offsets count from `base`. */
  function DecField(t: Type, b: Bytes, base: nat, at: nat): Option<Value>
    decreases t, 3
  {
    if !IsDynamicType(t) then Dec(t, b, at)
    else
      var offset := ReadWord(b, at);
      if offset.None? then None else Dec(t, b, base + offset.value)
  }

  function DecFields(types: seq<Type>, b: Bytes, base: nat, at: nat): Option<seq<Value>>
    decreases types, 1
  {
    if types == [] then Some([])
    else
      var first := DecField(types[0], b, base, at);
      var rest := DecFields(types[1..], b, base, at + HeadSizeOf(types[0]));
      if first.Some? && rest.Some? then Some([first.value] + rest.value) else None
  }

  function DecItems(t: Type, n: nat, b: Bytes, base: nat, at: nat): Option<seq<Value>>
    decreases t, 4, n
  {
    if n == 0 then Some([])
    else
      var first := DecField(t, b, base, at);
      var rest := DecItems(t, n - 1, b, base, at + HeadSizeOf(t));
      if first.Some? && rest.Some? then Some([first.value] + rest.value) else None
  }

  // ---------------------------------------------------------------- the decoder inverts the encoder

  predicate HasType(v: Value, t: Type)
    decreases v
  {
    match (v, t)
    case (Static(_), WordType) => true
    case (Dynamic(_), BytesType) => true
    case (Tuple(fields), TupleType(types)) =>
      |fields| == |types| && forall i | 0 <= i < |fields| :: HasType(fields[i], types[i])
    case (Array(items), ArrayType(element)) => forall i | 0 <= i < |items| :: HasType(items[i], element)
    case _ => false
  }

  /** `piece` stands in `b` at `at`. */
  predicate IsAt(b: Bytes, at: nat, piece: Bytes) {
    at + |piece| <= |b| && b[at..at + |piece|] == piece
  }

  lemma SplitAt(b: Bytes, at: nat, first: Bytes, second: Bytes)
    requires IsAt(b, at, first + second)
    ensures IsAt(b, at, first) && IsAt(b, at + |first|, second)
  {
    var whole := b[at..at + |first + second|];
    assert whole[..|first|] == first && whole[|first|..] == second;
    assert b[at..at + |first|] == whole[..|first|];
    assert b[at + |first|..at + |first| + |second|] == whole[|first|..];
  }

  lemma ReadWordAt(b: Bytes, at: nat, n: nat)
    requires IsAt(b, at, WordOf(n)) && n < UINT256_LIMIT
    ensures ReadWord(b, at) == Some(n)
  {
    LimitIsPower();
    ValueOfBigEndian(n, 32);
  }

  lemma {:induction false} TypeDecidesDynamic(v: Value, t: Type)
    requires HasType(v, t)
    ensures IsDynamic(v) == IsDynamicType(t)
    decreases v
  {
    if v.Tuple? {
      forall i | 0 <= i < |v.fields| ensures IsDynamic(v.fields[i]) == IsDynamicType(t.types[i]) {
        TypeDecidesDynamic(v.fields[i], t.types[i]);
      }
    }
  }

  /** What the head of a value takes depends on its type alone. */
  lemma {:induction false} HeadSizeIs(v: Value, t: Type)
    requires HasType(v, t)
    ensures !IsDynamic(v) ==> |Enc(v)| == HeadSizeOf(t)
    decreases v
  {
    TypeDecidesDynamic(v, t);
    if v.Tuple? && !IsDynamic(v) {
      EncIsJoin(v.fields);
      forall i | 0 <= i < |v.fields| ensures |Enc(v.fields[i])| == HeadSizeOf(t.types[i]) {
        HeadSizeIs(v.fields[i], t.types[i]);
      }
      StaticParts(Parts(v.fields), t.types, HeadSize(Parts(v.fields)));
    }
  }

  lemma {:induction false} StaticParts(ps: seq<Part>, types: seq<Type>, offset: nat)
    requires |ps| == |types| && forall i | 0 <= i < |ps| :: !ps[i].dynamic && |ps[i].bytes| == HeadSizeOf(types[i])
    ensures Tails(ps) == [] && |Heads(ps, offset)| == SumOfHeads(types)
  {
    if ps != [] { StaticParts(ps[1..], types[1..], offset); }
  }

  /** Wherever an encoding stands, the decoder reads the value back; what follows it does not matter. */
  lemma {:induction false} DecodesWhatWasEncoded(v: Value, t: Type, b: Bytes, base: nat)
    requires HasType(v, t) && Fits(v) && IsAt(b, base, Enc(v))
    ensures Dec(t, b, base) == Some(v)
    decreases v, 2
  {
    match v {
      case Static(word) =>
      case Dynamic(data) =>
        SplitAt(b, base, WordOf(|data|), Padded(data));
        SplitAt(b, base + 32, data, Zeros(PaddingFor(|data|)));
        ReadWordAt(b, base, |data|);
      case Tuple(fields) =>
        EncIsJoin(fields);
        SplitJoin(Parts(fields), b, base);
        DecodesFields(fields, t.types, b, base, base, HeadSize(Parts(fields)));
      case Array(items) =>
        EncIsJoin(items);
        SplitAt(b, base, WordOf(|items|), Join(Parts(items)));
        ReadWordAt(b, base, |items|);
        SplitJoin(Parts(items), b, base + 32);
        DecodesItems(items, t.element, b, base + 32, base + 32, HeadSize(Parts(items)));
    }
  }

  lemma SplitJoin(ps: seq<Part>, b: Bytes, base: nat)
    requires IsAt(b, base, Join(ps)) && OffsetsFit(ps, HeadSize(ps))
    ensures Encoded(ps, b, base, base, HeadSize(ps))
  {
    HeadsEnd(ps, HeadSize(ps));
    SplitAt(b, base, Heads(ps, HeadSize(ps)), Tails(ps));
  }

  lemma {:induction false} HeadsEnd(ps: seq<Part>, offset: nat)
    ensures |Heads(ps, offset)| == HeadSize(ps)
  {
    if ps != [] {
      if ps[0].dynamic {
        HeadsEnd(ps[1..], offset + |ps[0].bytes|);
      } else {
        HeadsEnd(ps[1..], offset);
      }
    }
  }

  lemma {:induction false} DecodesField(v: Value, t: Type, b: Bytes, base: nat, at: nat, offset: nat)
    requires HasType(v, t) && Fits(v)
    requires PartAt(Part(IsDynamic(v), Enc(v)), b, base, at, offset)
    ensures DecField(t, b, base, at) == Some(v)
    ensures HeadSizeOf(t) == if IsDynamic(v) then 32 else |Enc(v)|
    decreases v, 3
  {
    TypeDecidesDynamic(v, t);
    HeadSizeIs(v, t);
    if IsDynamic(v) {
      ReadWordAt(b, at, offset);
      DecodesWhatWasEncoded(v, t, b, base + offset);
    } else {
      DecodesWhatWasEncoded(v, t, b, at);
    }
  }

  /** Splits heads and tails after a dynamic component. */
  lemma FirstDynamic(ps: seq<Part>, b: Bytes, base: nat, at: nat, offset: nat)
    requires ps != [] && ps[0].dynamic && IsAt(b, at, Heads(ps, offset)) && IsAt(b, base + offset, Tails(ps))
    ensures IsAt(b, at, WordOf(offset)) && IsAt(b, base + offset, ps[0].bytes)
    ensures IsAt(b, at + 32, Heads(ps[1..], offset + |ps[0].bytes|))
    ensures IsAt(b, base + offset + |ps[0].bytes|, Tails(ps[1..]))
  {
    var word, rest := WordOf(offset), Heads(ps[1..], offset + |ps[0].bytes|);
    assert Heads(ps, offset) == word + rest;
    SplitAt(b, at, word, rest);
    SplitAt(b, base + offset, ps[0].bytes, Tails(ps[1..]));
  }

  lemma FirstStatic(ps: seq<Part>, b: Bytes, base: nat, at: nat, offset: nat)
    requires ps != [] && !ps[0].dynamic && IsAt(b, at, Heads(ps, offset)) && IsAt(b, base + offset, Tails(ps))
    ensures IsAt(b, at, ps[0].bytes)
    ensures IsAt(b, at + |ps[0].bytes|, Heads(ps[1..], offset)) && IsAt(b, base + offset, Tails(ps[1..]))
  {
    SplitAt(b, at, ps[0].bytes, Heads(ps[1..], offset));
  }

  function NextOffset(p: Part, offset: nat): nat {
    if p.dynamic then offset + |p.bytes| else offset
  }

  function NextAt(p: Part, at: nat): nat {
    at + if p.dynamic then 32 else |p.bytes|
  }

  /** `ps` is encoded with its heads from `at` and its tails from `base + offset`. */
  predicate Encoded(ps: seq<Part>, b: Bytes, base: nat, at: nat, offset: nat) {
    OffsetsFit(ps, offset) && IsAt(b, at, Heads(ps, offset)) && IsAt(b, base + offset, Tails(ps))
  }

  /** One component stands at `at`, itself or by its offset. */
  predicate PartAt(p: Part, b: Bytes, base: nat, at: nat, offset: nat) {
    if p.dynamic then offset < UINT256_LIMIT && IsAt(b, at, WordOf(offset)) && IsAt(b, base + offset, p.bytes)
    else IsAt(b, at, p.bytes)
  }

  lemma FirstPart(ps: seq<Part>, b: Bytes, base: nat, at: nat, offset: nat)
    requires ps != [] && Encoded(ps, b, base, at, offset)
    ensures PartAt(ps[0], b, base, at, offset)
    ensures Encoded(ps[1..], b, base, NextAt(ps[0], at), NextOffset(ps[0], offset))
  {
    if ps[0].dynamic {
      FirstDynamic(ps, b, base, at, offset);
    } else {
      FirstStatic(ps, b, base, at, offset);
    }
  }

  lemma FieldsStep(types: seq<Type>, b: Bytes, base: nat, at: nat, v: Value, rest: seq<Value>)
    requires types != [] && DecField(types[0], b, base, at) == Some(v)
    requires DecFields(types[1..], b, base, at + HeadSizeOf(types[0])) == Some(rest)
    ensures DecFields(types, b, base, at) == Some([v] + rest)
  {
  }

  lemma ItemsStep(t: Type, n: nat, b: Bytes, base: nat, at: nat, v: Value, rest: seq<Value>)
    requires n > 0 && DecField(t, b, base, at) == Some(v)
    requires DecItems(t, n - 1, b, base, at + HeadSizeOf(t)) == Some(rest)
    ensures DecItems(t, n, b, base, at) == Some([v] + rest)
  {
  }

  /** The first of the encoded values decodes, and the others stand behind it. */
  lemma FirstDecodes(vs: seq<Value>, v: Value, rest: seq<Value>, t: Type, b: Bytes, base: nat, at: nat, offset: nat)
    returns (nextAt: nat, nextOffset: nat)
    requires vs == [v] + rest && HasType(v, t) && Fits(v) && Encoded(Parts(vs), b, base, at, offset)
    ensures DecField(t, b, base, at) == Some(v) && nextAt == at + HeadSizeOf(t)
    ensures Encoded(Parts(rest), b, base, nextAt, nextOffset)
    decreases v, 4
  {
    var ps := Parts(vs);
    assert ps[1..] == Parts(rest) && ps[0] == Part(IsDynamic(v), Enc(v));
    FirstPart(ps, b, base, at, offset);
    DecodesField(v, t, b, base, at, offset);
    nextAt, nextOffset := NextAt(ps[0], at), NextOffset(ps[0], offset);
  }

  lemma {:induction false} DecodesFields(vs: seq<Value>, types: seq<Type>, b: Bytes, base: nat, at: nat, offset: nat)
    requires |vs| == |types| && forall i | 0 <= i < |vs| :: HasType(vs[i], types[i]) && Fits(vs[i])
    requires Encoded(Parts(vs), b, base, at, offset)
    ensures DecFields(types, b, base, at) == Some(vs)
    decreases vs, 5
  {
    if vs != [] {
      var rest, restTypes := vs[1..], types[1..];
      assert vs == [vs[0]] + rest;
      var nextAt, nextOffset := FirstDecodes(vs, vs[0], rest, types[0], b, base, at, offset);
      forall i | 0 <= i < |rest| ensures HasType(rest[i], restTypes[i]) && Fits(rest[i]) {
        assert rest[i] == vs[i + 1] && restTypes[i] == types[i + 1];
      }
      DecodesFields(rest, restTypes, b, base, nextAt, nextOffset);
      FieldsStep(types, b, base, at, vs[0], rest);
    }
  }

  lemma {:induction false} DecodesItems(vs: seq<Value>, t: Type, b: Bytes, base: nat, at: nat, offset: nat)
    requires forall i | 0 <= i < |vs| :: HasType(vs[i], t) && Fits(vs[i])
    requires Encoded(Parts(vs), b, base, at, offset)
    ensures DecItems(t, |vs|, b, base, at) == Some(vs)
    decreases vs, 5
  {
    if vs != [] {
      var rest := vs[1..];
      assert vs == [vs[0]] + rest;
      var nextAt, nextOffset := FirstDecodes(vs, vs[0], rest, t, b, base, at, offset);
      DecodesItems(rest, t, b, base, nextAt, nextOffset);
      ItemsStep(t, |vs|, b, base, at, vs[0], rest);
    }
  }

  /** Two values of one type with the same encoding are the same value. */
  lemma EncodingIsInjective(v: Value, w: Value, t: Type)
    requires HasType(v, t) && HasType(w, t) && Fits(v) && Fits(w) && Enc(v) == Enc(w)
    ensures v == w
  {
    DecodesWhatWasEncoded(v, t, Enc(v), 0);
    DecodesWhatWasEncoded(w, t, Enc(w), 0);
  }

  // ---------------------------------------------------------------- offsets

  /** Encodings fill whole words, so every offset is a multiple of 32. */
  lemma {:induction false} EncodingFillsWords(v: Value)
    ensures |Enc(v)| % 32 == 0
    decreases v
  {
    match v {
      case Static(_) =>
      case Dynamic(data) => WholeWords(WordOf(|data|), Padded(data));
      case Tuple(fields) => FieldsFillWords(v, fields);
      case Array(items) =>
        FieldsFillWords(v, items);
        WholeWords(WordOf(|items|), Join(Parts(items)));
    }
  }

  lemma {:induction false} FieldsFillWords(v: Value, vs: seq<Value>)
    requires v == Tuple(vs) || v == Array(vs)
    ensures Enc(Tuple(vs)) == Join(Parts(vs)) && Enc(Array(vs)) == WordOf(|vs|) + Join(Parts(vs))
    ensures |Join(Parts(vs))| % 32 == 0
    decreases v, 0
  {
    EncIsJoin(vs);
    forall i | 0 <= i < |vs| ensures |Parts(vs)[i].bytes| % 32 == 0 {
      EncodingFillsWords(vs[i]);
    }
    PartsFillWords(Parts(vs), HeadSize(Parts(vs)));
    WholeWords(Heads(Parts(vs), HeadSize(Parts(vs))), Tails(Parts(vs)));
  }

  lemma {:induction false} PartsFillWords(ps: seq<Part>, offset: nat)
    requires forall i | 0 <= i < |ps| :: |ps[i].bytes| % 32 == 0
    ensures |Heads(ps, offset)| % 32 == 0 && |Tails(ps)| % 32 == 0
  {
    if ps != [] {
      if ps[0].dynamic {
        PartsFillWords(ps[1..], offset + |ps[0].bytes|);
        WholeWords(WordOf(offset), Heads(ps[1..], offset + |ps[0].bytes|));
        WholeWords(ps[0].bytes, Tails(ps[1..]));
      } else {
        PartsFillWords(ps[1..], offset);
        WholeWords(ps[0].bytes, Heads(ps[1..], offset));
      }
    }
  }

  lemma WholeWords(a: Bytes, b: Bytes)
    requires |a| % 32 == 0 && |b| % 32 == 0
    ensures |a + b| % 32 == 0
  {
  }
}
