/**
 The two independently written canonical JSON printers: `canonicalizeJson` of the operations kernel
 (packages/operations/src/kernel.ts) and `canonicalJson` of the gateway store and of the node evidence
 (packages/gateway/src/submission-store.ts, packages/operations-node/src/evidence.ts).
 A finite number is represented by the text `JSON.stringify` gives it.
 */
module CanonicalJson {
  import opened Common

  datatype Entry = Entry(key: Text, value: Json)

  /** A JSON value. The entries of an object are in insertion order. */
  datatype Json =
    | Null
    | Bool(b: bool)
    | Num(text: Text)
    | Str(s: Text)
    | Arr(items: seq<Json>)
    | Obj(entries: seq<Entry>)

  const QUOTE: Unit := 0x22
  const BACKSLASH: Unit := 0x5c
  const COMMA: Unit := 0x2c
  const COLON: Unit := 0x3a
  const NULL_TEXT: Text := [0x6e, 0x75, 0x6c, 0x6c]
  const TRUE_TEXT: Text := [0x74, 0x72, 0x75, 0x65]
  const FALSE_TEXT: Text := [0x66, 0x61, 0x6c, 0x73, 0x65]

  function Keys(entries: seq<Entry>): (keys: seq<Text>) {
    seq(|entries|, i requires 0 <= i < |entries| => entries[i].key)
  }

  // ---------------------------------------------------------------- which values are JSON

  predicate IsHigh(u: Unit) {
    0xd800 <= u <= 0xdbff
  }

  predicate IsLow(u: Unit) {
    0xdc00 <= u <= 0xdfff
  }

  /** Every surrogate is half of a pair. */
  predicate IsScalarText(s: Text) {
    if s == [] then true
    else if IsHigh(s[0]) then |s| > 1 && IsLow(s[1]) && IsScalarText(s[2..])
    else !IsLow(s[0]) && IsScalarText(s[1..])
  }

  /** The characters of which `JSON.stringify` makes a finite number. */
  predicate IsNumberUnit(u: Unit) {
    IsDigit(u) || u == 0x2b || u == 0x2d || u == 0x2e || u == 0x45 || u == 0x65
  }

  predicate IsNumberText(t: Text) {
    |t| > 0 && forall i | 0 <= i < |t| :: IsNumberUnit(t[i])
  }

  predicate DistinctKeys(entries: seq<Entry>) {
    forall i, j | 0 <= i < j < |entries| :: entries[i].key != entries[j].key
  }

  /** The values a JavaScript object graph without cycles can hold: object keys are unique, numbers are finite. */
  predicate IsPlain(v: Json)
    decreases v
  {
    match v
    case Num(text) => IsNumberText(text)
    case Arr(items) => forall i | 0 <= i < |items| :: IsPlain(items[i])
    case Obj(entries) => DistinctKeys(entries) && forall i | 0 <= i < |entries| :: IsPlain(entries[i].value)
    case _ => true
  }

  /** Every string and every key in the value is made of whole Unicode scalars. */
  predicate IsScalarJson(v: Json)
    decreases v
  {
    match v
    case Str(s) => IsScalarText(s)
    case Arr(items) => forall i | 0 <= i < |items| :: IsScalarJson(items[i])
    case Obj(entries) =>
      forall i | 0 <= i < |entries| :: IsScalarText(entries[i].key) && IsScalarJson(entries[i].value)
    case _ => true
  }

  // ---------------------------------------------------------------- key order

  /** JavaScript's default string order: by UTF-16 code unit. */
  predicate Less(a: Text, b: Text) {
    |b| > 0 && (|a| == 0 || a[0] < b[0] || (a[0] == b[0] && Less(a[1..], b[1..])))
  }

  /** Insert index `i` behind every index in `order` whose key is not greater. */
  function InsertIndex(keys: seq<Text>, i: nat, order: seq<nat>): (r: seq<nat>)
    requires i < |keys| && forall k | 0 <= k < |order| :: order[k] < |keys|
    ensures |r| == |order| + 1
    ensures forall x | x in r :: x == i || x in order
    ensures i in r && forall x | x in order :: x in r
    ensures forall k | 0 <= k < |r| :: r[k] < |keys|
  {
    if order == [] then [i]
    else if Less(keys[i], keys[order[0]]) then [i] + order
    else [order[0]] + InsertIndex(keys, i, order[1..])
  }

  /** The indices of the first `n` keys in key order. */
  function Order(keys: seq<Text>, n: nat): (r: seq<nat>)
    requires n <= |keys|
    ensures |r| == n
    ensures forall k | 0 <= k < |r| :: r[k] < |keys|
  {
    if n == 0 then [] else InsertIndex(keys, n - 1, Order(keys, n - 1))
  }

  function Pick<A>(s: seq<A>, order: seq<nat>): seq<A>
    requires forall k | 0 <= k < |order| :: order[k] < |s|
  {
    seq(|order|, k requires 0 <= k < |order| => s[order[k]])
  }

  // ---------------------------------------------------------------- strings

  function HexUnit(n: int): Unit
    requires 0 <= n < 16
  {
    if n < 10 then 0x30 + n else 0x57 + n
  }

  /** `\uXXXX` with four lowercase digits. */
  function UnicodeEscape(u: Unit): Text {
    [BACKSLASH, 0x75, HexUnit(u / 0x1000), HexUnit(u / 0x100 % 0x10), HexUnit(u / 0x10 % 0x10), HexUnit(u % 0x10)]
  }

  /** The short escapes, the control escapes, and everything else as itself. */
  function EscapeUnit(u: Unit): Text {
    if u == 0x08 then [BACKSLASH, 0x62]
    else if u == 0x09 then [BACKSLASH, 0x74]
    else if u == 0x0a then [BACKSLASH, 0x6e]
    else if u == 0x0c then [BACKSLASH, 0x66]
    else if u == 0x0d then [BACKSLASH, 0x72]
    else if u == QUOTE then [BACKSLASH, QUOTE]
    else if u == BACKSLASH then [BACKSLASH, BACKSLASH]
    else if u <= 0x1f then UnicodeEscape(u)
    else [u]
  }

  function EscapeAll(s: Text): Text {
    if s == [] then [] else EscapeUnit(s[0]) + EscapeAll(s[1..])
  }

  /** `assertUnicodeScalarString`, whose loop skips the second half of each pair. */
  method CheckUnicodeScalarString(value: Text) returns (ok: bool)
    ensures ok == IsScalarText(value)
  {
    var index := 0;
    while index < |value|
      invariant 0 <= index <= |value|
      invariant IsScalarText(value) == IsScalarText(value[index..])
    {
      var code := value[index];
      if IsHigh(code) {
        if index + 1 >= |value| || !IsLow(value[index + 1]) {
          return false;
        }
        assert value[index..][2..] == value[index + 2..];
        index := index + 1;
      } else if IsLow(code) {
        return false;
      } else {
        assert value[index..][1..] == value[index + 1..];
      }
      index := index + 1;
    }
    return true;
  }

  lemma ConcatAssociative(a: Text, b: Text, c: Text)
    ensures (a + b) + c == a + (b + c)
  {
  }

  lemma EscapeFirst(s: Text, first: Unit, rest: Text, escaped: Text)
    requires s == [first] + rest && escaped == EscapeAll(rest)
    ensures EscapeAll(s) == EscapeUnit(first) + escaped
  {
    assert s[1..] == rest;
  }

  lemma {:induction false} EscapeAppend(a: Text, b: Text)
    ensures EscapeAll(a + b) == EscapeAll(a) + EscapeAll(b)
  {
    if a == [] {
      assert a + b == b;
    } else {
      var rest, x, y := a[1..], EscapeAll(a[1..]), EscapeAll(b);
      EscapeAppend(rest, b);
      assert a + b == [a[0]] + (rest + b) && a == [a[0]] + rest;
      EscapeFirst(a + b, a[0], rest + b, x + y);
      EscapeFirst(a, a[0], rest, x);
      ConcatAssociative(EscapeUnit(a[0]), x, y);
    }
  }

  /** Appending one unit to the text appends its escape to the output. */
  lemma EscapeNext(value: Text, index: nat)
    requires index < |value|
    ensures EscapeAll(value[..index + 1]) == EscapeAll(value[..index]) + EscapeUnit(value[index])
  {
    EscapeAppend(value[..index], [value[index]]);
    assert value[..index + 1] == value[..index] + [value[index]];
    assert EscapeAll([value[index]]) == EscapeUnit(value[index]) + EscapeAll([value[index]][1..]);
    assert EscapeUnit(value[index]) + [] == EscapeUnit(value[index]);
  }

  /** A pair of surrogates is copied whole; that is what escaping its units one by one does. */
  lemma CopyPair(value: Text, index: nat)
    requires index + 1 < |value| && IsHigh(value[index]) && IsLow(value[index + 1])
    ensures EscapeAll(value[..index + 2]) == EscapeAll(value[..index]) + value[index..index + 2]
    ensures value[index..][2..] == value[index + 2..]
  {
    EscapeNext(value, index);
    EscapeNext(value, index + 1);
    assert value[index..index + 2] == [value[index]] + [value[index + 1]];
  }

  lemma ScalarNext(value: Text, index: nat)
    requires index < |value| && IsScalarText(value[index..])
    ensures if IsHigh(value[index])
            then index + 1 < |value| && IsLow(value[index + 1]) && IsScalarText(value[index + 2..])
            else IsScalarText(value[index + 1..])
  {
    assert value[index..][1..] == value[index + 1..];
    if IsHigh(value[index]) { assert value[index..][2..] == value[index + 2..]; }
  }

  /** The switch on one code unit that is not the start of a pair. */
  method EscapeCode(code: Unit) returns (piece: Text)
    ensures piece == EscapeUnit(code)
  {
    if code == 0x08 {
      piece := [BACKSLASH, 0x62];
    } else if code == 0x09 {
      piece := [BACKSLASH, 0x74];
    } else if code == 0x0a {
      piece := [BACKSLASH, 0x6e];
    } else if code == 0x0c {
      piece := [BACKSLASH, 0x66];
    } else if code == 0x0d {
      piece := [BACKSLASH, 0x72];
    } else if code == QUOTE {
      piece := [BACKSLASH, QUOTE];
    } else if code == BACKSLASH {
      piece := [BACKSLASH, BACKSLASH];
    } else if code <= 0x1f {
      piece := UnicodeEscape(code);
    } else {
      piece := [code];
    }
  }

  /** One turn of the loop: a whole pair is copied, any other unit is escaped. */
  method QuoteNext(value: Text, index: nat) returns (piece: Text, next: nat)
    requires index < |value| && IsScalarText(value[index..])
    ensures index < next <= |value| && IsScalarText(value[next..])
    ensures EscapeAll(value[..next]) == EscapeAll(value[..index]) + piece
  {
    ScalarNext(value, index);
    if IsHigh(value[index]) {
      CopyPair(value, index);
      return value[index..index + 2], index + 2;
    }
    EscapeNext(value, index);
    piece := EscapeCode(value[index]);
    next := index + 1;
  }

  /** `quoteCanonicalString` of the kernel: throws on a lone surrogate, otherwise quotes the escaped units. */
  method QuoteCanonicalString(value: Text) returns (quoted: Option<Text>)
    ensures quoted == KernelQuote(value)
  {
    var ok := CheckUnicodeScalarString(value);
    if !ok {
      return None;
    }
    var output := [QUOTE];
    var index := 0;
    assert value[0..] == value;
    while index < |value|
      invariant 0 <= index <= |value|
      invariant IsScalarText(value[index..])
      invariant output == [QUOTE] + EscapeAll(value[..index])
    {
      var piece, next := QuoteNext(value, index);
      ConcatAssociative([QUOTE], EscapeAll(value[..index]), piece);
      output := output + piece;
      index := next;
    }
    assert value[..index] == value;
    return Some(output + [QUOTE]);
  }

  /** What `quoteCanonicalString` computes. */
  function KernelQuote(s: Text): Option<Text> {
    if IsScalarText(s) then Some([QUOTE] + EscapeAll(s) + [QUOTE]) else None
  }

  /** `JSON.stringify` of a string (QuoteJSONString, section 25.5.2.3 of ECMA-262): lone surrogates are escaped. */
  function StringifyAll(s: Text): Text {
    if s == [] then []
    else if IsHigh(s[0]) && |s| > 1 && IsLow(s[1]) then s[..2] + StringifyAll(s[2..])
    else StringifyUnit(s[0]) + StringifyAll(s[1..])
  }

  /** One unit that does not start a pair. */
  function StringifyUnit(u: Unit): Text {
    if IsHigh(u) || IsLow(u) then UnicodeEscape(u) else EscapeUnit(u)
  }

  function Stringify(s: Text): Text {
    [QUOTE] + StringifyAll(s) + [QUOTE]
  }

  // ---------------------------------------------------------------- the printers

  /** `parts.join(",")` */
  function Join(parts: seq<Text>): Text {
    if parts == [] then []
    else if |parts| == 1 then parts[0]
    else parts[0] + [COMMA] + Join(parts[1..])
  }

  /** `canonicalizeInternal`: the text, or `None` where it throws. */
  function CanonicalizeJson(v: Json): Option<Text>
    decreases v, 1
  {
    match v
    case Null => Some(NULL_TEXT)
    case Bool(b) => Some(if b then TRUE_TEXT else FALSE_TEXT)
    case Num(text) => Some(text)
    case Str(s) => KernelQuote(s)
    case Arr(items) =>
      var parts := CanonicalizeItems(items);
      if parts.None? then None else Some([0x5b] + Join(parts.value) + [0x5d])
    case Obj(entries) =>
      var parts := CanonicalizeMembers(entries);
      if parts.None? then None
      else Some([0x7b] + Join(Pick(parts.value, Order(Keys(entries), |entries|))) + [0x7d])
  }

  function CanonicalizeItems(items: seq<Json>): (parts: Option<seq<Text>>)
    ensures parts.Some? ==> |parts.value| == |items|
    decreases items, 0
  {
    if items == [] then Some([])
    else
      var head, tail := CanonicalizeJson(items[0]), CanonicalizeItems(items[1..]);
      if head.None? || tail.None? then None else Some([head.value] + tail.value)
  }

  function CanonicalizeMembers(entries: seq<Entry>): (parts: Option<seq<Text>>)
    ensures parts.Some? ==> |parts.value| == |entries|
    decreases entries, 0
  {
    if entries == [] then Some([])
    else
      var key, head, tail := KernelQuote(entries[0].key), CanonicalizeJson(entries[0].value), CanonicalizeMembers(entries[1..]);
      if key.None? || head.None? || tail.None? then None
      else Some([key.value + [COLON] + head.value] + tail.value)
  }

  /** `canonicalJson` of the store and of the node evidence. */
  function CanonicalText(v: Json): Text
    decreases v, 1
  {
    match v
    case Null => NULL_TEXT
    case Bool(b) => if b then TRUE_TEXT else FALSE_TEXT
    case Num(text) => text
    case Str(s) => Stringify(s)
    case Arr(items) => [0x5b] + Join(ItemTexts(items)) + [0x5d]
    case Obj(entries) => [0x7b] + Join(Pick(MemberTexts(entries), Order(Keys(entries), |entries|))) + [0x7d]
  }

  function ItemTexts(items: seq<Json>): (parts: seq<Text>)
    ensures |parts| == |items|
    decreases items, 0
  {
    if items == [] then [] else [CanonicalText(items[0])] + ItemTexts(items[1..])
  }

  function MemberTexts(entries: seq<Entry>): (parts: seq<Text>)
    ensures |parts| == |entries|
    decreases entries, 0
  {
    if entries == [] then []
    else [Stringify(entries[0].key) + [COLON] + CanonicalText(entries[0].value)] + MemberTexts(entries[1..])
  }

  // ---------------------------------------------------------------- the normal form

  /** The value with the entries of every object in key order. */
  function Normalize(v: Json): Json
    decreases v, 1
  {
    match v
    case Arr(items) => Arr(NormalizeItems(items))
    case Obj(entries) => Obj(Pick(NormalizeEntries(entries), Order(Keys(entries), |entries|)))
    case _ => v
  }

  function NormalizeItems(items: seq<Json>): (normal: seq<Json>)
    ensures |normal| == |items|
    decreases items, 0
  {
    if items == [] then [] else [Normalize(items[0])] + NormalizeItems(items[1..])
  }

  function NormalizeEntries(entries: seq<Entry>): (normal: seq<Entry>)
    ensures |normal| == |entries|
    decreases entries, 0
  {
    if entries == [] then [] else [Entry(entries[0].key, Normalize(entries[0].value))] + NormalizeEntries(entries[1..])
  }
}
