/**
 The canonical printers have a left inverse, do not depend on key insertion order, and agree with each other
 (sections 3.2.2.2 and 3.2.3 of RFC 8785).
 */
module CanonicalJsonProofs {
  import opened Common
  import opened CanonicalJson

  // ---------------------------------------------------------------- a parser of canonical text

  function HexValue(u: Unit): Option<int> {
    if IsDigit(u) then Some(u - 0x30)
    else if 0x61 <= u <= 0x66 then Some(u - 0x57)
    else None
  }

  /** The code unit of four hexadecimal digits. */
  function ParseHex4(t: Text): (u: Option<Unit>)
    requires |t| == 4
  {
    var a, b, c, d := HexValue(t[0]), HexValue(t[1]), HexValue(t[2]), HexValue(t[3]);
    if a.None? || b.None? || c.None? || d.None? then None
    else
      var n := a.value * 0x1000 + b.value * 0x100 + c.value * 0x10 + d.value;
      if 0 <= n < 0x1_0000 then Some(n) else None
  }

  /** One printed unit and the rest. */
  function ParseUnit(t: Text): (r: Option<(Unit, Text)>)
    ensures r.Some? ==> |r.value.1| < |t|
  {
    if t == [] || t[0] == QUOTE then None
    else if t[0] != BACKSLASH then Some((t[0], t[1..]))
    else if |t| < 2 then None
    else if t[1] == 0x62 then Some((0x08, t[2..]))
    else if t[1] == 0x74 then Some((0x09, t[2..]))
    else if t[1] == 0x6e then Some((0x0a, t[2..]))
    else if t[1] == 0x66 then Some((0x0c, t[2..]))
    else if t[1] == 0x72 then Some((0x0d, t[2..]))
    else if t[1] == QUOTE || t[1] == BACKSLASH then Some((t[1], t[2..]))
    else if t[1] == 0x75 && |t| >= 6 && ParseHex4(t[2..6]).Some? then Some((ParseHex4(t[2..6]).value, t[6..]))
    else None
  }

  /** The units up to the closing quote, and what follows it. */
  function ParseStringBody(t: Text): (r: Option<(Text, Text)>)
    ensures r.Some? ==> |r.value.1| < |t|
    decreases |t|
  {
    if t == [] then None
    else if t[0] == QUOTE then Some(([], t[1..]))
    else
      var u := ParseUnit(t);
      if u.None? then None
      else
        var tail := ParseStringBody(u.value.1);
        if tail.None? then None else Some(([u.value.0] + tail.value.0, tail.value.1))
  }

  /** The longest run of number characters. */
  function NumberRun(t: Text): (n: nat)
    ensures n <= |t|
  {
    if t != [] && IsNumberUnit(t[0]) then 1 + NumberRun(t[1..]) else 0
  }

  function ParseValue(t: Text): (r: Option<(Json, Text)>)
    ensures r.Some? ==> |r.value.1| < |t|
    decreases |t|, 2
  {
    if t == [] then None
    else if NULL_TEXT <= t then Some((Null, t[4..]))
    else if TRUE_TEXT <= t then Some((Bool(true), t[4..]))
    else if FALSE_TEXT <= t then Some((Bool(false), t[5..]))
    else if t[0] == QUOTE then
      var s := ParseStringBody(t[1..]);
      if s.None? then None else Some((Str(s.value.0), s.value.1))
    else if t[0] == 0x5b then
      if |t| > 1 && t[1] == 0x5d then Some((Arr([]), t[2..]))
      else
        var items := ParseItems(t[1..]);
        if items.None? then None else Some((Arr(items.value.0), items.value.1))
    else if t[0] == 0x7b then
      if |t| > 1 && t[1] == 0x7d then Some((Obj([]), t[2..]))
      else
        var entries := ParseEntries(t[1..]);
        if entries.None? then None else Some((Obj(entries.value.0), entries.value.1))
    else
      var n := NumberRun(t);
      if n == 0 then None else Some((Num(t[..n]), t[n..]))
  }

  /** One or more values separated by commas, and a closing bracket. */
  function ParseItems(t: Text): (r: Option<(seq<Json>, Text)>)
    ensures r.Some? ==> |r.value.1| < |t|
    decreases |t|, 3
  {
    var head := ParseValue(t);
    if head.None? || head.value.1 == [] then None
    else if head.value.1[0] == 0x5d then Some(([head.value.0], head.value.1[1..]))
    else if head.value.1[0] != COMMA then None
    else
      var tail := ParseItems(head.value.1[1..]);
      if tail.None? then None else Some(([head.value.0] + tail.value.0, tail.value.1))
  }

  function ParseEntry(t: Text): (r: Option<(Entry, Text)>)
    ensures r.Some? ==> |r.value.1| < |t|
    decreases |t|, 3
  {
    if t == [] || t[0] != QUOTE then None
    else
      var key := ParseStringBody(t[1..]);
      if key.None? || key.value.1 == [] || key.value.1[0] != COLON then None
      else
        var v := ParseValue(key.value.1[1..]);
        if v.None? then None else Some((Entry(key.value.0, v.value.0), v.value.1))
  }

  /** One or more members separated by commas, and a closing brace. */
  function ParseEntries(t: Text): (r: Option<(seq<Entry>, Text)>)
    ensures r.Some? ==> |r.value.1| < |t|
    decreases |t|, 4
  {
    var head := ParseEntry(t);
    if head.None? || head.value.1 == [] then None
    else if head.value.1[0] == 0x7d then Some(([head.value.0], head.value.1[1..]))
    else if head.value.1[0] != COMMA then None
    else
      var tail := ParseEntries(head.value.1[1..]);
      if tail.None? then None else Some(([head.value.0] + tail.value.0, tail.value.1))
  }

  // ---------------------------------------------------------------- strings parse back

  lemma HexDigit(n: int)
    requires 0 <= n < 16
    ensures HexValue(HexUnit(n)) == Some(n)
  {
  }

  lemma FourDigits(u: Unit)
    ensures u == u / 0x1000 * 0x1000 + u / 0x100 % 0x10 * 0x100 + u / 0x10 % 0x10 * 0x10 + u % 0x10
    ensures u / 0x1000 < 16
  {
    assert u / 0x100 == u / 0x10 / 0x10 && u / 0x1000 == u / 0x100 / 0x10;
  }

  lemma ParseHexUnits(a: int, b: int, c: int, d: int)
    requires 0 <= a < 16 && 0 <= b < 16 && 0 <= c < 16 && 0 <= d < 16
    ensures ParseHex4([HexUnit(a), HexUnit(b), HexUnit(c), HexUnit(d)]) == Some(a * 0x1000 + b * 0x100 + c * 0x10 + d)
  {
    HexDigit(a);
    HexDigit(b);
    HexDigit(c);
    HexDigit(d);
  }

  lemma ParseUnicodeEscape(u: Unit, rest: Text)
    ensures ParseUnit(UnicodeEscape(u) + rest) == Some((u, rest))
  {
    var t := UnicodeEscape(u) + rest;
    FourDigits(u);
    var a, b, c, d := u / 0x1000, u / 0x100 % 0x10, u / 0x10 % 0x10, u % 0x10;
    ParseHexUnits(a, b, c, d);
    assert t[2..6] == [HexUnit(a), HexUnit(b), HexUnit(c), HexUnit(d)];
    assert t[6..] == rest;
  }

  lemma ParseEscape(u: Unit, rest: Text)
    ensures ParseUnit(EscapeUnit(u) + rest) == Some((u, rest))
    ensures EscapeUnit(u)[0] != QUOTE
  {
    var t := EscapeUnit(u) + rest;
    if |EscapeUnit(u)| == 1 {
      assert t[1..] == rest;
    } else if |EscapeUnit(u)| == 2 {
      assert t[2..] == rest;
    } else {
      ParseUnicodeEscape(u, rest);
    }
  }

  /** One printed unit in front of a parsable body. */
  lemma ParseStep(u: Unit, head: Text, rest: Text)
    requires |head| > 0 && head[0] != QUOTE && ParseUnit(head + rest) == Some((u, rest))
    requires ParseStringBody(rest).Some?
    ensures var tail := ParseStringBody(rest).value;
            ParseStringBody(head + rest) == Some(([u] + tail.0, tail.1))
  {
  }

  lemma ParsePlain(u: Unit, rest: Text)
    requires u != QUOTE && u != BACKSLASH
    ensures ParseUnit([u] + rest) == Some((u, rest))
  {
    assert ([u] + rest)[1..] == rest;
  }

  /** A string in `JSON.stringify` form parses back, whether or not its surrogates pair up. */
  lemma {:induction false} ParseString(s: Text, rest: Text)
    ensures ParseStringBody(StringifyAll(s) + ([QUOTE] + rest)) == Some((s, rest))
    decreases |s|
  {
    var tail := [QUOTE] + rest;
    if s == [] {
      assert StringifyAll(s) + tail == tail && tail[1..] == rest;
    } else if IsHigh(s[0]) && |s| > 1 && IsLow(s[1]) {
      var printed := StringifyAll(s[2..]);
      ParseString(s[2..], rest);
      ParsePair(s, printed + tail);
      ConcatAssociative(s[..2], printed, tail);
    } else {
      var printed := StringifyAll(s[1..]);
      ParseString(s[1..], rest);
      ParseSingle(s, printed + tail);
      ConcatAssociative(StringifyUnit(s[0]), printed, tail);
    }
  }

  lemma ParsePair(s: Text, t: Text)
    requires |s| > 1 && IsHigh(s[0]) && IsLow(s[1])
    requires ParseStringBody(t).Some? && ParseStringBody(t).value.0 == s[2..]
    ensures ParseStringBody(s[..2] + t) == Some((s, ParseStringBody(t).value.1))
  {
    ParsePlain(s[1], t);
    ParseStep(s[1], [s[1]], t);
    ParsePlain(s[0], [s[1]] + t);
    ParseStep(s[0], [s[0]], [s[1]] + t);
    assert s[..2] + t == [s[0]] + ([s[1]] + t);
    assert s == [s[0]] + ([s[1]] + s[2..]);
  }

  lemma ParseSingle(s: Text, t: Text)
    requires |s| > 0 && ParseStringBody(t).Some? && ParseStringBody(t).value.0 == s[1..]
    ensures ParseStringBody(StringifyUnit(s[0]) + t) == Some((s, ParseStringBody(t).value.1))
  {
    ParseUnicodeEscape(s[0], t);
    ParseEscape(s[0], t);
    ParseStep(s[0], StringifyUnit(s[0]), t);
    assert s == [s[0]] + s[1..];
  }

  // ---------------------------------------------------------------- elementwise views of the printers

  lemma {:induction false} ItemTextAt(items: seq<Json>, i: nat)
    requires i < |items|
    ensures ItemTexts(items)[i] == CanonicalText(items[i])
    ensures NormalizeItems(items)[i] == Normalize(items[i])
  {
    if i > 0 { ItemTextAt(items[1..], i - 1); }
  }

  function MemberText(e: Entry): Text {
    Stringify(e.key) + [COLON] + CanonicalText(e.value)
  }

  lemma {:induction false} MemberTextAt(entries: seq<Entry>, i: nat)
    requires i < |entries|
    ensures MemberTexts(entries)[i] == MemberText(entries[i])
    ensures NormalizeEntries(entries)[i] == Entry(entries[i].key, Normalize(entries[i].value))
  {
    if i > 0 { MemberTextAt(entries[1..], i - 1); }
  }

  lemma PickPointwise<A>(s: seq<A>, order: seq<nat>, t: seq<A>)
    requires forall k | 0 <= k < |order| :: order[k] < |s|
    requires |t| == |order| && forall k | 0 <= k < |order| :: t[k] == s[order[k]]
    ensures Pick(s, order) == t
  {
  }

  /** Sorting the printed members is printing the sorted members. */
  lemma PickMembers(entries: seq<Entry>, order: seq<nat>)
    requires forall k | 0 <= k < |order| :: order[k] < |entries|
    ensures Pick(MemberTexts(entries), order) == MemberTexts(Pick(entries, order))
    ensures Pick(NormalizeEntries(entries), order) == NormalizeEntries(Pick(entries, order))
  {
    forall k | 0 <= k < |order|
      ensures MemberTexts(Pick(entries, order))[k] == MemberTexts(entries)[order[k]]
      ensures NormalizeEntries(Pick(entries, order))[k] == NormalizeEntries(entries)[order[k]]
    {
      PickedMember(entries, order, k);
    }
    PickPointwise(MemberTexts(entries), order, MemberTexts(Pick(entries, order)));
    PickPointwise(NormalizeEntries(entries), order, NormalizeEntries(Pick(entries, order)));
  }

  lemma PickedMember(entries: seq<Entry>, order: seq<nat>, k: nat)
    requires k < |order| && forall k | 0 <= k < |order| :: order[k] < |entries|
    ensures MemberTexts(entries)[order[k]] == MemberTexts(Pick(entries, order))[k]
    ensures NormalizeEntries(entries)[order[k]] == NormalizeEntries(Pick(entries, order))[k]
  {
    MemberTextAt(entries, order[k]);
    MemberTextAt(Pick(entries, order), k);
    assert Pick(entries, order)[k] == entries[order[k]];
  }

  // ---------------------------------------------------------------- values parse back

  /** What may follow a value inside canonical text. */
  predicate Ends(rest: Text) {
    rest == [] || rest[0] == COMMA || rest[0] == 0x5d || rest[0] == 0x7d
  }

  lemma FirstUnit(v: Json)
    requires IsPlain(v)
    ensures |CanonicalText(v)| > 0 && CanonicalText(v)[0] != 0x5d && CanonicalText(v)[0] != 0x7d
  {
  }

  lemma {:induction false} NumberRunOf(t: Text, rest: Text)
    requires forall i | 0 <= i < |t| :: IsNumberUnit(t[i])
    requires Ends(rest)
    ensures NumberRun(t + rest) == |t|
  {
    if t == [] {
      assert t + rest == rest;
    } else {
      NumberRunOf(t[1..], rest);
      assert (t + rest)[1..] == t[1..] + rest;
    }
  }

  lemma ParseNumber(t: Text, rest: Text)
    requires IsNumberText(t) && Ends(rest)
    ensures ParseValue(t + rest) == Some((Num(t), rest))
  {
    NumberRunOf(t, rest);
    assert (t + rest)[0] == t[0];
    assert (t + rest)[..|t|] == t && (t + rest)[|t|..] == rest;
  }

  lemma ParseLiteral(v: Json, rest: Text)
    requires v.Null? || v.Bool?
    ensures ParseValue(CanonicalText(v) + rest) == Some((v, rest))
  {
    var text := CanonicalText(v);
    var t := text + rest;
    assert t[..|text|] == text && t[|text|..] == rest;
    assert t[0] == text[0];
  }

  lemma ParseQuoted(s: Text, rest: Text)
    ensures ParseValue(Stringify(s) + rest) == Some((Str(s), rest))
    ensures |Stringify(s) + rest| > 0 && (Stringify(s) + rest)[0] == QUOTE
    ensures ParseStringBody((Stringify(s) + rest)[1..]) == Some((s, rest))
  {
    var t := Stringify(s) + rest;
    var body := StringifyAll(s) + ([QUOTE] + rest);
    ParseString(s, rest);
    QuotedIs(StringifyAll(s), rest);
    ParseQuoteFirst(t, body, s, rest);
  }

  lemma QuotedIs(escaped: Text, rest: Text)
    ensures [QUOTE] + escaped + [QUOTE] + rest == [QUOTE] + (escaped + ([QUOTE] + rest))
  {
  }

  lemma ParseQuoteFirst(t: Text, body: Text, s: Text, rest: Text)
    requires t == [QUOTE] + body && ParseStringBody(body) == Some((s, rest))
    ensures ParseValue(t) == Some((Str(s), rest)) && t[1..] == body
  {
    assert t[1..] == body && t[0] == QUOTE;
  }

  /** Canonical text parses to the value in normal form, and the parser stops where the text ends. */
  lemma {:induction false} ParsePrinted(v: Json, rest: Text)
    requires IsPlain(v) && Ends(rest)
    ensures ParseValue(CanonicalText(v) + rest) == Some((Normalize(v), rest))
    decreases v, 2, 0
  {
    match v
    case Num(text) => ParseNumber(text, rest);
    case Str(s) => ParseQuoted(s, rest);
    case Arr(items) => ParseArray(v, rest);
    case Obj(entries) => ParseObject(v, rest);
    case _ => ParseLiteral(v, rest);
  }

  lemma {:induction false} ParseArray(v: Json, rest: Text)
    requires v.Arr? && IsPlain(v)
    ensures ParseValue(CanonicalText(v) + rest) == Some((Normalize(v), rest))
    decreases v, 1, 0
  {
    var items := v.items;
    var body := Join(ItemTexts(items));
    var t := CanonicalText(v) + rest;
    assert t == [0x5b] + body + [0x5d] + rest;
    if items == [] {
      assert NormalizeItems(items) == [] && body == [];
      ParseEmptyArray(t, rest);
    } else {
      ParseItemTexts(v, items, rest);
      FirstUnit(items[0]);
      JoinStarts(ItemTexts(items));
      ParseBracketed(t, body, rest, NormalizeItems(items));
    }
  }

  lemma ParseEmptyArray(t: Text, rest: Text)
    requires t == [0x5b] + [] + [0x5d] + rest
    ensures ParseValue(t) == Some((Arr([]), rest))
  {
    assert t[0] == 0x5b && t[1] == 0x5d && t[2..] == rest;
  }

  lemma ParseBracketed(t: Text, body: Text, rest: Text, items: seq<Json>)
    requires t == [0x5b] + body + [0x5d] + rest && |body| > 0 && body[0] != 0x5d
    requires ParseItems(body + ([0x5d] + rest)) == Some((items, rest))
    ensures ParseValue(t) == Some((Arr(items), rest))
  {
    BracketShape(0x5b, body, 0x5d, rest);
  }

  lemma ParseEmptyObject(t: Text, rest: Text)
    requires t == [0x7b] + [] + [0x7d] + rest
    ensures ParseValue(t) == Some((Obj([]), rest))
  {
    assert t[0] == 0x7b && t[1] == 0x7d && t[2..] == rest;
  }

  lemma ParseBraced(t: Text, body: Text, rest: Text, entries: seq<Entry>)
    requires t == [0x7b] + body + [0x7d] + rest && |body| > 0 && body[0] != 0x7d
    requires ParseEntries(body + ([0x7d] + rest)) == Some((entries, rest))
    ensures ParseValue(t) == Some((Obj(entries), rest))
  {
    BracketShape(0x7b, body, 0x7d, rest);
  }

  lemma BracketShape(open: Unit, body: Text, close: Unit, rest: Text)
    ensures ([open] + body + [close] + rest)[0] == open
    ensures ([open] + body + [close] + rest)[1..] == body + ([close] + rest)
    ensures |body| > 0 ==> ([open] + body + [close] + rest)[1] == body[0]
  {
  }

  /** A non-empty join starts with its first part. */
  lemma JoinStarts(parts: seq<Text>)
    requires |parts| > 0 && |parts[0]| > 0
    ensures |Join(parts)| > 0 && Join(parts)[0] == parts[0][0]
  {
  }

  lemma {:induction false} ParseItemTexts(v: Json, items: seq<Json>, rest: Text)
    requires |items| > 0 && forall i | 0 <= i < |items| :: IsPlain(items[i]) && items[i] < v
    ensures ParseItems(Join(ItemTexts(items)) + ([0x5d] + rest)) == Some((NormalizeItems(items), rest))
    decreases v, 0, |items|
  {
    var close := [0x5d] + rest;
    if |items| == 1 {
      ParsePrinted(items[0], close);
      assert ItemTexts(items) == [CanonicalText(items[0])] && NormalizeItems(items) == [Normalize(items[0])];
      assert close[1..] == rest;
    } else {
      var more := Join(ItemTexts(items[1..])) + close;
      ParseItemTexts(v, items[1..], rest);
      ParsePrinted(items[0], [COMMA] + more);
      JoinCons(ItemTexts(items), close);
      assert ([COMMA] + more)[1..] == more;
    }
  }

  lemma {:induction false} ParseObject(v: Json, rest: Text)
    requires v.Obj? && IsPlain(v)
    ensures ParseValue(CanonicalText(v) + rest) == Some((Normalize(v), rest))
    decreases v, 1, 0
  {
    var entries := v.entries;
    var order := Order(Keys(entries), |entries|);
    var sorted := Pick(entries, order);
    var body := Join(MemberTexts(sorted));
    var t := CanonicalText(v) + rest;
    ObjectText(v, entries, order, sorted);
    assert t == [0x7b] + body + [0x7d] + rest;
    if entries == [] {
      assert sorted == [] && body == [];
      ParseEmptyObject(t, rest);
    } else {
      ParseMemberTexts(v, sorted, rest);
      MemberTextAt(sorted, 0);
      JoinStarts(MemberTexts(sorted));
      ParseBraced(t, body, rest, NormalizeEntries(sorted));
    }
  }

  /** An object prints, and normalizes, as its entries in key order. */
  lemma ObjectText(v: Json, entries: seq<Entry>, order: seq<nat>, sorted: seq<Entry>)
    requires v == Obj(entries) && order == Order(Keys(entries), |entries|)
    requires (forall k | 0 <= k < |order| :: order[k] < |entries|) && sorted == Pick(entries, order)
    ensures CanonicalText(v) == [0x7b] + Join(MemberTexts(sorted)) + [0x7d]
    ensures Normalize(v) == Obj(NormalizeEntries(sorted))
  {
    PickMembers(entries, order);
  }

  lemma {:induction false} ParseMemberTexts(v: Json, entries: seq<Entry>, rest: Text)
    requires |entries| > 0 && forall i | 0 <= i < |entries| :: IsPlain(entries[i].value) && entries[i].value < v
    ensures ParseEntries(Join(MemberTexts(entries)) + ([0x7d] + rest)) == Some((NormalizeEntries(entries), rest))
    decreases v, 0, |entries|
  {
    var close := [0x7d] + rest;
    var e := entries[0];
    if |entries| == 1 {
      ParsePrinted(e.value, close);
      ParseMember(e, close);
      assert MemberTexts(entries) == [MemberText(e)];
      assert NormalizeEntries(entries) == [Entry(e.key, Normalize(e.value))];
      assert close[1..] == rest;
    } else {
      var more := Join(MemberTexts(entries[1..])) + close;
      ParseMemberTexts(v, entries[1..], rest);
      ParsePrinted(e.value, [COMMA] + more);
      ParseMember(e, [COMMA] + more);
      JoinCons(MemberTexts(entries), close);
      assert ([COMMA] + more)[1..] == more;
    }
  }

  lemma JoinCons(parts: seq<Text>, close: Text)
    requires |parts| > 1
    ensures Join(parts) + close == parts[0] + ([COMMA] + (Join(parts[1..]) + close))
  {
    Regroup(parts[0], [COMMA], Join(parts[1..]), close);
  }

  lemma ParseMember(e: Entry, rest: Text)
    requires ParseValue(CanonicalText(e.value) + rest) == Some((Normalize(e.value), rest))
    ensures ParseEntry(MemberText(e) + rest) == Some((Entry(e.key, Normalize(e.value)), rest))
  {
    var value := CanonicalText(e.value) + rest;
    var tail := [COLON] + value;
    ParseQuoted(e.key, tail);
    MemberShape(e, rest);
    assert tail[1..] == value;
  }

  lemma MemberShape(e: Entry, rest: Text)
    ensures MemberText(e) + rest == Stringify(e.key) + ([COLON] + (CanonicalText(e.value) + rest))
  {
    Regroup(Stringify(e.key), [COLON], CanonicalText(e.value), rest);
  }

  lemma Regroup(a: Text, b: Text, c: Text, d: Text)
    ensures (a + b + c) + d == a + (b + (c + d))
  {
  }

  /** The parser recovers every value, up to key order, from the whole of its canonical text. */
  lemma CanonicalTextParses(v: Json)
    requires IsPlain(v)
    ensures ParseValue(CanonicalText(v)) == Some((Normalize(v), []))
  {
    ParsePrinted(v, []);
    assert CanonicalText(v) + [] == CanonicalText(v);
  }

  // ---------------------------------------------------------------- the text is a function of the normal form

  /** The text of a value with every object printed in the order its entries are in. */
  function RawText(v: Json): Text
    decreases v, 1
  {
    match v
    case Arr(items) => [0x5b] + Join(RawItems(items)) + [0x5d]
    case Obj(entries) => [0x7b] + Join(RawMembers(entries)) + [0x7d]
    case Null => NULL_TEXT
    case Bool(b) => if b then TRUE_TEXT else FALSE_TEXT
    case Num(text) => text
    case Str(s) => Stringify(s)
  }

  function RawItems(items: seq<Json>): (parts: seq<Text>)
    ensures |parts| == |items|
    decreases items, 0
  {
    if items == [] then [] else [RawText(items[0])] + RawItems(items[1..])
  }

  function RawMembers(entries: seq<Entry>): (parts: seq<Text>)
    ensures |parts| == |entries|
    decreases entries, 0
  {
    if entries == [] then []
    else [Stringify(entries[0].key) + [COLON] + RawText(entries[0].value)] + RawMembers(entries[1..])
  }

  lemma {:induction false} RawMemberAt(entries: seq<Entry>, i: nat)
    requires i < |entries|
    ensures RawMembers(entries)[i] == Stringify(entries[i].key) + [COLON] + RawText(entries[i].value)
  {
    if i > 0 { RawMemberAt(entries[1..], i - 1); }
  }

  lemma {:induction false} CanonicalIsRaw(v: Json)
    ensures CanonicalText(v) == RawText(Normalize(v))
    decreases v, 1
  {
    match v
    case Arr(items) => ItemsAreRaw(items);
    case Obj(entries) =>
      var order := Order(Keys(entries), |entries|);
      MembersAreRaw(entries);
      PickRaw(NormalizeEntries(entries), order);
    case _ =>
  }

  lemma PickRaw(entries: seq<Entry>, order: seq<nat>)
    requires forall k | 0 <= k < |order| :: order[k] < |entries|
    ensures Pick(RawMembers(entries), order) == RawMembers(Pick(entries, order))
  {
    forall k | 0 <= k < |order| ensures RawMembers(Pick(entries, order))[k] == RawMembers(entries)[order[k]] {
      RawMemberAt(entries, order[k]);
      RawMemberAt(Pick(entries, order), k);
    }
    PickPointwise(RawMembers(entries), order, RawMembers(Pick(entries, order)));
  }

  lemma {:induction false} ItemsAreRaw(items: seq<Json>)
    ensures ItemTexts(items) == RawItems(NormalizeItems(items))
    decreases items, 0
  {
    if items != [] {
      CanonicalIsRaw(items[0]);
      ItemsAreRaw(items[1..]);
      assert NormalizeItems(items)[1..] == NormalizeItems(items[1..]);
    }
  }

  lemma {:induction false} MembersAreRaw(entries: seq<Entry>)
    ensures MemberTexts(entries) == RawMembers(NormalizeEntries(entries))
    decreases entries, 0
  {
    if entries != [] {
      CanonicalIsRaw(entries[0].value);
      MembersAreRaw(entries[1..]);
      assert NormalizeEntries(entries)[1..] == NormalizeEntries(entries[1..]);
    }
  }

  /** Two values have the same canonical text exactly when they are equal up to the order of object keys. */
  lemma SameTextIffSameValue(v: Json, v': Json)
    requires IsPlain(v) && IsPlain(v')
    ensures CanonicalText(v) == CanonicalText(v') <==> Normalize(v) == Normalize(v')
  {
    CanonicalTextParses(v);
    CanonicalTextParses(v');
    CanonicalIsRaw(v);
    CanonicalIsRaw(v');
  }

  // ---------------------------------------------------------------- key order

  lemma {:induction false} LessIrreflexive(a: Text)
    ensures !Less(a, a)
  {
    if a != [] { LessIrreflexive(a[1..]); }
  }

  lemma {:induction false} LessTransitive(a: Text, b: Text, c: Text)
    requires Less(a, b) && Less(b, c)
    ensures Less(a, c)
  {
    if |a| > 0 && a[0] == b[0] && b[0] == c[0] { LessTransitive(a[1..], b[1..], c[1..]); }
  }

  lemma {:induction false} LessTotal(a: Text, b: Text)
    requires a != b
    ensures Less(a, b) || Less(b, a)
  {
    if |a| > 0 && |b| > 0 && a[0] == b[0] {
      assert a == [a[0]] + a[1..] && b == [b[0]] + b[1..];
      LessTotal(a[1..], b[1..]);
    }
  }

  /** At position `k`, the first where they differ, `x` ends and `y` does not, or `x` has the smaller code unit. */
  predicate DiffersAt(x: Text, y: Text, k: nat) {
    && k <= |x| && k <= |y| && x[..k] == y[..k]
    && (if k == |x| then k < |y| else k < |y| && x[k] < y[k])
  }

  /** Order by UTF-16 code unit, section 3.2.3 of RFC 8785. */
  ghost predicate Precedes(x: Text, y: Text) {
    exists k: nat :: DiffersAt(x, y, k)
  }

  lemma SameFront(x: Text, y: Text, k: nat)
    requires DiffersAt(x, y, k)
    ensures k > 0 ==> |x| > 0 && |y| > 0 && x[0] == y[0]
  {
    if k > 0 { assert x[..k][0] == y[..k][0]; }
  }

  lemma {:induction false} LessMeans(x: Text, y: Text)
    ensures Less(x, y) <==> Precedes(x, y)
  {
    if |x| == 0 || |y| == 0 || x[0] != y[0] {
      assert Less(x, y) ==> DiffersAt(x, y, 0);
      if Precedes(x, y) {
        var k: nat :| DiffersAt(x, y, k);
        SameFront(x, y, k);
      }
    } else {
      LessMeans(x[1..], y[1..]);
      if Less(x, y) {
        var k: nat :| DiffersAt(x[1..], y[1..], k);
        assert x[..k + 1] == [x[0]] + x[1..][..k] && y[..k + 1] == [y[0]] + y[1..][..k];
        assert DiffersAt(x, y, k + 1);
      }
      if Precedes(x, y) {
        var k: nat :| DiffersAt(x, y, k);
        assert k > 0 && x[1..][..k - 1] == x[..k][1..] && y[1..][..k - 1] == y[..k][1..];
        assert DiffersAt(x[1..], y[1..], k - 1);
      }
    }
  }

  predicate Ascending(keys: seq<Text>, order: seq<nat>)
    requires forall k | 0 <= k < |order| :: order[k] < |keys|
  {
    forall i, j | 0 <= i < j < |order| :: Less(keys[order[i]], keys[order[j]])
  }

  predicate AllDistinct(keys: seq<Text>) {
    forall i, j | 0 <= i < j < |keys| :: keys[i] != keys[j]
  }

  lemma {:induction false} InsertAscending(keys: seq<Text>, i: nat, order: seq<nat>)
    requires i < |keys| && (forall k | 0 <= k < |order| :: order[k] < |keys| && keys[order[k]] != keys[i])
    requires Ascending(keys, order)
    ensures Ascending(keys, InsertIndex(keys, i, order))
  {
    if order == [] {
    } else if Less(keys[i], keys[order[0]]) {
      forall j | 0 < j < |order| ensures Less(keys[i], keys[order[j]]) {
        LessTransitive(keys[i], keys[order[0]], keys[order[j]]);
      }
    } else {
      LessTotal(keys[i], keys[order[0]]);
      InsertAscending(keys, i, order[1..]);
      var tail := InsertIndex(keys, i, order[1..]);
      forall j | 0 <= j < |tail| ensures Less(keys[order[0]], keys[tail[j]]) {
        assert tail[j] in tail;
        if tail[j] != i {
          var k :| 0 <= k < |order[1..]| && order[1..][k] == tail[j];
          assert order[k + 1] == tail[j];
        }
      }
    }
  }

  lemma {:induction false} OrderHolds(keys: seq<Text>, n: nat)
    requires n <= |keys|
    ensures forall x: nat :: x in Order(keys, n) <==> x < n
  {
    if n > 0 { OrderHolds(keys, n - 1); }
  }

  lemma MembersBelow(order: seq<nat>, n: nat)
    requires forall x: nat :: x in order <==> x < n
    ensures forall k | 0 <= k < |order| :: order[k] < n
  {
    forall k | 0 <= k < |order| ensures order[k] < n { assert order[k] in order; }
  }

  lemma {:induction false} OrderAscends(keys: seq<Text>, n: nat)
    requires AllDistinct(keys) && n <= |keys|
    ensures Ascending(keys, Order(keys, n))
  {
    if n > 0 {
      OrderAscends(keys, n - 1);
      OrderHolds(keys, n - 1);
      MembersBelow(Order(keys, n - 1), n - 1);
      InsertNext(keys, n - 1, Order(keys, n - 1));
    }
  }

  /** `Order` sorts distinct keys into strictly ascending order and leaves none out. */
  lemma OrderSorts(keys: seq<Text>, n: nat)
    requires AllDistinct(keys) && n <= |keys|
    ensures forall i, j | 0 <= i < j < n :: Precedes(keys[Order(keys, n)[i]], keys[Order(keys, n)[j]])
    ensures forall x: nat :: x in Order(keys, n) <==> x < n
  {
    OrderAscends(keys, n);
    OrderHolds(keys, n);
    forall i, j | 0 <= i < j < n ensures Precedes(keys[Order(keys, n)[i]], keys[Order(keys, n)[j]]) {
      LessMeans(keys[Order(keys, n)[i]], keys[Order(keys, n)[j]]);
    }
  }

  lemma InsertNext(keys: seq<Text>, n: nat, order: seq<nat>)
    requires AllDistinct(keys) && n < |keys| && (forall k | 0 <= k < |order| :: order[k] < n)
    requires Ascending(keys, order)
    ensures Ascending(keys, InsertIndex(keys, n, order))
  {
    InsertAscending(keys, n, order);
  }

  predicate StrictlySorted(entries: seq<Entry>) {
    forall i, j | 0 <= i < j < |entries| :: Less(entries[i].key, entries[j].key)
  }

  lemma NonEmptyWith(a: seq<Entry>, b: seq<Entry>)
    requires |b| > 0 && forall e :: e in a <==> e in b
    ensures |a| > 0
  {
    assert b[0] in b;
  }

  /** A strictly sorted list is determined by its elements. */
  lemma {:induction false} SortedUnique(a: seq<Entry>, b: seq<Entry>)
    requires StrictlySorted(a) && StrictlySorted(b)
    requires forall e :: e in a <==> e in b
    ensures a == b
  {
    if |a| > 0 || |b| > 0 {
      if |b| > 0 { NonEmptyWith(a, b); } else { NonEmptyWith(b, a); }
      assert a[0] in b;
      HeadsAgree(a, b);
      TailElements(a, b);
      TailElements(b, a);
      SortedUnique(a[1..], b[1..]);
      assert a == [a[0]] + a[1..] && b == [b[0]] + b[1..];
    }
  }

  lemma HeadsAgree(a: seq<Entry>, b: seq<Entry>)
    requires |a| > 0 && |b| > 0 && StrictlySorted(a) && StrictlySorted(b) && a[0] in b && b[0] in a
    ensures a[0] == b[0]
  {
    var p :| 0 <= p < |b| && b[p] == a[0];
    var q :| 0 <= q < |a| && a[q] == b[0];
    if p > 0 && q > 0 {
      LessTransitive(a[0].key, b[0].key, a[0].key);
      LessIrreflexive(a[0].key);
    }
  }

  lemma TailElements(a: seq<Entry>, b: seq<Entry>)
    requires |a| > 0 && |b| > 0 && StrictlySorted(a) && a[0] == b[0]
    requires forall e :: e in a <==> e in b
    ensures forall e | e in a[1..] :: e in b[1..]
  {
    forall e | e in a[1..] ensures e in b[1..] {
      var p :| 0 <= p < |a[1..]| && a[1..][p] == e;
      assert Less(a[0].key, a[p + 1].key);
      LessIrreflexive(e.key);
      assert e in a;
      var q :| 0 <= q < |b| && b[q] == e;
      assert b[1..][q - 1] == e;
    }
  }

  function Sorted(entries: seq<Entry>): seq<Entry> {
    Pick(entries, Order(Keys(entries), |entries|))
  }

  lemma SortedElements(entries: seq<Entry>)
    requires DistinctKeys(entries)
    ensures StrictlySorted(Sorted(entries))
    ensures forall e :: e in Sorted(entries) <==> e in entries
  {
    var order := Order(Keys(entries), |entries|);
    OrderAscends(Keys(entries), |entries|);
    OrderHolds(Keys(entries), |entries|);
    forall e | e in entries ensures e in Sorted(entries) {
      var i: nat :| i < |entries| && entries[i] == e;
      assert i in order;
      var k :| 0 <= k < |order| && order[k] == i;
      assert Sorted(entries)[k] == e;
    }
  }

  /** The same members inserted in any order give the same value, and so the same canonical text. */
  lemma InsertionOrderIsIrrelevant(entries: seq<Entry>, entries': seq<Entry>)
    requires DistinctKeys(entries) && DistinctKeys(entries')
    requires forall e :: e in entries <==> e in entries'
    ensures Normalize(Obj(entries)) == Normalize(Obj(entries'))
    ensures CanonicalText(Obj(entries)) == CanonicalText(Obj(entries'))
  {
    SortedElements(entries);
    SortedElements(entries');
    SortedUnique(Sorted(entries), Sorted(entries'));
    PickMembers(entries, Order(Keys(entries), |entries|));
    PickMembers(entries', Order(Keys(entries'), |entries'|));
  }

  // ---------------------------------------------------------------- the two printers agree

  lemma {:induction false} QuotesAgree(s: Text)
    requires IsScalarText(s)
    ensures StringifyAll(s) == EscapeAll(s)
    decreases |s|
  {
    if s != [] {
      if IsHigh(s[0]) {
        QuotesAgree(s[2..]);
        EscapeAppend(s[..2], s[2..]);
        CopyPair(s, 0);
        assert s == s[..2] + s[2..] && s[..0] == [] && s[0..2] == s[..2];
      } else {
        QuotesAgree(s[1..]);
      }
    }
  }

  /**
   The kernel's `canonicalizeJson` accepts exactly the values whose strings are whole Unicode scalars, and
   prints them exactly as the store's and the evidence's `canonicalJson` do.
   */
  lemma {:induction false} PrintersAgree(v: Json)
    ensures CanonicalizeJson(v) == if IsScalarJson(v) then Some(CanonicalText(v)) else None
    decreases v, 1
  {
    match v
    case Str(s) => if IsScalarText(s) { QuotesAgree(s); }
    case Arr(items) => ItemsAgree(items);
    case Obj(entries) => MembersAgree(entries);
    case _ =>
  }

  lemma {:induction false} ItemsAgree(items: seq<Json>)
    ensures CanonicalizeItems(items)
            == if forall i | 0 <= i < |items| :: IsScalarJson(items[i]) then Some(ItemTexts(items)) else None
    decreases items, 0
  {
    if items != [] {
      PrintersAgree(items[0]);
      ItemsAgree(items[1..]);
      assert forall i | 0 < i < |items| :: items[i] == items[1..][i - 1];
    }
  }

  lemma {:induction false} MembersAgree(entries: seq<Entry>)
    ensures CanonicalizeMembers(entries)
            == if forall i | 0 <= i < |entries| :: IsScalarText(entries[i].key) && IsScalarJson(entries[i].value)
               then Some(MemberTexts(entries)) else None
    decreases entries, 0
  {
    if entries != [] {
      if IsScalarText(entries[0].key) { QuotesAgree(entries[0].key); }
      PrintersAgree(entries[0].value);
      MembersAgree(entries[1..]);
      assert forall i | 0 < i < |entries| :: entries[i] == entries[1..][i - 1];
    }
  }

  /** The kernel's text has the same left inverse: from it the parser recovers the value up to key order. */
  lemma KernelTextParses(v: Json)
    requires IsPlain(v) && IsScalarJson(v)
    ensures CanonicalizeJson(v).Some?
    ensures ParseValue(CanonicalizeJson(v).value) == Some((Normalize(v), []))
  {
    PrintersAgree(v);
    CanonicalTextParses(v);
  }
}
