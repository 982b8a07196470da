/** What the canonical form is, said without the functions that print and sort it. */
module CanonicalJsonMeaning {
  import opened Common
  import opened CanonicalJson
  import opened CanonicalJsonProofs

  // ---------------------------------------------------------------- the normal form

  /** `e` is one of the entries, its value in normal form. */
  ghost predicate IsMember(entries: seq<Entry>, e: Entry) {
    exists i | 0 <= i < |entries| :: e == Entry(entries[i].key, Normalize(entries[i].value))
  }

  lemma {:induction false} NormalEntryAt(entries: seq<Entry>, i: nat)
    requires i < |entries|
    ensures NormalizeEntries(entries)[i] == Entry(entries[i].key, Normalize(entries[i].value))
  {
    if i > 0 { NormalEntryAt(entries[1..], i - 1); }
  }

  /** The normal form of an object holds exactly its members, each in normal form, with ascending keys. */
  lemma ObjectIsSorted(entries: seq<Entry>)
    requires DistinctKeys(entries)
    ensures Normalize(Obj(entries)).Obj? && |Normalize(Obj(entries)).entries| == |entries|
    ensures forall i, j | 0 <= i < j < |entries| ::
              Precedes(Normalize(Obj(entries)).entries[i].key, Normalize(Obj(entries)).entries[j].key)
    ensures forall e :: e in Normalize(Obj(entries)).entries <==> IsMember(entries, e)
  {
    var keys, normal := Keys(entries), Normalize(Obj(entries)).entries;
    var order := Order(keys, |entries|);
    OrderSorts(keys, |entries|);
    forall k | 0 <= k < |order| ensures normal[k] == Entry(entries[order[k]].key, Normalize(entries[order[k]].value)) {
      NormalEntryAt(entries, order[k]);
    }
    MembersArePicked(entries, normal, order);
    forall i, j | 0 <= i < j < |entries| ensures Precedes(normal[i].key, normal[j].key) {
      assert Precedes(keys[order[i]], keys[order[j]]);
    }
  }

  lemma MembersArePicked(entries: seq<Entry>, normal: seq<Entry>, order: seq<nat>)
    requires |normal| == |order| && forall k | 0 <= k < |order| :: order[k] < |entries|
    requires forall k | 0 <= k < |order| :: normal[k] == Entry(entries[order[k]].key, Normalize(entries[order[k]].value))
    requires forall x: nat :: x in order <==> x < |entries|
    ensures forall e :: e in normal <==> IsMember(entries, e)
  {
    forall e | e in normal ensures IsMember(entries, e) {
      var k :| 0 <= k < |normal| && normal[k] == e;
      assert e == Entry(entries[order[k]].key, Normalize(entries[order[k]].value));
    }
    forall e | IsMember(entries, e) ensures e in normal {
      var i :| 0 <= i < |entries| && e == Entry(entries[i].key, Normalize(entries[i].value));
      assert i in order;
      var k :| 0 <= k < |order| && order[k] == i;
      assert normal[k] == e;
    }
  }

  lemma {:induction false} ArrayIsPointwise(items: seq<Json>)
    ensures Normalize(Arr(items)).Arr? && |Normalize(Arr(items)).items| == |items|
    ensures forall i | 0 <= i < |items| :: Normalize(Arr(items)).items[i] == Normalize(items[i])
  {
    if items != [] {
      ArrayIsPointwise(items[1..]);
      forall i | 0 < i < |items| ensures Normalize(Arr(items)).items[i] == Normalize(items[i]) {
        assert Normalize(Arr(items[1..])).items[i - 1] == Normalize(items[1..][i - 1]);
      }
    }
  }

  lemma AtomsAreNormal(v: Json)
    requires !v.Arr? && !v.Obj?
    ensures Normalize(v) == v
  {
  }

  // ---------------------------------------------------------------- the values that are printed

  /** The text of every whole number is one that a number can have. */
  lemma {:induction false} DecimalIsNumber(n: int)
    ensures IsNumberText(DecimalText(n))
    decreases n < 0, if n < 0 then -n else n
  {
    if n < 0 { DecimalIsNumber(-n); } else if n >= 10 { DecimalIsNumber(n / 10); }
  }

  /** So is that of a number with a fraction and an exponent. */
  lemma FractionIsNumber(whole: int, fraction: Text, exponent: int)
    requires |fraction| > 0 && forall i | 0 <= i < |fraction| :: 0x30 <= fraction[i] <= 0x39
    ensures IsNumberText(DecimalText(whole) + [0x2e] + fraction)
    ensures IsNumberText(DecimalText(whole) + [0x2e] + fraction + (if exponent < 0 then [0x65] else [0x65, 0x2b])
                         + DecimalText(exponent))
  {
    DecimalIsNumber(whole);
    DecimalIsNumber(exponent);
  }

  // ---------------------------------------------------------------- whole scalars

  /** A high surrogate is followed by a low one, and a low one follows a high one. */
  predicate PairsAt(s: Text, i: nat)
    requires i < |s|
  {
    && (0xd800 <= s[i] < 0xdc00 ==> i + 1 < |s| && 0xdc00 <= s[i + 1] < 0xe000)
    && (0xdc00 <= s[i] < 0xe000 ==> i > 0 && 0xd800 <= s[i - 1] < 0xdc00)
  }

  predicate SurrogatesPairUp(s: Text) {
    forall i | 0 <= i < |s| :: PairsAt(s, i)
  }

  lemma {:induction false} ScalarsPairUp(s: Text)
    ensures IsScalarText(s) <==> SurrogatesPairUp(s)
    decreases |s|
  {
    if s == [] {
    } else if IsHigh(s[0]) && |s| > 1 && IsLow(s[1]) {
      ScalarsPairUp(s[2..]);
      PairedFront(s, s[2..], 2);
    } else if !IsHigh(s[0]) && !IsLow(s[0]) {
      ScalarsPairUp(s[1..]);
      PairedFront(s, s[1..], 1);
    } else {
      assert !PairsAt(s, 0);
    }
  }

  lemma PairsBehind(s: Text, rest: Text, n: nat, i: nat)
    requires 0 < n <= |s| && rest == s[n..] && i < |rest| && !IsHigh(s[n - 1])
    ensures PairsAt(s, n + i) == PairsAt(rest, i)
  {
    assert rest[i] == s[n + i];
    if i > 0 { assert rest[i - 1] == s[n + i - 1]; }
    if i + 1 < |rest| { assert rest[i + 1] == s[n + i + 1]; }
  }

  /** A front of whole scalars does not matter for what follows. */
  lemma PairedFront(s: Text, rest: Text, n: nat)
    requires n <= |s| && rest == s[n..]
    requires (n == 1 && !IsHigh(s[0]) && !IsLow(s[0])) || (n == 2 && IsHigh(s[0]) && IsLow(s[1]))
    ensures SurrogatesPairUp(s) <==> SurrogatesPairUp(rest)
  {
    assert forall i | 0 <= i < n :: PairsAt(s, i);
    forall i | 0 <= i < |rest| ensures PairsAt(s, n + i) == PairsAt(rest, i) { PairsBehind(s, rest, n, i); }
    if SurrogatesPairUp(rest) {
      forall i | 0 <= i < |s| ensures PairsAt(s, i) {
        if i >= n { assert PairsAt(s, n + (i - n)) == PairsAt(rest, i - n); }
      }
    }
  }

  // ---------------------------------------------------------------- texts written out

  /** {"b":2,"a":[true,null]} is printed as {"a":[true,null],"b":2}. */
  lemma ObjectText()
    ensures CanonicalText(Obj([Entry([0x62], Num([0x32])), Entry([0x61], Arr([Bool(true), Null]))]))
            == [0x7b, 0x22, 0x61, 0x22, 0x3a, 0x5b, 0x74, 0x72, 0x75, 0x65, 0x2c, 0x6e, 0x75, 0x6c, 0x6c, 0x5d,
                0x2c, 0x22, 0x62, 0x22, 0x3a, 0x32, 0x7d]
  {
    var b, a := Entry([0x62], Num([0x32])), Entry([0x61], Arr([Bool(true), Null]));
    ArrayText();
    StringText(0x61);
    StringText(0x62);
    TwoMembers(b, a);
    Assembled(CanonicalText(a.value), CanonicalText(b.value));
  }

  lemma Assembled(x: Text, y: Text)
    requires x == [0x5b, 0x74, 0x72, 0x75, 0x65, 0x2c, 0x6e, 0x75, 0x6c, 0x6c, 0x5d] && y == [0x32]
    ensures [0x7b] + ([0x22, 0x61, 0x22] + [0x3a] + x + [0x2c] + ([0x22, 0x62, 0x22] + [0x3a] + y)) + [0x7d]
            == [0x7b, 0x22, 0x61, 0x22, 0x3a, 0x5b, 0x74, 0x72, 0x75, 0x65, 0x2c, 0x6e, 0x75, 0x6c, 0x6c, 0x5d,
                0x2c, 0x22, 0x62, 0x22, 0x3a, 0x32, 0x7d]
  {
  }

  lemma ArrayText()
    ensures CanonicalText(Arr([Bool(true), Null])) == [0x5b, 0x74, 0x72, 0x75, 0x65, 0x2c, 0x6e, 0x75, 0x6c, 0x6c, 0x5d]
    ensures CanonicalText(Bool(false)) == [0x66, 0x61, 0x6c, 0x73, 0x65]
  {
    var items := [Bool(true), Null];
    assert items[1..] == [Null] && items[1..][1..] == [];
    assert ItemTexts(items[1..]) == [NULL_TEXT];
    assert ItemTexts(items) == [TRUE_TEXT, NULL_TEXT];
    assert ItemTexts(items)[1..] == [NULL_TEXT];
    assert Join(ItemTexts(items)) == TRUE_TEXT + [COMMA] + NULL_TEXT;
  }

  lemma StringText(u: Unit)
    requires 0x61 <= u <= 0x7a
    ensures Stringify([u]) == [0x22, u, 0x22]
  {
    assert [u][1..] == [];
    assert StringifyAll([u]) == [u];
  }

  lemma TwoMembers(b: Entry, a: Entry)
    requires b.key == [0x62] && a.key == [0x61]
    ensures CanonicalText(Obj([b, a]))
            == [0x7b] + (Stringify(a.key) + [0x3a] + CanonicalText(a.value) + [0x2c]
                         + (Stringify(b.key) + [0x3a] + CanonicalText(b.value))) + [0x7d]
  {
    var entries := [b, a];
    assert entries[1..] == [a] && entries[1..][1..] == [];
    var ta := Stringify(a.key) + [COLON] + CanonicalText(a.value);
    var tb := Stringify(b.key) + [COLON] + CanonicalText(b.value);
    assert MemberTexts(entries[1..]) == [ta];
    assert MemberTexts(entries) == [tb, ta];
    OrderOfTwo(Keys(entries));
    assert Pick(MemberTexts(entries), [1, 0]) == [ta, tb];
    assert [ta, tb][1..] == [tb];
    assert Join([ta, tb]) == ta + [COMMA] + tb;
  }

  lemma OrderOfTwo(keys: seq<Text>)
    requires |keys| == 2 && keys[0] == [0x62] && keys[1] == [0x61]
    ensures Order(keys, 2) == [1, 0]
  {
    assert Order(keys, 0) == [];
    assert Order(keys, 1) == [0];
    assert Less(keys[1], keys[0]);
  }

  /** The short escapes. */
  lemma ShortEscapes()
    ensures Stringify([0x08]) == [0x22, 0x5c, 0x62, 0x22] && Stringify([0x09]) == [0x22, 0x5c, 0x74, 0x22]
    ensures Stringify([0x0a]) == [0x22, 0x5c, 0x6e, 0x22] && Stringify([0x0c]) == [0x22, 0x5c, 0x66, 0x22]
    ensures Stringify([0x0d]) == [0x22, 0x5c, 0x72, 0x22]
  {
    OneUnit(0x08);
    OneUnit(0x09);
    OneUnit(0x0a);
    OneUnit(0x0c);
    OneUnit(0x0d);
  }

  /** Quote, backslash, and a unit that stands for itself. */
  lemma PlainEscapes()
    ensures Stringify([0x22]) == [0x22, 0x5c, 0x22, 0x22] && Stringify([0x5c]) == [0x22, 0x5c, 0x5c, 0x22]
    ensures Stringify([0x7f]) == [0x22, 0x7f, 0x22]
  {
    OneUnit(0x22);
    OneUnit(0x5c);
    OneUnit(0x7f);
  }

  /** A control character and a lone surrogate. */
  lemma UnicodeEscapes()
    ensures Stringify([0x1f]) == [0x22, 0x5c, 0x75, 0x30, 0x30, 0x31, 0x66, 0x22]
    ensures Stringify([0xd83d]) == [0x22, 0x5c, 0x75, 0x64, 0x38, 0x33, 0x64, 0x22]
  {
    OneUnit(0x1f);
    OneUnit(0xd83d);
  }

  lemma OneUnit(u: Unit)
    ensures Stringify([u]) == [0x22] + StringifyUnit(u) + [0x22]
  {
    assert [u][1..] == [];
    assert StringifyAll([u]) == StringifyUnit(u) + [];
  }
}
