/**
 The producer of submission requests (packages/operations/src/limit-order-lifecycle.ts) against the digest
 recheck of the service that receives them (packages/gateway/src/submission.ts).
 */
module Lifecycle {
  import opened Common
  import opened CanonicalJson
  import opened CanonicalJsonProofs
  import opened SubmissionStore
  import opened Submission
  import SubmissionTheorems

  /** The SHA-256 digest, as text, of the UTF-8 bytes of a text. */
  type TextDigest = Text -> Text

  /** The world of a gateway whose request digest is `sha256Canonical`. */
  ghost predicate IsGateway(w: World, digest: TextDigest) {
    forall v: Json :: w.requestDigest(v) == digest(CanonicalText(v))
  }

  /** A finalized order that verified against its agreement, its signature and the current authority. */
  datatype VerifiedOrder = VerifiedOrder(order: Json, chainId: Text)

  /** Verification leaves a closed object whose chain id is a canonical decimal. */
  predicate IsVerified(v: VerifiedOrder) {
    v.order.Obj? && IsPlain(v.order) && IsCanonicalDecimal(v.chainId)
  }

  /** `createLimitOrderSubmissionRequest`, with the kernel's printer under the digest. `None` where it throws. */
  function CreateSubmissionRequest(digest: TextDigest, principalId: Text, profile: Text, clientRequestId: Text,
                                   verified: VerifiedOrder): Option<Request>
  {
    if |principalId| == 0 || |profile| == 0 || |clientRequestId| == 0 || |clientRequestId| > 128 then None
    else
      var text := CanonicalizeJson(RequestProjection(SCHEMA_VERSION, profile, verified.chainId, verified.order));
      if text.None? then None
      else Some(Request(SCHEMA_VERSION, principalId, profile, clientRequestId, verified.chainId, verified.order,
                        digest(text.value)))
  }

  lemma DecimalIsScalar(t: Text)
    requires forall i | 0 <= i < |t| :: IsDigit(t[i])
    ensures IsScalarText(t)
  {
  }

  lemma {:induction false} AsciiText(t: Text)
    requires forall i | 0 <= i < |t| :: t[i] < 0x80
    ensures IsScalarText(t)
  {
    if t != [] { AsciiText(t[1..]); }
  }

  lemma LiteralIsScalar(s: string)
    requires forall i | 0 <= i < |s| :: s[i] as int < 0x80
    ensures IsScalarText(T(s))
  {
    AsciiText(T(s));
  }

  lemma VersionIsAscii(s: string)
    requires s == "cork.limit-order-submission/v1"
    ensures forall i | 0 <= i < |s| :: s[i] as int < 0x80
  {
  }

  lemma SchemaVersionIsScalar()
    ensures IsScalarText(SCHEMA_VERSION)
  {
    VersionIsAscii("cork.limit-order-submission/v1");
    LiteralIsScalar("cork.limit-order-submission/v1");
  }

  lemma NamesAreScalar()
    ensures IsScalarText(T("schemaVersion")) && IsScalarText(T("upstreamProfileId"))
    ensures IsScalarText(T("chainId")) && IsScalarText(T("signedOrder"))
  {
    LiteralIsScalar("schemaVersion");
    LiteralIsScalar("upstreamProfileId");
    LiteralIsScalar("chainId");
    LiteralIsScalar("signedOrder");
  }

  lemma FourScalarEntries(a: Entry, b: Entry, c: Entry, d: Entry)
    requires IsScalarText(a.key) && IsScalarText(b.key) && IsScalarText(c.key) && IsScalarText(d.key)
    ensures IsScalarJson(Obj([a, b, c, d]))
            <==> IsScalarJson(a.value) && IsScalarJson(b.value) && IsScalarJson(c.value) && IsScalarJson(d.value)
  {
    var entries := [a, b, c, d];
    assert entries[0] == a && entries[1] == b && entries[2] == c && entries[3] == d;
  }

  lemma ProjectionIsScalar(profile: Text, chainId: Text, order: Json)
    requires IsCanonicalDecimal(chainId)
    ensures IsScalarJson(RequestProjection(SCHEMA_VERSION, profile, chainId, order))
            <==> IsScalarText(profile) && IsScalarJson(order)
  {
    var a, b := Entry(T("schemaVersion"), Str(SCHEMA_VERSION)), Entry(T("upstreamProfileId"), Str(profile));
    var c, d := Entry(T("chainId"), Str(chainId)), Entry(T("signedOrder"), order);
    DecimalIsScalar(chainId);
    SchemaVersionIsScalar();
    NamesAreScalar();
    FourScalarEntries(a, b, c, d);
    assert IsScalarJson(a.value) && IsScalarJson(c.value);
  }

  /**
   The producer throws exactly on an empty or overlong identifier or on a lone surrogate; every request it
   does produce passes the receiving service's validation, digest recheck included.
   */
  lemma EveryCreatedRequestIsAccepted(w: World, digest: TextDigest, principalId: Text, profile: Text,
                                      clientRequestId: Text, verified: VerifiedOrder)
    requires IsGateway(w, digest) && IsVerified(verified)
    ensures var created := CreateSubmissionRequest(digest, principalId, profile, clientRequestId, verified);
            && (created.Some? <==>
                  ValidKey(Key(principalId, profile, clientRequestId))
                  && IsScalarText(profile) && IsScalarJson(verified.order))
            && (created.Some? ==> ValidRequest(w, created.value))
            && (created.Some? ==> created.value.KeyOf() == Key(principalId, profile, clientRequestId))
            && (created.Some? ==> created.value.chainId == verified.chainId && created.value.signedOrder == verified.order)
  {
    var v := RequestProjection(SCHEMA_VERSION, profile, verified.chainId, verified.order);
    PrintersAgree(v);
    ProjectionIsScalar(profile, verified.chainId, verified.order);
  }

  // ---------------------------------------------------------------- the text that is hashed

  /** A literal between quotes. */
  function Quoted(s: string): Text {
    [0x22] + T(s) + [0x22]
  }

  /** Printable ASCII without quote and backslash. */
  predicate IsBare(s: string) {
    forall i | 0 <= i < |s| :: 0x20 <= s[i] as int < 0x7f && s[i] as int != 0x22 && s[i] as int != 0x5c
  }

  lemma {:induction false} BareText(t: Text)
    requires forall i | 0 <= i < |t| :: 0x20 <= t[i] < 0x7f && t[i] != 0x22 && t[i] != 0x5c
    ensures StringifyAll(t) == t
  {
    if t != [] {
      BareText(t[1..]);
      assert t == [t[0]] + t[1..];
    }
  }

  lemma BareName(s: string)
    requires IsBare(s)
    ensures Stringify(T(s)) == Quoted(s)
  {
    var t := T(s);
    forall i | 0 <= i < |t| ensures 0x20 <= t[i] < 0x7f && t[i] != 0x22 && t[i] != 0x5c {
      assert t[i] == s[i] as int % 0x1_0000;
    }
    BareText(t);
    QuotedText(t);
  }

  lemma QuotedText(t: Text)
    requires StringifyAll(t) == t
    ensures Stringify(t) == [0x22] + t + [0x22]
  {
  }

  lemma NamesAreBare()
    ensures IsBare("schemaVersion") && IsBare("chainId") && IsBare("upstreamProfileId") && IsBare("signedOrder")
  {
  }

  lemma VersionIsBare(s: string)
    requires s == "cork.limit-order-submission/v1"
    ensures IsBare(s)
  {
  }

  lemma NamesBegin()
    ensures |T("schemaVersion")| == 13 && T("schemaVersion")[0] == 0x73 && T("schemaVersion")[1] == 0x63
    ensures |T("upstreamProfileId")| == 17 && T("upstreamProfileId")[0] == 0x75
    ensures |T("chainId")| == 7 && T("chainId")[0] == 0x63
    ensures |T("signedOrder")| == 11 && T("signedOrder")[0] == 0x73 && T("signedOrder")[1] == 0x69
  {
  }

  lemma FirstDiffers(a: Text, b: Text)
    requires |a| > 0 && |b| > 0 && a[0] != b[0]
    ensures Less(a, b) <==> a[0] < b[0]
  {
  }

  lemma SecondDiffers(a: Text, b: Text)
    requires |a| > 1 && |b| > 1 && a[0] == b[0] && a[1] != b[1]
    ensures Less(a, b) <==> a[1] < b[1]
  {
    FirstDiffers(a[1..], b[1..]);
  }

  /** Keys of which the third comes first, then the first, the fourth and the second. */
  lemma OrderOfFour(keys: seq<Text>)
    requires |keys| == 4 && !Less(keys[1], keys[0]) && Less(keys[2], keys[0])
    requires !Less(keys[3], keys[2]) && !Less(keys[3], keys[0]) && Less(keys[3], keys[1])
    ensures Order(keys, 4) == [2, 0, 3, 1]
  {
    assert Order(keys, 0) == [] && Order(keys, 1) == [0];
    assert Order(keys, 2) == [0, 1];
    assert Order(keys, 3) == [2, 0, 1];
    InsertedThird(keys, 3, 2, 0, 1);
  }

  lemma InsertedThird(keys: seq<Text>, i: nat, x: nat, y: nat, z: nat)
    requires i < |keys| && x < |keys| && y < |keys| && z < |keys|
    requires !Less(keys[i], keys[x]) && !Less(keys[i], keys[y]) && Less(keys[i], keys[z])
    ensures InsertIndex(keys, i, [x, y, z]) == [x, y, i, z]
  {
    assert [x, y, z][1..] == [y, z] && [y, z][1..] == [z];
    assert InsertIndex(keys, i, [z]) == [i, z];
    assert InsertIndex(keys, i, [y, z]) == [y, i, z];
  }

  /** The order of the four names: chain id, schema version, signed order, profile. */
  lemma OrderOfNames(keys: seq<Text>)
    requires keys == [T("schemaVersion"), T("upstreamProfileId"), T("chainId"), T("signedOrder")]
    ensures Order(keys, 4) == [2, 0, 3, 1]
  {
    NamesBegin();
    NamesCompare(keys[0], keys[1], keys[2], keys[3]);
    OrderOfFour(keys);
  }

  lemma NamesCompare(a: Text, b: Text, c: Text, d: Text)
    requires |a| > 1 && |b| > 1 && |c| > 1 && |d| > 1
    requires a[0] == 0x73 && a[1] == 0x63 && b[0] == 0x75 && c[0] == 0x63 && d[0] == 0x73 && d[1] == 0x69
    ensures !Less(b, a) && Less(c, a) && !Less(d, c) && !Less(d, a) && Less(d, b)
  {
    FirstDiffers(b, a);
    FirstDiffers(c, a);
    FirstDiffers(d, c);
    FirstDiffers(d, b);
    SecondDiffers(d, a);
  }

  lemma JoinOfFour(a: Text, b: Text, c: Text, d: Text)
    ensures Join([a, b, c, d]) == a + [0x2c] + (b + [0x2c] + (c + [0x2c] + d))
  {
    assert [a, b, c, d][1..] == [b, c, d] && [b, c, d][1..] == [c, d] && [c, d][1..] == [d];
    assert Join([c, d]) == c + [0x2c] + d;
    assert Join([b, c, d]) == b + [0x2c] + Join([c, d]);
  }

  function Member(e: Entry): Text {
    Stringify(e.key) + [0x3a] + CanonicalText(e.value)
  }

  lemma FourMembers(a: Entry, b: Entry, c: Entry, d: Entry)
    ensures MemberTexts([a, b, c, d]) == [Member(a), Member(b), Member(c), Member(d)]
  {
    assert [a, b, c, d][1..] == [b, c, d] && [b, c, d][1..] == [c, d] && [c, d][1..] == [d] && [d][1..] == [];
    assert MemberTexts([d]) == [Member(d)];
    assert MemberTexts([c, d]) == [Member(c), Member(d)];
    assert MemberTexts([b, c, d]) == [Member(b), Member(c), Member(d)];
  }

  lemma TextOfFour(a: Entry, b: Entry, c: Entry, d: Entry)
    requires Order(Keys([a, b, c, d]), 4) == [2, 0, 3, 1]
    ensures CanonicalText(Obj([a, b, c, d]))
            == [0x7b] + (Member(c) + [0x2c] + (Member(a) + [0x2c] + (Member(d) + [0x2c] + Member(b)))) + [0x7d]
  {
    var texts := [Member(a), Member(b), Member(c), Member(d)];
    FourMembers(a, b, c, d);
    assert Pick(texts, [2, 0, 3, 1]) == [Member(c), Member(a), Member(d), Member(b)];
    JoinOfFour(Member(c), Member(a), Member(d), Member(b));
  }

  lemma NamedMember(name: string, v: Json, e: Entry)
    requires e == Entry(T(name), v) && IsBare(name)
    ensures Member(e) == Quoted(name) + [0x3a] + CanonicalText(v)
  {
    BareName(name);
  }

  /** The text under the request digest, written out. */
  lemma ProjectionText(profile: Text, chainId: Text, order: Json)
    ensures CanonicalText(RequestProjection(SCHEMA_VERSION, profile, chainId, order))
            == [0x7b] + (Quoted("chainId") + [0x3a] + Stringify(chainId)
                         + [0x2c] + (Quoted("schemaVersion") + [0x3a] + Quoted("cork.limit-order-submission/v1")
                                     + [0x2c] + (Quoted("signedOrder") + [0x3a] + CanonicalText(order)
                                                 + [0x2c] + (Quoted("upstreamProfileId") + [0x3a] + Stringify(profile)))))
               + [0x7d]
  {
    var a, b := Entry(T("schemaVersion"), Str(SCHEMA_VERSION)), Entry(T("upstreamProfileId"), Str(profile));
    var c, d := Entry(T("chainId"), Str(chainId)), Entry(T("signedOrder"), order);
    OrderOfNames(Keys([a, b, c, d]));
    TextOfFour(a, b, c, d);
    NamesAreBare();
    VersionIsBare("cork.limit-order-submission/v1");
    BareName("cork.limit-order-submission/v1");
    NamedMember("schemaVersion", a.value, a);
    NamedMember("upstreamProfileId", b.value, b);
    NamedMember("chainId", c.value, c);
    NamedMember("signedOrder", d.value, d);
  }

  lemma ProjectionIsPlain(profile: Text, chainId: Text, order: Json)
    requires IsPlain(order)
    ensures IsPlain(RequestProjection(SCHEMA_VERSION, profile, chainId, order))
  {
    var v := RequestProjection(SCHEMA_VERSION, profile, chainId, order);
    assert |T("schemaVersion")| == 13 && |T("upstreamProfileId")| == 17 && |T("chainId")| == 7 && |T("signedOrder")| == 11;
  }

  lemma ProjectionKeys(profile: Text, chainId: Text, order: Json, entries: seq<Entry>)
    requires entries == RequestProjection(SCHEMA_VERSION, profile, chainId, order).entries
    ensures |entries| == 4 && entries[2].value == Str(chainId) && entries[3].value == order
    ensures Keys(entries) == [T("schemaVersion"), T("upstreamProfileId"), T("chainId"), T("signedOrder")]
  {
  }

  /** The canonical text of the projection determines the chain id and the order up to key order. */
  lemma ProjectionTextInjective(profile: Text, chainId: Text, order: Json, chainId': Text, order': Json)
    requires IsPlain(order) && IsPlain(order')
    requires CanonicalText(RequestProjection(SCHEMA_VERSION, profile, chainId, order))
             == CanonicalText(RequestProjection(SCHEMA_VERSION, profile, chainId', order'))
    ensures chainId == chainId' && Normalize(order) == Normalize(order')
  {
    var v, v' := RequestProjection(SCHEMA_VERSION, profile, chainId, order), RequestProjection(SCHEMA_VERSION, profile, chainId', order');
    ProjectionIsPlain(profile, chainId, order);
    ProjectionIsPlain(profile, chainId', order');
    SameTextIffSameValue(v, v');
    ProjectionKeys(profile, chainId, order, v.entries);
    ProjectionKeys(profile, chainId', order', v'.entries);
    SameObjectSameEntry(v.entries, v'.entries, 2);
    SameObjectSameEntry(v.entries, v'.entries, 3);
  }

  lemma SameObjectSameEntry(entries: seq<Entry>, entries': seq<Entry>, i: nat)
    requires Keys(entries) == Keys(entries') && DistinctKeys(entries) && i < |entries|
    requires Normalize(Obj(entries)) == Normalize(Obj(entries'))
    ensures |entries| == |entries'| && Normalize(entries[i].value) == Normalize(entries'[i].value)
  {
    assert |Keys(entries)| == |entries| && |Keys(entries')| == |entries'|;
    var order := Order(Keys(entries), |entries|);
    OrderSorts(Keys(entries), |entries|);
    assert i in order;
    var k :| 0 <= k < |order| && order[k] == i;
    NormalizedAt(entries, i);
    NormalizedAt(entries', i);
    assert Pick(NormalizeEntries(entries), order)[k] == NormalizeEntries(entries)[i];
    assert Pick(NormalizeEntries(entries'), order)[k] == NormalizeEntries(entries')[i];
  }

  lemma NormalizedAt(entries: seq<Entry>, i: nat)
    requires i < |entries|
    ensures NormalizeEntries(entries)[i] == Entry(entries[i].key, Normalize(entries[i].value))
  {
    MemberTextAt(entries, i);
  }

  /**
   Over every run, two upstream submissions under one key carry the same chain id and the same signed order up
   to key order, unless the digest maps two different canonical texts to one value.
   */
  lemma SubmissionsCarryOneOrder(w: World, digest: TextDigest, run: seq<Label>, p: nat, q: nat)
    requires IsGateway(w, digest)
    requires var log := After(w, run).log;
             && p < |log| && q < |log| && log[p].SubmitIssued? && log[q].SubmitIssued? && log[p].key == log[q].key
             && IsPlain(log[p].signedOrder) && IsPlain(log[q].signedOrder)
    ensures var log := After(w, run).log;
            var profile := log[p].key.upstreamProfileId;
            var text := CanonicalText(RequestProjection(SCHEMA_VERSION, profile, log[p].chainId, log[p].signedOrder));
            var text' := CanonicalText(RequestProjection(SCHEMA_VERSION, profile, log[q].chainId, log[q].signedOrder));
            || (log[p].chainId == log[q].chainId && Normalize(log[p].signedOrder) == Normalize(log[q].signedOrder))
            || (text != text' && digest(text) == digest(text'))
  {
    var log := After(w, run).log;
    SubmissionTheorems.SubmissionsAgree(w, run, p, q);
    var profile := log[p].key.upstreamProfileId;
    var v := RequestProjection(SCHEMA_VERSION, profile, log[p].chainId, log[p].signedOrder);
    var v' := RequestProjection(SCHEMA_VERSION, profile, log[q].chainId, log[q].signedOrder);
    if CanonicalText(v) == CanonicalText(v') {
      ProjectionTextInjective(profile, log[p].chainId, log[p].signedOrder, log[q].chainId, log[q].signedOrder);
    }
  }
}
