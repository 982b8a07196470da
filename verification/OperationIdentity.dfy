/**
 The operation identity: `encodeOperationIdentityAbi` (packages/operations/src/kernel.ts) and the separately written
 preimage of `identitySeed` (packages/operations/src/limit-orders.ts). Strings stand for their UTF-8 bytes.
 */
module OperationIdentity {
  import opened Common
  import opened ByteStrings
  import opened Abi
  import opened AbiCode

  /** The input both functions take; the digest has been checked by the caller, the rest is checked while encoding. */
  datatype Operation = Operation(
    kind: Bytes, address: Text, deploymentId: Bytes, chainId: int, clientRequestId: Bytes, intentDigest: Text)

  /** "cork.operation/v1/operation-id" */
  const OPERATION_DOMAIN: Bytes := [
    0x63, 0x6f, 0x72, 0x6b, 0x2e, 0x6f, 0x70, 0x65, 0x72, 0x61, 0x74, 0x69, 0x6f, 0x6e, 0x2f, 0x76, 0x31, 0x2f,
    0x6f, 0x70, 0x65, 0x72, 0x61, 0x74, 0x69, 0x6f, 0x6e, 0x2d, 0x69, 0x64]

  lemma DomainIs()
    ensures OPERATION_DOMAIN == T("cork.operation/v1/operation-id")
  {
  }

  function DigestBytes(digest: Text): Word
    requires IsSha256Digest(digest)
  {
    Unhex(digest[7..])
  }

  predicate Encodable(o: Operation) {
    IsAddressText(o.address) && 0 <= o.chainId < UINT256_LIMIT && IsSha256Digest(o.intentDigest)
  }

  /** (string domain, string kind, address, string deploymentId, uint256 chainId, string clientRequestId, bytes32) */
  function Fields(domain: Bytes, o: Operation): seq<Value>
    requires Encodable(o)
  {
    [Dynamic(domain), Dynamic(o.kind), Static(AddressBytes(o.address)), Dynamic(o.deploymentId),
     Static(WordOf(o.chainId)), Dynamic(o.clientRequestId), Static(DigestBytes(o.intentDigest))]
  }

  /** What is hashed: the ABI encoding of the seven fields. */
  function Preimage(domain: Bytes, o: Operation): Option<Bytes>
    requires IsSha256Digest(o.intentDigest)
  {
    if Encodable(o) && Fits(Tuple(Fields(domain, o))) then Some(Enc(Tuple(Fields(domain, o)))) else None
  }

  // ---------------------------------------------------------------- the layout

  lemma LastHeads(ps: seq<Part>, t3: Bytes, digest: Word, offset: nat)
    requires ps == [Part(true, t3), Part(false, digest)]
    ensures Heads(ps, offset) == WordOf(offset) + digest && Tails(ps) == t3
    ensures HeadSize(ps) == 64 && OffsetsFit(ps, offset) == (offset < UINT256_LIMIT)
  {
    assert ps == [Part(true, t3)] + Words([digest]);
    DynamicThenWords(ps, t3, [digest], offset);
    FlattenOne(digest);
  }

  lemma MiddleHeads(ps: seq<Part>, t2: Bytes, chain: Word, t3: Bytes, digest: Word, offset: nat, next: nat)
    requires ps == [Part(true, t2), Part(false, chain), Part(true, t3), Part(false, digest)] && next == offset + |t2|
    ensures Heads(ps, offset) == WordOf(offset) + (chain + (WordOf(next) + digest)) && Tails(ps) == t2 + t3
    ensures HeadSize(ps) == 128 && OffsetsFit(ps, offset) == (offset < UINT256_LIMIT && next < UINT256_LIMIT)
  {
    var p2 := [Part(true, t3), Part(false, digest)];
    var p3 := [Part(false, chain)] + p2;
    assert ps == [Part(true, t2)] + p3;
    LastHeads(p2, t3, digest, next);
    FirstIsStatic(p3, chain, p2, next);
    FirstIsDynamicAt(ps, t2, p3, offset, next);
  }

  lemma AllHeads(ps: seq<Part>, t0: Bytes, t1: Bytes, a: Word, t2: Bytes, chain: Word, t3: Bytes, digest: Word,
                 o1: nat, o2: nat, o3: nat)
    requires ps == [Part(true, t0), Part(true, t1), Part(false, a), Part(true, t2), Part(false, chain), Part(true, t3),
                    Part(false, digest)]
    requires o1 == 224 + |t0| && o2 == o1 + |t1| && o3 == o2 + |t2|
    ensures Join(ps) == WordOf(224) + (WordOf(o1) + (a + (WordOf(o2) + (chain + (WordOf(o3) + digest)))))
                        + (t0 + (t1 + (t2 + t3)))
    ensures OffsetsFit(ps, HeadSize(ps)) == (o3 < UINT256_LIMIT)
  {
    var p4 := [Part(true, t2), Part(false, chain), Part(true, t3), Part(false, digest)];
    var p5 := [Part(false, a)] + p4;
    var p6 := [Part(true, t1)] + p5;
    assert ps == [Part(true, t0)] + p6;
    MiddleHeads(p4, t2, chain, t3, digest, o2, o3);
    FirstIsStatic(p5, a, p4, o2);
    FirstIsDynamicAt(p6, t1, p5, o1, o2);
    FirstIsDynamicAt(ps, t0, p6, 224, o1);
  }

  lemma FlattenLayout(a: seq<Bytes>, b: seq<Bytes>, parts: seq<Bytes>)
    requires |a| == 7 && |b| == 4 && parts == a + b
    ensures Flatten(parts) == a[0] + (a[1] + (a[2] + (a[3] + (a[4] + (a[5] + a[6]))))) + (b[0] + (b[1] + (b[2] + b[3])))
  {
    FlattenSplit(a, b);
    FlattenFront(a);
    FlattenFront(b);
    FlattenFront(a[1..]);
    FlattenFront(b[1..]);
    FlattenFront(a[1..][1..]);
    FlattenFront(b[1..][1..]);
    FlattenFront(a[1..][1..][1..]);
    FlattenFront(a[1..][1..][1..][1..]);
    FlattenFront(a[1..][1..][1..][1..][1..]);
    FlattenOne(a[6]);
    FlattenOne(b[3]);
    assert a[1..][1..][1..][1..][1..][1..] == [a[6]];
    assert b[1..][1..][1..] == [b[3]];
  }

  lemma FlattenFront(parts: seq<Bytes>)
    requires parts != []
    ensures Flatten(parts) == parts[0] + Flatten(parts[1..])
  {
    assert parts == [parts[0]] + parts[1..];
    FlattenSplit([parts[0]], parts[1..]);
    FlattenOne(parts[0]);
  }

  function Tailed(data: Bytes): Bytes {
    Enc(Dynamic(data))
  }

  lemma FieldsFit(fields: seq<Value>, domain: Bytes, o: Operation)
    requires Encodable(o) && fields == Fields(domain, o)
    ensures Fits(Tuple(fields))
            == (OffsetsFit(Parts(fields), HeadSize(Parts(fields))) && StringsFit(domain, o))
  {
    assert Fits(fields[0]) == (|domain| < UINT256_LIMIT) && Fits(fields[1]) == (|o.kind| < UINT256_LIMIT);
    assert Fits(fields[3]) == (|o.deploymentId| < UINT256_LIMIT) && Fits(fields[5]) == (|o.clientRequestId| < UINT256_LIMIT);
    assert Fits(fields[2]) && Fits(fields[4]) && Fits(fields[6]);
  }

  lemma PreimageIs(domain: Bytes, o: Operation, t0: Bytes, t1: Bytes, t2: Bytes, t3: Bytes, o1: nat, o2: nat, o3: nat)
    requires Encodable(o) && t0 == Tailed(domain) && t1 == Tailed(o.kind)
    requires t2 == Tailed(o.deploymentId) && t3 == Tailed(o.clientRequestId)
    requires o1 == 224 + |t0| && o2 == o1 + |t1| && o3 == o2 + |t2|
    ensures Enc(Tuple(Fields(domain, o)))
            == WordOf(224) + (WordOf(o1) + (AddressBytes(o.address) + (WordOf(o2) + (WordOf(o.chainId) + (WordOf(o3)
               + DigestBytes(o.intentDigest)))))) + (t0 + (t1 + (t2 + t3)))
    ensures OffsetsFit(Parts(Fields(domain, o)), HeadSize(Parts(Fields(domain, o)))) == (o3 < UINT256_LIMIT)
  {
    var fields := Fields(domain, o);
    EncIsJoin(fields);
    AllHeads(Parts(fields), t0, t1, AddressBytes(o.address), t2, WordOf(o.chainId), t3, DigestBytes(o.intentDigest), o1, o2, o3);
  }

  // ---------------------------------------------------------------- the two encoders

  /** The lengths of the four strings are numbers of one word. */
  predicate StringsFit(domain: Bytes, o: Operation) {
    && |domain| < UINT256_LIMIT && |o.kind| < UINT256_LIMIT
    && |o.deploymentId| < UINT256_LIMIT && |o.clientRequestId| < UINT256_LIMIT
  }

  predicate TailsAre(tails: seq<Bytes>, domain: Bytes, o: Operation) {
    && StringsFit(domain, o) && |tails| == 4
    && tails[0] == Tailed(domain) && tails[1] == Tailed(o.kind)
    && tails[2] == Tailed(o.deploymentId) && tails[3] == Tailed(o.clientRequestId)
  }

  method FourTails(domain: Bytes, o: Operation) returns (r: Option<seq<Bytes>>)
    ensures r.Some? ==> TailsAre(r.value, domain, o)
    ensures r.None? ==> !StringsFit(domain, o)
  {
    var t0 := Tail(domain);
    var t1 := Tail(o.kind);
    var t2 := Tail(o.deploymentId);
    var t3 := Tail(o.clientRequestId);
    if t0.None? || t1.None? || t2.None? || t3.None? { return None; }
    return Some([t0.value, t1.value, t2.value, t3.value]);
  }

  predicate HeadIs(head: seq<Bytes>, tails: seq<Bytes>, o: Operation, o1: nat, o2: nat, o3: nat)
    requires Encodable(o) && |head| == 7 && |tails| == 4
  {
    && o1 == 224 + |tails[0]| && o2 == o1 + |tails[1]| && o3 == o2 + |tails[2]|
    && head[0] == WordOf(224) && head[1] == WordOf(o1) && head[2] == AddressBytes(o.address)
    && head[3] == WordOf(o2) && head[4] == WordOf(o.chainId) && head[5] == WordOf(o3)
    && head[6] == DigestBytes(o.intentDigest)
  }

  /** `concatBytes([...head, ...dynamic])` */
  method Assemble(head: seq<Bytes>, tails: seq<Bytes>, ghost domain: Bytes, ghost o: Operation,
                  ghost o1: nat, ghost o2: nat, ghost o3: nat)
    returns (bytes: Bytes)
    requires Encodable(o) && |head| == 7 && TailsAre(tails, domain, o) && HeadIs(head, tails, o, o1, o2, o3)
    ensures bytes == Enc(Tuple(Fields(domain, o)))
  {
    bytes := ConcatBytes(head + tails);
    Assembled(domain, o, head, tails, head + tails, o1, o2, o3);
  }

  lemma Assembled(domain: Bytes, o: Operation, head: seq<Bytes>, tails: seq<Bytes>, parts: seq<Bytes>,
                  o1: nat, o2: nat, o3: nat)
    requires Encodable(o) && |head| == 7 && TailsAre(tails, domain, o) && parts == head + tails
    requires HeadIs(head, tails, o, o1, o2, o3)
    ensures Flatten(parts) == Enc(Tuple(Fields(domain, o)))
  {
    FlattenLayout(head, tails, parts);
    PreimageIs(domain, o, tails[0], tails[1], tails[2], tails[3], o1, o2, o3);
  }

  /** When an offset or a number does not fit a word, there is nothing to hash. */
  lemma Overflows(domain: Bytes, o: Operation, tails: seq<Bytes>, o3: nat)
    requires IsSha256Digest(o.intentDigest)
    requires TailsAre(tails, domain, o)
    requires o3 == 224 + |tails[0]| + |tails[1]| + |tails[2]|
    ensures Preimage(domain, o)
            == if Encodable(o) && o3 < UINT256_LIMIT then Some(Enc(Tuple(Fields(domain, o)))) else None
  {
    if Encodable(o) {
      var o1, o2 := 224 + |tails[0]|, 224 + |tails[0]| + |tails[1]|;
      PreimageIs(domain, o, tails[0], tails[1], tails[2], tails[3], o1, o2, o3);
      FieldsFit(Fields(domain, o), domain, o);
    }
  }

  lemma NoTails(domain: Bytes, o: Operation)
    requires IsSha256Digest(o.intentDigest)
    requires !StringsFit(domain, o)
    ensures Preimage(domain, o).None?
  {
    if Encodable(o) { FieldsFit(Fields(domain, o), domain, o); }
  }

  /** `encodeOperationIdentityAbi`: heads are pushed while `dynamicOffset` runs over the tails. */
  method EncodeOperationIdentityAbi(o: Operation) returns (r: Option<Bytes>)
    requires IsSha256Digest(o.intentDigest)
    ensures r == Preimage(OPERATION_DOMAIN, o)
  {
    var dynamicValues := FourTails(OPERATION_DOMAIN, o);
    if dynamicValues.None? {
      NoTails(OPERATION_DOMAIN, o);
      return None;
    }
    var tails := dynamicValues.value;
    r := PushHeads(o, tails, OPERATION_DOMAIN);
  }

  method PushHeads(o: Operation, tails: seq<Bytes>, ghost domain: Bytes) returns (r: Option<Bytes>)
    requires IsSha256Digest(o.intentDigest)
    requires TailsAre(tails, domain, o)
    ensures r == Preimage(domain, o)
  {
    var dynamicOffset := 7 * 32;
    var h0 := UintWord(dynamicOffset);
    dynamicOffset := dynamicOffset + |tails[0]|;
    ghost var o1 := dynamicOffset;
    var h1 := UintWord(dynamicOffset);
    dynamicOffset := dynamicOffset + |tails[1]|;
    ghost var o2 := dynamicOffset;
    var h2 := AddressWord(o.address);
    var h3 := UintWord(dynamicOffset);
    dynamicOffset := dynamicOffset + |tails[2]|;
    var h4 := UintWord(o.chainId);
    var h5 := UintWord(dynamicOffset);
    Overflows(domain, o, tails, dynamicOffset);
    if h0.None? || h1.None? || h2.None? || h3.None? || h4.None? || h5.None? { return None; }
    var h6 := HexToBytes(o.intentDigest[7..]);
    var head: seq<Bytes> := [h0.value, h1.value, h2.value, h3.value, h4.value, h5.value, h6[..]];
    var bytes := Assemble(head, tails, domain, o, o1, o2, dynamicOffset);
    return Some(bytes);
  }

  /** The bytes `identitySeed` hashes, its offsets bumped inside the head. */
  method IdentitySeedPreimage(domain: Bytes, o: Operation) returns (r: Option<Bytes>)
    requires IsSha256Digest(o.intentDigest)
    ensures r == Preimage(domain, o)
  {
    var dynamic := FourTails(domain, o);
    if dynamic.None? {
      NoTails(domain, o);
      return None;
    }
    r := SeedHeads(o, dynamic.value, domain);
  }

  method SeedHeads(o: Operation, tails: seq<Bytes>, ghost domain: Bytes) returns (r: Option<Bytes>)
    requires IsSha256Digest(o.intentDigest)
    requires TailsAre(tails, domain, o)
    ensures r == Preimage(domain, o)
  {
    var offset := 7 * 32;
    var h0 := UintWord(offset);
    offset := offset + |tails[0]|;
    ghost var o1 := offset;
    var h1 := UintWord(offset);
    var h2 := AddressWord(o.address);
    offset := offset + |tails[1]|;
    ghost var o2 := offset;
    var h3 := UintWord(offset);
    var h4 := UintWord(o.chainId);
    offset := offset + |tails[2]|;
    var h5 := UintWord(offset);
    Overflows(domain, o, tails, offset);
    if h0.None? || h1.None? || h2.None? || h3.None? || h4.None? || h5.None? { return None; }
    var h6 := HexToBytes(o.intentDigest[7..]);
    var head: seq<Bytes> := [h0.value, h1.value, h2.value, h3.value, h4.value, h5.value, h6[..]];
    var bytes := Assemble(head, tails, domain, o, o1, o2, offset);
    return Some(bytes);
  }

  // ---------------------------------------------------------------- what the identity binds

  const IDENTITY_TYPE := TupleType([BytesType, BytesType, WordType, BytesType, WordType, BytesType, WordType])

  lemma WordsDetermineNumbers(n: nat, m: nat)
    requires n < UINT256_LIMIT && m < UINT256_LIMIT && WordOf(n) == WordOf(m)
    ensures n == m
  {
    LimitIsPower();
    ValueOfBigEndian(n, 32);
    ValueOfBigEndian(m, 32);
  }

  lemma AddressesDetermine(a: Text, b: Text)
    requires IsAddressText(a) && IsAddressText(b) && AddressBytes(a) == AddressBytes(b)
    ensures a == b
  {
    assert AddressBytes(a)[12..] == BytesOfText(a) && AddressBytes(b)[12..] == BytesOfText(b);
    TextRoundTrip(a);
    TextRoundTrip(b);
  }

  lemma DigestsDetermine(a: Text, b: Text)
    requires IsSha256Digest(a) && IsSha256Digest(b) && DigestBytes(a) == DigestBytes(b)
    ensures a == b
  {
    HexOfUnhex(a[7..]);
    HexOfUnhex(b[7..]);
    assert a == a[..7] + a[7..] && b == b[..7] + b[7..];
  }

  lemma FieldsDetermine(domain: Bytes, o: Operation, domain': Bytes, o': Operation, v: seq<Value>, w: seq<Value>)
    requires IsSha256Digest(o.intentDigest) && IsSha256Digest(o'.intentDigest)
    requires Preimage(domain, o).Some? && Preimage(domain', o').Some?
    requires v == Fields(domain, o) && w == Fields(domain', o') && v == w
    ensures domain == domain' && o == o'
  {
    assert v[0] == w[0] && v[1] == w[1] && v[2] == w[2] && v[3] == w[3] && v[4] == w[4] && v[5] == w[5] && v[6] == w[6];
    WordsDetermineNumbers(o.chainId, o'.chainId);
    AddressesDetermine(o.address, o'.address);
    DigestsDetermine(o.intentDigest, o'.intentDigest);
  }

  /**
   Equal preimages mean the same domain string, account kind, address, deployment, chain, request and intent digest.
   Two identities can therefore only coincide by a collision of the hash.
   */
  lemma IdentityIsInjective(domain: Bytes, o: Operation, domain': Bytes, o': Operation)
    requires IsSha256Digest(o.intentDigest) && IsSha256Digest(o'.intentDigest)
    requires Preimage(domain, o).Some? && Preimage(domain, o) == Preimage(domain', o')
    ensures domain == domain' && o == o'
  {
    var v, w := Fields(domain, o), Fields(domain', o');
    assert HasType(Tuple(v), IDENTITY_TYPE) && HasType(Tuple(w), IDENTITY_TYPE);
    EncodingIsInjective(Tuple(v), Tuple(w), IDENTITY_TYPE);
    FieldsDetermine(domain, o, domain', o', v, w);
  }

  // ---------------------------------------------------------------- reading a preimage

  /** Domain and operation out of the seven decoded fields, each from its own position. */
  function ReadIdentity(v: Value): Option<(Bytes, Operation)> {
    if && v.Tuple? && |v.fields| == 7
       && v.fields[0].Dynamic? && v.fields[1].Dynamic? && v.fields[2].Static? && v.fields[3].Dynamic?
       && v.fields[4].Static? && v.fields[5].Dynamic? && v.fields[6].Static?
    then Some((v.fields[0].data,
               Operation(v.fields[1].data, TextOfBytes(v.fields[2].word[12..]), v.fields[3].data, BigValue(v.fields[4].word),
                         v.fields[5].data, SHA256_PREFIX + Hex(v.fields[6].word))))
    else None
  }

  /** "sha256:" */
  const SHA256_PREFIX: Text := [0x73, 0x68, 0x61, 0x32, 0x35, 0x36, 0x3a]

  function DecodeIdentity(preimage: Bytes): Option<(Bytes, Operation)> {
    var v := Dec(IDENTITY_TYPE, preimage, 0);
    if v.Some? then ReadIdentity(v.value) else None
  }

  lemma DigestIsRead(digest: Text)
    requires IsSha256Digest(digest)
    ensures SHA256_PREFIX + Hex(DigestBytes(digest)) == digest
  {
    HexOfUnhex(digest[7..]);
    assert digest[..7] == SHA256_PREFIX;
    assert digest == digest[..7] + digest[7..];
  }

  lemma FieldsAreRead(domain: Bytes, o: Operation, address: Word, chain: Word, digest: Word)
    requires Encodable(o)
    requires address == AddressBytes(o.address) && chain == WordOf(o.chainId) && digest == DigestBytes(o.intentDigest)
    ensures ReadIdentity(Tuple(Fields(domain, o)))
            == Some((domain, Operation(o.kind, TextOfBytes(address[12..]), o.deploymentId, BigValue(chain), o.clientRequestId,
                                       SHA256_PREFIX + Hex(digest))))
  {
  }

  lemma NumberIsRead(n: nat)
    requires n < UINT256_LIMIT
    ensures BigValue(WordOf(n)) == n
  {
    LimitIsPower();
    ValueOfBigEndian(n, 32);
  }

  lemma AddressIsRead(address: Text)
    requires IsAddressText(address)
    ensures TextOfBytes(AddressBytes(address)[12..]) == address
  {
    TextRoundTrip(address);
    assert AddressBytes(address)[12..] == BytesOfText(address);
  }

  /** A decoder that knows only the types finds the domain, and every field of the operation, in the bytes that are hashed. */
  lemma IdentityIsRead(domain: Bytes, o: Operation)
    requires IsSha256Digest(o.intentDigest) && Preimage(domain, o).Some?
    ensures DecodeIdentity(Preimage(domain, o).value) == Some((domain, o))
  {
    var v := Tuple(Fields(domain, o));
    assert HasType(v, IDENTITY_TYPE);
    assert IsAt(Enc(v), 0, Enc(v));
    DecodesWhatWasEncoded(v, IDENTITY_TYPE, Enc(v), 0);
    FieldsAreRead(domain, o, AddressBytes(o.address), WordOf(o.chainId), DigestBytes(o.intentDigest));
    NumberIsRead(o.chainId);
    AddressIsRead(o.address);
    DigestIsRead(o.intentDigest);
  }
}
