# Verified models of the Cork operations, gateway and node packages

These Dafny modules model the parts of the repository on which money and idempotency depend, and prove what they
promise for every input, every run or every failure. `dafny verify dfyconfig.toml` checks all of it.

**Durable order submission** (`SubmissionStore`, `Submission`, `SubmissionInvariant`, `SubmissionSteps`,
`SubmissionTheorems`, `SubmissionProgress`, `ReconciliationProgress`, `SubmissionRaces`, `Lifecycle`). Any number of service instances share one record per idempotency key. The service is
a state machine in which every `await` is three steps: a call is issued, it takes effect, its answer resumes the code.
An invocation can stall or crash between any two of them, clocks return anything, and the upstream answers anything.
A ghost log keeps the upstream calls. One inductive invariant holds after every run, and the theorems follow from it:
at most two submissions per key, the second only after absence was proved, terminal records never change, and so on.
`SubmissionProgress` and `ReconciliationProgress` say what is achieved, field by field: from any reachable state, what an
undisturbed call stores and returns for each answer of the upstream. `SubmissionRaces` says what an overtaken call reports.
Safety rests on version fencing alone. Nothing is claimed about how many calls are in flight at once: a lease can run out
while the first call is still outstanding.

**Canonical JSON** (`CanonicalJson`, `CanonicalJsonProofs`, `CanonicalJsonMeaning`). The two independently written printers are modelled
separately. A parser that knows nothing about them recovers every printed value, so texts are equal exactly when values
are, up to key order; and the printers agree on every value made of whole Unicode scalars. `JSON.stringify` of a string
follows section 25.5.2.3 of ECMA-262. A number stands for the text it prints as.

**Hashes** (`Sha256`, `Sha256Constants`, `Sha256Code`, `Keccak`, `KeccakTables`, `KeccakCode`, `KeccakSponge`). `Sha256` and `Keccak` are
the standards, FIPS 180-4 on words and FIPS 202 on bit strings. The code modules are the loops over JavaScript numbers
and big integers: signed 32-bit operators, unbounded sums, masks, tables and buffers updated in place. Each is proved
to compute its standard for every input, and the two Keccak tables are proved to hold what the walk and the shift
register of FIPS 202 produce. The SHA-256 constants are proved to be what sections 4.2.2 and 5.3.3
of FIPS 180-4 say they are: leading bits of the roots of the first primes.

**ABI encoders** (`ByteStrings`, `Abi`, `AbiCode`, `Multicall`, `OperationIdentity`, `CompactSignatures`, `FillCalls`).
`Abi` is the section "Formal Specification of the Encoding" of the Solidity contract ABI for words, byte strings, tuples and arrays, with a
decoder that is given only the type and is proved to invert it. The hand-written encoders, with their buffers and
running offsets, are proved to write exactly that encoding, or to throw exactly when it does not exist, so all of them
inherit the round trip. Function selectors are parameters. The tuple of the bundler call is decoded by the signature the
encoder itself names (packages/operations/src/actions.ts:658); the separate decoder ABI in
packages/gateway/src/calldata.ts:11 orders the components differently, and nothing here is about that decoder.

**Work admission** (`Controls`, `Router`). The controller and its leases are classes. Over every interleaving of router
calls and repeated releases the usage is the exact sum over live leases, limits hold, the reserve is honoured, and all
usage returns to zero. "In flight" means between admission and `finally`: a handler that was cancelled can outlive its
lease.

**Limit orders** (`MakerTraits`, `TakerFill`, `TakerPreparation`, `FirstOccurrence`, `Inventory`, `MakerAllowance`,
`MakerPreparation`). Packed traits, ceiling division, partial fills, the calldata of a prepared fill, and the path from a
cursor listing over chain observations to an allowance.

**Paginated reader** (`Phoenix`, `PhoenixMeaning`). The loop with its exits, against "the first `maxItems` distinct items of the pages read".

**Releases and publication** (`Release`, `ReleaseRuntime`, `SafeMarket`). The controller's store is tied to the history of
its calls, which gives the meaning of `callable`; a refresh publishes all or nothing; a publication swaps directories over
a file system in which any operation can fail and the non-atomic ones can fail halfway.

`None`, `Thrown` or a null result stands for a thrown error. Readers, upstreams, servers and faults are functions from the
number of the call to its answer, so a theorem about all such functions is one about all behaviours of the outside.

## Model

| member | source | states |
|---|---|---|
| `SubmissionTheorems.AtMostTwoSubmissions` | packages/gateway/src/submission.ts:551-636 | After every run, with any interleaving, crashes and clocks, the upstream was asked to submit at most `attemptCount` times under a key, never more than twice, and never without a record |
| `SubmissionTheorems.AttemptsAreDistinct` | packages/gateway/src/submission.ts:551-592 | Two upstream submissions under one key belong to different durable attempts |
| `SubmissionTheorems.RetryNeedsProvedAbsence` | packages/gateway/src/submission.ts:718-735 | A submission of the second attempt comes after the durable write that stored proved absence for the first |
| `SubmissionTheorems.TwoSubmissionsNeedOneGrant` | packages/gateway/src/submission.ts:718-735 | Before every second submission under a key, a record that grants the retry had been stored: absence was proved while the attempt count was one |
| `SubmissionTheorems.SubmissionsAgree` | packages/gateway/src/submission.ts:164-192 | All upstream submissions under a key carry content whose projection has the one stored request digest |
| `SubmissionTheorems.ProjectionInjective` | packages/gateway/src/submission.ts:145-155 | The projection that the digest covers determines the chain id and the signed order |
| `SubmissionTheorems.RunExtends` | packages/gateway/src/submission-store.ts:570-593 | Along a run the history of every key only grows and stops growing at a terminal record; the log of calls only grows |
| `SubmissionTheorems.TerminalNeverChanges` | packages/gateway/src/submission-store.ts:458-463 | Once a record is accepted or rejected, no continuation of the run changes it |
| `SubmissionTheorems.HistoryIsWellFormed` | packages/gateway/src/submission-store.ts:390-501 | Every stored record is valid, every write is one of the permitted moves, and the version counts the writes |
| `SubmissionTheorems.StoredRecordsAreSound` | packages/gateway/src/submission-store.ts:390-501 | Every record ever stored satisfies, field by field, what its state demands and forbids, and its version is its place in the history |
| `SubmissionTheorems.ValidRecordIs` | packages/gateway/src/submission-store.ts:390-501 | The validator accepts exactly these records |
| `SubmissionTheorems.ExpectationMeans` | packages/gateway/src/submission-store.ts:503-538 | A compare-and-set built on one record meets another exactly when version, state, phase and the lease's purpose and owner agree |
| `SubmissionTheorems.HistoryIsMonotone` | packages/gateway/src/submission.ts:194-234 | Along the history of a key the request digest is constant, evidence is only appended, and the attempt count never falls |
| `SubmissionTheorems.AttemptsCountDurableStarts` | packages/gateway/src/submission.ts:551-592 | The attempt count is the number of durable starts stored so far |
| `SubmissionTheorems.WritersRespectLeases` | packages/gateway/src/submission.ts:440-549 | Every waiting compare-and-set was built by the owner of the lease it replaces or after that lease ran out, and makes a permitted move |
| `SubmissionTheorems.SupersededWriterIsFenced` | packages/gateway/src/submission-store.ts:503-545 | A writer that expects an older version can never change the record, now or later |
| `SubmissionTheorems.TerminalResultsAgree` | packages/gateway/src/submission.ts:236-260 | Two terminal results ever returned for a key, at any two points of a run, are equal except for the replay flag |
| `SubmissionTheorems.TerminalContentIsUpstream` | packages/gateway/src/submission.ts:599-636 | A stored terminal payload was returned by an upstream submit or reconcile call that had been issued for that key |
| `SubmissionTheorems.TerminalResultIsStored` | packages/gateway/src/submission.ts:236-260 | What a caller was told is what is stored |
| `SubmissionTheorems.FinishedKeyReplays` | packages/gateway/src/submission.ts:338-438 | Submitting a finished key again ends with the stored result after one repository call; no record is written and the upstream is not called |
| `SubmissionSteps.StepInv` | packages/gateway/src/submission.ts:338-782 | Every step of every invocation keeps the global invariant: store, calls, attempts, log and content |
| `SubmissionSteps.RunInv` | packages/gateway/src/submission.ts:338-782 | The global invariant holds after every run |
| `SubmissionInvariant.AfterSubmitOk` | packages/gateway/src/submission.ts:599-636 | Whatever the upstream answers to a submission, the code goes on in a state the invariant allows |
| `SubmissionInvariant.AfterReconcileOk` | packages/gateway/src/submission.ts:662-760 | Whatever the upstream answers to a reconciliation, the code goes on in a state the invariant allows |
| `SubmissionInvariant.ReleaseUnknownOk` | packages/gateway/src/submission.ts:762-782 | Giving up a reconciliation lease keeps the invariant |
| `SubmissionProgress.SubmitStoresTheAnswer` | packages/gateway/src/submission.ts:338-438 | From any reachable state, an undisturbed submit under a fresh key stores and returns exactly the upstream's accepted or rejected answer, as version three with one attempt; every field is spelled out |
| `SubmissionProgress.SubmitKeepsTheEvidence` | packages/gateway/src/submission.ts:551-660 | An upstream answer without a usable result leaves an ambiguous record with the kind and identity of evidence that belongs to it, and the caller gets `unknown` |
| `SubmissionProgress.RetryStoresTheAnswer` | packages/gateway/src/submission.ts:338-438 | A claim still held by this service, such as an authorised retry, is dispatched once more, and the answer is stored with one attempt more and all earlier evidence |
| `SubmissionProgress.ReclaimStoresTheAnswer` | packages/gateway/src/submission.ts:395-438 | A claim whose lease ran out before it started is taken over and goes through in the same way |
| `SubmissionProgress.SubmitReports` | packages/gateway/src/submission.ts:338-400 | Conflicting, finished, busy and ambiguous keys are reported as what they are, and their records are left alone |
| `SubmissionProgress.SubmitExpires` | packages/gateway/src/submission.ts:376-396 | A started dispatch whose lease ran out is never repeated by submit: the record becomes ambiguous with the lapse as evidence |
| `SubmissionProgress.OnlyGoodRequestsAreTaken` | packages/gateway/src/submission.ts:164-192 | A request is refused as invalid, before anything is asked, exactly when it is malformed or its digest is not that of its content |
| `ReconciliationProgress.ReconcileSettles` | packages/gateway/src/submission.ts:662-782 | An idle ambiguous record is reconciled: a found order becomes final with the upstream's payload, proved absence of the only attempt authorises one retry, everything else stays ambiguous; record, evidence and result are spelled out |
| `ReconciliationProgress.LapsedIsSettled` | packages/gateway/src/submission.ts:476-549 | A dispatch or reconciliation whose lease ran out is taken over: the lapse is recorded, and then the record is settled |
| `ReconciliationProgress.ReconcileReports` | packages/gateway/src/submission.ts:440-476 | Unknown, conflicting, finished and busy keys are reported as what they are, and their records are left alone |
| `SubmissionRaces.OvertakenReports` | packages/gateway/src/submission.ts:338-549 | A write that another invocation overtook changes nothing; one that was to take the record over reports it as in progress, one that was to settle it reports `unknown` |
| `SubmissionRaces.LateAnswerIsLost` | packages/gateway/src/submission.ts:599-660 | A dispatcher overtaken while the upstream answered stores neither the answer nor its doubt, and reports `unknown` |
| `SubmissionStore.InMemorySubmissionRepository.CreateIfAbsent` | packages/gateway/src/submission-store.ts:547-562 | Creates exactly where no record is, returns the stored record otherwise, and ties the new map to the specification |
| `SubmissionStore.InMemorySubmissionRepository.Read` | packages/gateway/src/submission-store.ts:564-568 | Returns the stored record, and changes nothing |
| `SubmissionStore.InMemorySubmissionRepository.CompareAndSet` | packages/gateway/src/submission-store.ts:570-593 | Replaces exactly when every expected field matches and the version rises by one, and ties the new map to the specification |
| `Lifecycle.EveryCreatedRequestIsAccepted` | packages/operations/src/limit-order-lifecycle.ts:151-193 | A request is created exactly for a valid key and text made of whole scalars, and every created request passes the gateway's digest recheck |
| `Lifecycle.ProjectionTextInjective` | packages/gateway/src/submission.ts:145-163 | The canonical text under the digest determines the chain id and the order up to key order |
| `Lifecycle.ProjectionText` | packages/gateway/src/submission.ts:145-163 | The canonical text under the request digest, written out: the four names in their order, the version literal, the chain id, the order and the profile |
| `Lifecycle.SubmissionsCarryOneOrder` | packages/gateway/src/submission.ts:145-192 | Two submissions under a key with equal projection texts carry the same chain id and order; they can only differ on a digest collision |
| `CanonicalJson.CheckUnicodeScalarString` | packages/operations/src/kernel.ts:286-302 | The scan accepts exactly the strings whose surrogates pair up |
| `CanonicalJson.QuoteCanonicalString` | packages/operations/src/kernel.ts:304-343 | The quoting loop throws on a lone surrogate and otherwise computes the escapes of section 3.2.2.2 of RFC 8785 |
| `CanonicalJsonProofs.ParseString` | packages/gateway/src/submission-store.ts:232-244 | A printed string parses back, whether or not its surrogates pair up |
| `CanonicalJsonProofs.ParsePrinted` | packages/gateway/src/submission-store.ts:232-244 | Every printed value parses to its normal form, and the parser stops where the text ends |
| `CanonicalJsonProofs.CanonicalTextParses` | packages/operations-node/src/evidence.ts:115-127 | A parser recovers the value, up to key order, from the whole of its canonical text |
| `CanonicalJsonProofs.SameTextIffSameValue` | packages/operations-node/src/evidence.ts:115-127 | Two values have the same canonical text exactly when they are the same value up to key order |
| `CanonicalJsonProofs.OrderSorts` | packages/operations/src/kernel.ts:404-426 | Sorting (section 3.2.3 of RFC 8785) leaves no key out, and of two keys the first is a proper prefix of the second or has the smaller code unit where they first differ |
| `CanonicalJsonMeaning.ObjectIsSorted` | packages/operations/src/kernel.ts:404-426 | The normal form of an object holds exactly its members, each in normal form, under strictly ascending keys |
| `CanonicalJsonMeaning.ArrayIsPointwise` | packages/operations/src/kernel.ts:396-402 | The normal form of an array is that of its items, in order |
| `CanonicalJsonMeaning.ScalarsPairUp` | packages/operations/src/kernel.ts:286-302 | A string is made of whole scalars exactly when every high surrogate is followed by a low one and every low one follows a high one |
| `CanonicalJsonMeaning.ObjectText` | packages/gateway/src/submission-store.ts:232-244 | One object with two members out of order, printed character by character |
| `CanonicalJsonProofs.InsertionOrderIsIrrelevant` | packages/operations/src/kernel.ts:404-426 | Canonical text does not depend on the insertion order of an object's keys |
| `CanonicalJsonProofs.PrintersAgree` | packages/operations/src/kernel.ts:369-433 | The kernel's printer agrees with the store's on every well-formed value and throws exactly on lone surrogates |
| `CanonicalJsonProofs.KernelTextParses` | packages/operations/src/kernel.ts:431-433 | `canonicalizeJson` has a left inverse |
| `Sha256Code.PadMessage` | packages/operations/src/kernel.ts:480-492 | The padding loops build the padded message of section 5.1.1 of FIPS 180-4 |
| `Sha256Code.LoadBlock` | packages/operations/src/kernel.ts:497-504 | Signed shifts and ors assemble the big-endian words of a block |
| `Sha256Code.FillSchedule` | packages/operations/src/kernel.ts:505-525 | The in-place loops compute the message schedule of section 6.2.2 |
| `Sha256Code.RoundCode` | packages/operations/src/kernel.ts:535-560 | One turn of the round loop, with signed 32-bit operators and unbounded sums, is one round of section 6.2.2 |
| `Sha256Code.CompressBlock` | packages/operations/src/kernel.ts:527-568 | The working variables and the hash words are updated as section 6.2.2 says |
| `Sha256Code.Sha256Bytes` | packages/operations/src/kernel.ts:480-574 | For every input the result is the SHA-256 digest of FIPS 180-4 |
| `Sha256Constants.RoundIsCubeRoot` | packages/operations/src/kernel.ts:462-474 | Every round constant is the first 32 bits of the fractional part of the cube root of its prime (section 4.2.2 of FIPS 180-4) |
| `Sha256Constants.InitialIsSquareRoot` | packages/operations/src/kernel.ts:458-461 | Every initial hash word is that of a square root (section 5.3.3 of FIPS 180-4) |
| `Sha256Constants.PrimesAreThese` | packages/operations/src/kernel.ts:458-474 | The numbers whose roots they are, in ascending order, are all primes below 312 and nothing else, so they are the first sixty-four |
| `Keccak.PaddingIsInvertible` | packages/operations/src/kernel.ts:667-674 | pad10*1 (section 5.1 of FIPS 202) fills whole blocks and the message can be read back from the padded string |
| `Keccak.BitsOfInjective` | packages/operations/src/kernel.ts:667-696 | Byte strings with equal bits are equal, so a result stated on bits determines the bytes |
| `KeccakTables.RotationIsOffset` | packages/operations/src/kernel.ts:583-586 | Every entry of the rotation table is the offset that rho finds on its walk (Algorithm 2 of FIPS 202) |
| `KeccakTables.RoundConstantIs` | packages/operations/src/kernel.ts:587-612 | Every entry of the round constant table is what the shift register of Algorithm 5 of FIPS 202 produces |
| `KeccakCode.RotateLeft64` | packages/operations/src/kernel.ts:614-618 | The masked big-integer rotation moves bit z - n to bit z |
| `KeccakCode.ThetaCode` | packages/operations/src/kernel.ts:622-641 | The column, delta and update loops are theta on bits |
| `KeccakCode.RhoPiCode` | packages/operations/src/kernel.ts:643-654 | The rotation loop that scatters lanes is pi after rho |
| `KeccakCode.ChiCode` | packages/operations/src/kernel.ts:656-663 | The row loop is chi on bits |
| `KeccakCode.KeccakPermutation` | packages/operations/src/kernel.ts:620-665 | The in-place permutation is Keccak-p[1600, 24] |
| `KeccakSponge.PadMessage` | packages/operations/src/kernel.ts:667-674 | The padded bytes are block-aligned and their bits are the message and pad10*1, also when both markers share a byte |
| `KeccakSponge.AbsorbBlock` | packages/operations/src/kernel.ts:677-686 | The lane loop xors a little-endian block into the state and leaves the capacity alone |
| `KeccakSponge.Keccak256Bytes` | packages/operations/src/kernel.ts:667-696 | For every input the result is the first 256 bits of KECCAK[512] of its bits |
| `Abi.DecodesWhatWasEncoded` | packages/operations/src/actions.ts:633-663 | Reference encoding of words, byte strings, tuples and arrays: wherever an encoding stands, a decoder that knows only the type reads the value back |
| `Abi.EncodingIsInjective` | packages/operations/src/actions.ts:633-663 | Two values of one type with the same encoding are equal |
| `Abi.EncodingFillsWords` | packages/operations/src/actions.ts:509-515 | Every encoding is a whole number of words, so every offset is a multiple of 32 |
| `ByteStrings.HexOfUnhex` | packages/operations/src/actions.ts:450-463 | Lower-case hexadecimal and bytes are in bijection |
| `AbiCode.UintWord` | packages/operations/src/actions.ts:477-487 | The downward loop writes the big-endian word, and throws exactly outside 0 to 2^256 - 1 |
| `AbiCode.ConcatBytes` | packages/operations/src/actions.ts:465-475 | The copied buffer is the parts one after another |
| `AbiCode.AddressWord` | packages/operations/src/actions.ts:489-494 | An address goes to the low twenty bytes; anything else throws |
| `AbiCode.BytesTail` | packages/operations/src/actions.ts:509-515 | The tail is the reference encoding of the bytes |
| `AbiCode.Tail` | packages/operations/src/kernel.ts:795-802 | The string tail is the reference encoding of the bytes |
| `AbiCode.HexToBytes` | packages/operations/src/actions.ts:456-463 | The parsing loop fills the buffer with the bytes of the hexadecimal text |
| `AbiCode.BytesToHex` | packages/operations/src/actions.ts:450-454 | The printing loop writes the hexadecimal text of the bytes |
| `AbiCode.BytesTextIs` | packages/operations/src/actions.ts:408-410 | The accepted byte texts, addresses and digests are exactly the texts of byte strings, of any length, of twenty and of thirty-two bytes |
| `Multicall.EncodeCall` | packages/operations/src/actions.ts:634-644 | One call is encoded as its five-component tuple, or the encoder throws |
| `Multicall.Offsets` | packages/operations/src/actions.ts:645-650 | The running offsets are the heads of the array, and it throws exactly when one does not fit |
| `Multicall.EncodeBundlerMulticall` | packages/operations/src/actions.ts:633-663 | The calldata is the selector and the reference encoding of the call list; it throws exactly when that does not exist |
| `Multicall.MulticallRoundTrip` | packages/operations/src/actions.ts:633-663 | Decoding the calldata by types alone returns every target, calldata and callback hash in order, for lists of any length |
| `Multicall.MulticallIsInjective` | packages/operations/src/actions.ts:633-663 | Different call lists never share calldata |
| `Multicall.OffsetsPointAtCalls` | packages/operations/src/actions.ts:645-655 | Every offset is 32-byte aligned, in bounds, and the encoding of the right call stands there |
| `OperationIdentity.EncodeOperationIdentityAbi` | packages/operations/src/kernel.ts:811-838 | The pushed heads and tails are the reference encoding of the seven fields, or it throws |
| `OperationIdentity.IdentitySeedPreimage` | packages/operations/src/limit-orders.ts:532-557 | The separately written preimage is the same function of domain and operation, so both are byte-identical for one domain string |
| `OperationIdentity.IdentityIsInjective` | packages/operations/src/kernel.ts:811-861 | Equal preimages mean equal domain, account kind, address, deployment, chain, request id and intent digest |
| `OperationIdentity.IdentityIsRead` | packages/operations/src/kernel.ts:811-838 | A decoder that knows only the types finds the domain and every field of the operation in the hashed bytes |
| `FillCalls.EncodeFillCall` | packages/operations/src/limit-orders.ts:449-507 | Each of the four branches writes the selector and the reference encoding of the arguments of the called function, or throws |
| `FillCalls.FillCallRoundTrip` | packages/operations/src/limit-orders.ts:449-507 | Reading the calldata by the types of the called function returns the order numbers, the signature, the amount, the traits and the argument text |
| `CompactSignatures.CompactIsReadable` | packages/operations/src/limit-orders.ts:419-440 | A compact form exists exactly for 64 bytes, or 65 with a known recovery value, and reads back as the signature exactly when the text was compact or the highest bit of s is clear |
| `CompactSignatures.ParityIsKept` | packages/operations/src/limit-orders.ts:419-440 | Two signature texts that differ only in parity have different compact forms exactly when the highest bit of s is clear |
| `CompactSignatures.CompactIsInjective` | packages/operations/src/limit-orders.ts:419-440 | Signature texts with that bit clear share a compact form only if they spell the same r, s and parity |
| `FillCalls.EncodePermitTransferCall` | packages/operations/src/actions.ts:524-559 | The calldata is the selector and the reference encoding of the nested permit tuple, the signature, the receiver and the amount, or it throws |
| `FillCalls.PermitRoundTrip` | packages/operations/src/actions.ts:524-559 | Reading that calldata by its types returns token, amounts, nonce, deadline, signature and receiver |
| `Controls.WorkAdmissionController.Create` | packages/gateway/src/controls.ts:343-362 | Construction succeeds exactly on a valid configuration, and starts with no usage |
| `Controls.WorkAdmissionController.Admit` | packages/gateway/src/controls.ts:364-405 | Admits or refuses exactly as the specification does, with the reasons in order; a refusal changes nothing |
| `Controls.WorkLease.Release` | packages/gateway/src/controls.ts:407-425 | The first release gives the cost back, every later one changes nothing |
| `Controls.AdmitKeepsBalance` | packages/gateway/src/controls.ts:364-405 | Admission keeps usage equal to the sums over live leases and every limit; a refusal changes nothing |
| `Controls.ReleaseKeepsBalance` | packages/gateway/src/controls.ts:407-425 | Release keeps the books balanced, and releasing again changes nothing |
| `Controls.ReleaseUndoesAdmit` | packages/gateway/src/controls.ts:364-427 | Releasing an admission restores global, public and every principal's usage |
| `Controls.AllReleasedIsIdle` | packages/gateway/src/controls.ts:364-427 | When every lease is released the usage is exactly the initial one |
| `Controls.ReserveIsHonoured` | packages/gateway/src/controls.ts:325-335 | A first-party request that fits the reserve with current first-party usage, its principal's limit and the two unreserved limits is admitted, whatever public work is admitted |
| `Controls.AdmittedIffItFits` | packages/gateway/src/controls.ts:376-405 | A well-formed request is admitted exactly when, on top of the live work, it breaks no limit that applies, in any dimension |
| `Controls.AdmittedExactly` | packages/gateway/src/controls.ts:325-405 | The same over the fields of the configuration: in every dimension the request fits its principal and the gateway and, for public work, what is left when the reserve is held back in the four dimensions that have one |
| `Controls.RefusedExactly` | packages/gateway/src/controls.ts:364-405 | A refusal names the first condition that fails, in the order of the code |
| `Controls.ValidConfigMeans` | packages/gateway/src/controls.ts:343-362 | A configuration is valid exactly when all limits are safe counts and no more is held back than there is |
| `Controls.ExceedsMeans` | packages/gateway/src/controls.ts:321-323 | Exceeding a limit means exceeding it in some dimension |
| `Router.Call` | packages/gateway/src/router.ts:638-743 | One call succeeds exactly when every check passes, it is admitted, and the handler returns in time; otherwise it returns what its path says; the usage of everybody is left as it was |
| `Router.PrecheckIs` | packages/gateway/src/router.ts:645-677 | Before admission the first check that fails decides the result, and a call that fails one never gets further |
| `Router.OutcomeIs` | packages/gateway/src/router.ts:695-743 | After admission the first thing that goes wrong decides the result |
| `Router.OnlyCheckedCallsRun` | packages/gateway/src/router.ts:645-743 | In every interleaving, work is only done, and success only reported, for calls that pass every check |
| `Router.CallSucceedsExactly` | packages/gateway/src/router.ts:638-743 | After any run, a call that is not interleaved succeeds exactly under the conditions of `Call` |
| `Router.RunInv` | packages/gateway/src/router.ts:678-743 | In every interleaving of calls and repeated releases the books balance and every live lease belongs to a running call |
| `Router.UsageIsInFlight` | packages/gateway/src/router.ts:678-743 | Global, public and per-principal usage are the exact sums over calls in flight |
| `Router.AllExitedIsIdle` | packages/gateway/src/router.ts:740-743 | Once every call has left, by whatever path, all usage is zero |
| `MakerTraits.BuildMakerTraits` | packages/operations/src/limit-orders.ts:824-868 | Builds exactly for a 40-bit nonce and a positive 40-bit expiry, and packs the three fields |
| `MakerTraits.ParseMakerTraits` | packages/operations/src/limit-orders.ts:870-898 | Accepts exactly the 256-bit numbers with no forbidden bit, one flag and a non-zero expiry |
| `MakerTraits.ParseOfBuilt` | packages/operations/src/limit-orders.ts:824-898 | Parsing what was built returns the preference, the nonce and the expiry |
| `MakerTraits.BuiltOfParsed` | packages/operations/src/limit-orders.ts:824-898 | Rebuilding an accepted number returns that number |
| `MakerTraits.ProjectionMeans` | packages/operations/src/limit-orders.ts:824-868 | The flags of the projection are bits 255 and 254 of its number, the fields are quotients and remainders of it, and the regime is that of multiple fills |
| `MakerTraits.ForbiddenMask` | packages/operations/src/limit-orders.ts:874-885 | The mask is exactly the bits outside the two fields and the two flags |
| `TakerPreparation.PrepareTaker` | packages/operations/src/limit-orders.ts:1792-1909 | Which outcome each input gets, throws included; a prepared fill costs the least that meets the signed price, and its calldata reads back as order, signature, wanted amount and traits holding the maximum |
| `TakerPreparation.EncodesIffCarried` | packages/operations/src/limit-orders.ts:1880-1909 | The final encoding throws exactly when the signature is no pair of words for a key, or too long for a contract |
| `TakerFill.ChargeIsLeast` | packages/operations/src/limit-orders.ts:1847-1853 | The ceiling division is the least amount that meets the signed price |
| `TakerFill.LeastIsUnique` | packages/operations/src/limit-orders.ts:1847-1853 | There is only one such amount |
| `TakerFill.TakerTraitsAreRecoverable` | packages/operations/src/limit-orders.ts:1898-1902 | Threshold and receiver flag can be read back from the packed traits, and no other bit is set but the one for the making amount |
| `TakerFill.PartialFillsPayThePrice` | packages/operations/src/limit-orders.ts:1847-1853 | Fills that add up to the making amount cost at least the taking amount and exceed it by less than one unit per fill |
| `MakerPreparation.CheckedTargetAllowance` | packages/operations/src/limit-orders.ts:1270-1280 | The early exit happens exactly when the whole sum needs more than 256 bits; otherwise the result is the sum |
| `MakerPreparation.PrepareMaker` | packages/operations/src/limit-orders.ts:1335-1424 | Which outcome each input gets, in the order of the code |
| `MakerPreparation.UsedExactlyUnlessFresh` | packages/operations/src/limit-orders.ts:1244-1268 | An order is turned away as used exactly when a list or a record knows it, its nonce bit is set, a live record holds its nonce, or its remaining invalidator was used |
| `MakerPreparation.ThrownExactly` | packages/operations/src/limit-orders.ts:1095-1165 | The inventory is refused exactly when a check fails, an amount needs more than 256 bits, or two records are of one order |
| `MakerPreparation.PreparedCoversEveryLiveOrder` | packages/operations/src/limit-orders.ts:1345-1424 | On a reported inventory, `prepared` means that the allowance covers the new amount and all distinct live orders of all pages at one block; overflow is reported exactly when that sum is too large |
| `Inventory.TakeItems` | packages/operations-node/src/limit-order-inventory.ts:353-367 | A page is taken exactly when all items so far are well formed, repeats agree and distinct orders stay in bound |
| `Inventory.NoListing` | packages/operations-node/src/limit-order-inventory.ts:331-374 | A page that fails a check rules out every complete listing within the bounds |
| `Inventory.Enumerate` | packages/operations-node/src/limit-order-inventory.ts:325-374 | The cursor loop finds a complete listing exactly when there is one within the bounds, in at most `maxPages` requests that never repeat a cursor |
| `MakerAllowance.ObserveOrders` | packages/operations-node/src/limit-order-inventory.ts:398-449 | The chain loop succeeds exactly when every order is observed within its amount at one block, and keeps exactly the live ones |
| `MakerAllowance.TotalOfSorted` | packages/operations-node/src/limit-order-inventory.ts:475-477 | Sorting the records does not change their sum |
| `MakerAllowance.Read` | packages/operations-node/src/limit-order-inventory.ts:284-500 | A complete observation reports a complete listing, one block and the records of all live orders; each failure is justified by the listing and the chain |
| `MakerAllowance.ReportedTotal` | packages/operations-node/src/limit-order-inventory.ts:284-500 | The reported records add up to what the chain says is left of every live order, each counted once |
| `MakerAllowance.ReportedRecords` | packages/operations-node/src/limit-order-inventory.ts:388-473 | The reported records are exactly those of the orders that were observed, neither expired nor invalidated, with something left |
| `MakerAllowance.LiveTotalIs` | packages/operations-node/src/limit-order-inventory.ts:420-432 | The live total is the sum of what the observations say is left |
| `MakerAllowance.HashesAreThose` | packages/operations-node/src/limit-order-inventory.ts:345-358 | There is one observation for each order hash that occurs on a page, and no other |
| `MakerAllowance.AnsweredMeans` | packages/operations-node/src/limit-order-inventory.ts:394-419 | The observations are accepted exactly when each is in shape, within the signed amount, and at the block of the first |
| `MakerAllowance.SortedAscends` | packages/operations-node/src/limit-order-inventory.ts:473-475 | The records are reported in ascending order of their hashes |
| `MakerAllowance.SameRecordMeans` | packages/operations-node/src/limit-order-inventory.ts:347-354 | A repeated order has to be the same record up to the order of keys |
| `Phoenix.QueryAsksForCursor` | packages/operations-node/src/phoenix.ts:519-527 | The next query asks for exactly the cursor and keeps every other entry in order |
| `Phoenix.TakeItems` | packages/operations-node/src/phoenix.ts:790-812 | The item loop keeps first occurrences and stops exactly when there are too many |
| `Phoenix.UseAnswer` | packages/operations-node/src/phoenix.ts:742-843 | What is done with one response, stop reason by stop reason |
| `Phoenix.Execute` | packages/operations-node/src/phoenix.ts:657-875 | Refused exactly outside the bounds of 100 pages and 100,000 items; otherwise at most `maxPages` fetches, exactly as many as the stop needs, no cursor twice, and the stop reason and items that the responses determine |
| `Phoenix.ItemsAreLeadingDistinct` | packages/operations-node/src/phoenix.ts:529-553 | For every stop reason the items are the first `maxItems` distinct items of the pages read; `complete` means none is missing |
| `Phoenix.StopIsUnique` | packages/operations-node/src/phoenix.ts:690-875 | The responses determine where the reader stops and what it returns |
| `FirstOccurrence.FirstsAreKept` | packages/operations-node/src/phoenix.ts:802-823 | Of items with one identity exactly the first is kept, and the order is that of the pages |
| `PhoenixMeaning.ItemsDiffer` | packages/operations-node/src/phoenix.ts:802-823 | No two returned items are the same value up to the order of keys |
| `PhoenixMeaning.NothingIsMissing` | packages/operations-node/src/phoenix.ts:529-553 | When the listing is complete, every item of every page read is among those returned, up to the order of keys |
| `PhoenixMeaning.ListingIsRead` | packages/operations-node/src/phoenix.ts:690-843 | A listing that ends within the bounds is read to its end and reported as complete |
| `PhoenixMeaning.FirstAnswerIsReported` | packages/operations-node/src/phoenix.ts:742-789 | An answer to the first fetch that is no page of items is reported as what it is |
| `PhoenixMeaning.QueriesAre` | packages/operations-node/src/phoenix.ts:519-527 | The first fetch sends the query as it is, every other one puts the cursor of the page before in place of its own |
| `Release.ReleaseController.Activate` | packages/gateway/src/release-controller.ts:441-455 | Activates exactly verified inputs on active generations; a throw changes nothing |
| `Release.ReleaseController.Evaluate` | packages/gateway/src/release-controller.ts:457-507 | The answer and the new store are functions of the store and the input |
| `Release.ReleaseController.Deactivate` | packages/gateway/src/release-controller.ts:509-512 | Forgets the intent |
| `Release.StoreIsHistory` | packages/gateway/src/release-controller.ts:420-512 | The store holds a binding exactly when the run activated it and nothing has broken it since |
| `Release.CallableMeansBoundSince` | packages/gateway/src/release-controller.ts:461-507 | Callable exactly when active, healthy, and activated with exactly this binding with no deactivation or terminal or different evaluation since |
| `Release.NoResurrection` | packages/gateway/src/release-controller.ts:461-512 | What is not bound stays so until it is activated again |
| `Release.CallableExactly` | packages/gateway/src/release-controller.ts:461-507 | The same over the fields of the inputs: retired or emergency-disabled generations, another binding or a deactivation in between end it |
| `Release.OverEndsTheBinding` | packages/gateway/src/release-controller.ts:469-484 | Seeing a retired or emergency-disabled generation forgets the intent, whatever it was |
| `Release.ReasonExactly` | packages/gateway/src/release-controller.ts:461-507 | Which reason is reported, over the fields of the input |
| `Common.Uint256DecimalIs` | packages/operations/src/kernel.ts:720-730 | The accepted times are exactly the decimal texts of the numbers of 256 bits |
| `ReleaseRuntime.AtomicReleaseRuntime.Refresh` | packages/gateway/src/release-controller.ts:593-635 | Succeeds exactly when every release is verified and named once, every record has one, and the inventory shows for each, field by field, what the controller answers; then it publishes that, and otherwise leaves the snapshot alone |
| `ReleaseRuntime.MatchesSays` | packages/gateway/src/release-controller.ts:526-580 | The comparison of a decision with its record means that the record shows profile, vectors, activation, health, callability, evidence and operator binding as the store implies them |
| `ReleaseRuntime.AtomicReleaseRuntime.Observe` | packages/gateway/src/release-controller.ts:641-656 | The snapshot is returned exactly while it is fresh |
| `ReleaseRuntime.PublishedIsDecided` | packages/gateway/src/release-controller.ts:526-635 | A snapshot calls a capability callable exactly when the controller does |
| `SafeMarket.AtomicWrite` | packages/gateway/src/safe-market.ts:1125-1129 | The call succeeds exactly when neither of its operations fails, and then the whole file is there; nothing outside the staging directory changes |
| `SafeMarket.StagePackage` | packages/gateway/src/safe-market.ts:1183-1193 | Staging succeeds exactly when no operation fails, the proof accepts and the manifest can be made; however the two first writes interleave, the staged directory is then the complete package, and `passed` means the proof accepted these files |
| `SafeMarket.Swap` | packages/gateway/src/safe-market.ts:1195-1224 | Without failures it publishes, with or without an old package; if the second rename fails and the third does not, the old package is back at the output; after any failure it is whole at the output or at the backup path |
| `SafeMarket.PublishSafeMarketPackage` | packages/gateway/src/safe-market.ts:1167-1236 | Without failures a publishable package is published, to a new path too; on return the complete new package is at the output; on any throw the old one is intact or the new one is complete; a failed swap restores the old one |

## Left out

- SubmissionTheorems.SubmissionsAgree: states that the request digests agree, not the orders, because equal digests do not exclude a collision; `SubmissionTheorems.ProjectionInjective` and `Lifecycle.ProjectionTextInjective` say what a digest covers.
- OperationIdentity.IdentityIsInjective: is about the hashed bytes; the identifier is the first 16 bytes of their hash.
- Abi.DecodesWhatWasEncoded: the decoder does not check the zero padding behind byte strings or the upper bytes of addresses and booleans; it reads words.
- Lifecycle.EveryCreatedRequestIsAccepted: takes verification of the order, its signature and the current authority as done; they are opaque cryptography.
- SafeMarket.PublishSafeMarketPackage: a crash of the whole process is not modelled, only thrown errors. The staging and backup names are fresh, as `mkdtemp` and the random identifier make them.
- SafeMarket.StagePackage: the proof reads the staged files and does not write any. When one of the two first writes fails, the other is not followed further; it can only touch the staging directory.
- MakerAllowance.Read: the other fields of a service order and of a chain observation are checked by one flag each, and the request likewise.
- TakerPreparation.PrepareTaker: starts after the signed order and the other inputs have been validated: both its amounts are positive, numbers fit in 256 bits and texts are canonical.
- MakerPreparation.PrepareMaker: the inputs' shapes and the parts of an inventory other than hashes and amounts are checked by one flag.
- Controls.AdmittedIffItFits: costs are safe integers but sums are unbounded, so rounding of usage above 2^53 is not modelled; with the limits being safe integers an admitted sum is never above it.
- The submission service is a state machine over records rather than an object with methods: its methods are cut at every `await`, which a method body cannot express. Its repository is a class.
- The database-backed repository and its decision document: only the in-memory repository is modelled; packages/gateway/migrations/README.md promises the same record rules.
- JSON: the cycle check, property descriptors and prototypes of `canonicalizeInternal`; values are finite trees. Number printing and UTF-8 encoding are taken as injective.
- SHA-256 and Keccak: that hashes do not collide.
- `encodeFundingCall`, `encodeApprove` and the other calls with only static words would repeat `FillCalls` with less.
- `adjacentNonces` and the prepare, finalize and reconstruct functions of packages/operations/src/actions.ts: field-by-field checks.
- Order hashing by EIP-712, signatures, agreement verification, cancellation and allowance revocation of limit orders.
- `buildRequestIdentity`, redirects and payload decoding of the node package, beyond the place they take in the reader's loop.
- The validation of roots, candidates, conformance and health in the release controller: one flag of the input.
- Input schemas of the router, credentials, revocation, telemetry redaction, tool catalogs.
- Market deployment, quorum observation and simulation: they rest on network reads.
- The Rust signing gate.
