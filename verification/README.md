# A verified model of the Sapio TEE signer

The repository runs a Bitcoin co-signer inside an enclave. A wallet asks it to
*prepare* a nested MuSig session for a spend or an ownership proof; the enclave
evaluates the program committed by the key (a WASM predicate over a bounded
binary view of the transaction), reserves a one-use secret nonce, and later
*finishes* with a partial signature or *cancels*. Around that core sit the
setup protocol that publishes exactly one identity, the policy envelope for
ownership proofs, the key-name parser, the attestation verifier's base58
decoder and the source-snapshot tool.

This project models that logic in Dafny and proves, among others:

- **Every partial signature is accounted for.** In every interleaving of
  prepare, finish, cancel and clock ticks, a secret nonce is consumed at most
  once, yields at most one partial, and every partial traces back to an earlier
  admitted prepare of the same intent, program and user nonce whose checks all
  held, signed by the key checked against the intent. Approval and release are
  both characterised exactly: what must hold, and that nothing more is needed.
- **From partial to transaction.** Composing sessions, host, guest and
  predicates: every partial a vault program releases for a spend signs a
  transaction that obeys the capped-fee sweep rule, and every partial a template
  program releases signs a transaction with the committed BIP-446 hash.
- **Bytes mean what they should.** The view encoder is inverted by a decoder;
  host placement is safe for an arbitrary guest allocator; the guest sees
  exactly the four inputs; the two example predicates, run as loops over linear
  memory, decide exactly the plain rule on the transaction.
- **One identity.** Over all interleavings of setup requests, dropped handlers
  and signer-thread steps, at most one identity is published, it never changes,
  and identity, Ark signer and served oracle come from one root; from every idle
  state an uninterrupted setup does publish, and no outcome leaks the gate.
- **Exact characterisations** of the smaller parts: base58 is a bijection, the
  snapshot verifier accepts exactly the inventory's tree, the ARN parser accepts
  exactly the printed ARNs, the compilation budget is the mathematical sum.

`dafny verify dfyconfig.toml` checks the whole project.

## How the model is built

SHA-256, key derivation, MuSig, native message functions, JSON and hex decoding
and the WASM toolchain appear as function values (`Sha256`, `Library`, `Musig`,
`Codec`, `Toolchain`); every theorem holds for any such functions. Four
assumptions about them appear as named hypotheses: `DerivationsAgree` (private
and public key derivation agree), `IdCommits` (no other program shares this
program's id), `EvaluatesWith` (the signer evaluates with the modelled
evaluator) and `DecodesItsOwn` (JSON text reads back). Clock readings, random
draws and the order of steps are parameters. `usize` is 32 bits in the guest,
and arithmetic that wraps, truncates or is checked there is written out.

The imperative parts of the source stay imperative: the encoder's two passes,
the guest's arena and reader (classes over an `array` of memory), both
predicates, the host's allocate/check/copy loops, the budget loop, `ArkSigner`
with its mutable map, the base58 loops, the ARN field iterator and the snapshot
loops are methods proved against functions, and the theorems are about those
functions. Interleavings (sessions, setup) are state machines over atomic steps,
with a log of what happened.

| module | models |
|---|---|
| `Outcomes`, `ByteStrings`, `Transactions`, `Texts`, `Radix` | shared values: options, little-endian numbers, transactions, splitting and joining, numerals |
| `View`, `ViewDecoding` | the signed view, its encoder and a decoder |
| `Guest`, `ViewReading`, `Vault`, `Template`, `Bip446`, `TemplateMeaning` | the example guests, the template reference and what the predicates decide |
| `Host`, `Pipeline`, `Budget`, `Evaluation` | placement, host and guest together, the compilation budget, one whole evaluation |
| `NativePolicy`, `Approval` | the ownership policy, and all checks of `prepare` before it reserves |
| `Sessions`, `Release`, `SessionSafety`, `SessionTrace`, `SessionLimits`, `ArkSigner` | the session machine, what a finish deserves, the theorems over runs, and the mutable signer |
| `EndToEnd` | from a released partial to the transaction |
| `Setup`, `SetupProgress` | the setup and publication protocol, its safety and its outcomes |
| `Base58`, `Keys`, `Snapshot` | base58check, key names and derivation inputs, source snapshots |

Where code and documentation disagree, the model follows the code:

- The policy documentation says an empty list rejects its variant
  (src/native_policy.rs:34-37). The code admits a proof with no outputs under an
  empty list; `NativePolicy.EmptyListAdmitsOnlyEmptyProofs` states exactly that.
- The template predicate does not approve every transaction with the committed
  hash: its two scratch buffers share the arena with the arguments.
  `Pipeline.TemplatePipeline` gives the exact bound, `32 + 2V + 4n` against
  1,245,184 bytes for view length V and n inputs, and
  `TemplateMeaning.LargeTemplateIsRefused` shows an encodable transaction beyond it.

## Model

| member | source | states |
|---|---|---|
| `SessionSafety.RunKeepsNonces` | src/ark_signer.rs:116-187 | in every reachable state, pending and consumed nonces partition the created ones, each live session has its own nonce, and no two log events consume the same nonce |
| `SessionSafety.StepKeepsNonces` | src/ark_signer.rs:116-187 | that invariant survives every atomic step of any call |
| `SessionSafety.NonceConsumedAtMostOnce` | src/ark_signer.rs:147-187 | at most one of finish, cancel and prune obtains a nonce, and it is then out of the map |
| `SessionSafety.ConsumedNonceNeverReturns` | src/ark_signer.rs:147-187 | a consumed nonce is in no later map, however the run continues |
| `SessionSafety.NoncesAreConserved` | src/ark_signer.rs:116-187 | inserted = pending + finished + cancelled + pruned, in every run |
| `SessionSafety.RunsCompose` | src/ark_signer.rs:65-188 | running two step lists in sequence is running their concatenation |
| `SessionTrace.RunKeepsTrace` | src/ark_signer.rs:65-180 | every pending or taken session traces to a logged admission of an approved request, and every release consumes its own finish removal |
| `SessionTrace.AtMostOnePartialPerNonce` | src/ark_signer.rs:147-180 | two different releases in a run never use the same nonce |
| `SessionTrace.EveryPartialIsTraced` | src/ark_signer.rs:65-180 | each released partial has an earlier admission of the same session whose request is justified, the finish was entitled to exactly this partial, and it is signed with the secret whose public key is the intent's program member |
| `SessionTrace.KeyIsTheProgramMember` | src/ark_signer.rs:80-84 | the key checked against members[1] at prepare is the key that signs at finish |
| `Release.ReleaseIsExact` | src/ark_signer.rs:147-180 | a partial is released if and only if protocol and expiry hold, server nonce and share are absent or parse, the session is built from exactly that nonce, a share has a server and verifies against that session, and the derived secret signs it |
| `Release.GroundsOf` | src/ark_signer.rs:152-179 | names the server nonce, share, session and secret behind a release |
| `Release.GroundsAreUnique` | src/ark_signer.rs:152-179 | these are determined by the session and the request, so at most one partial is deserved |
| `Release.UnverifiedShareReleasesNothing` | src/ark_signer.rs:156-166 | a share that does not parse, has no server or fails against this very session releases nothing |
| `Approval.ApprovalIsExact` | src/ark_signer.rs:65-114 | a request is approved with an id, intent and user nonce if and only if protocol and root match, intent and nonce parse, the program is valid with the claimed id, its derived key is members[1], its parameters parse, a policy belongs to an inline program, and the spend or ownership conditions hold |
| `Approval.AuthorizedIsEvaluated` | src/evaluator.rs:38-71 | a spend is authorised if and only if the PSBT is valid, its sighash is the message, the input is un-finalised and annex-free, and the evaluator answered true: an inline program on its own bytes with an empty selector, any other through the first registry entry with its id |
| `Approval.ActionIsJustified` | src/ark_signer.rs:93-114 | the spend and ownership branches approve exactly the justified actions |
| `Approval.FindIsFirst` | src/evaluator.rs:61-62 | the registry search returns the first entry with the id |
| `Approval.FoundIsFirst` | src/evaluator.rs:61-62 | whatever it returns is the first such entry |
| `Approval.UnknownEvaluatorApprovesNothing` | src/evaluator.rs:61-62 | an evaluator neither inline nor registered approves no spend |
| `SessionLimits.CapsHold` | src/ark_signer.rs:116-143 | every reachable state has at most 256 sessions and at most 8 per wallet key |
| `SessionLimits.FullPoolNeedsManyWallets` | src/ark_signer.rs:28-36 | sessions number at most 8 per distinct wallet key, so a full pool needs 32 keys |
| `SessionLimits.AdmissionIsExact` | src/ark_signer.rs:116-143 | a reservation is admitted exactly when there is room after removing what has expired at its clock reading; otherwise only expired sessions are dropped |
| `SessionLimits.TimesHold` | src/ark_signer.rs:116-143 | every pending expiry is at most one lifetime after the current clock and no stored reading is in the future |
| `SessionLimits.LazyRefinesEager` | src/ark_signer.rs:116-153 | every step with lazy, possibly stale pruning is a step of a specification in which sessions vanish the instant they expire, with the caps applied there |
| `SessionLimits.RunRefinesEager` | src/ark_signer.rs:116-153 | hence every run is, step by step, a run of the eager specification |
| `SessionLimits.UnexpiredSessionsSurvive` | src/ark_signer.rs:116-187 | no step that does not name a session removes it before it expires |
| `SessionLimits.PrunedSessionsWereDead` | src/ark_signer.rs:118 | whatever a prepare prunes, finish would refuse then and at every later time |
| `SessionLimits.ExpiredTakeIsRefused` | src/ark_signer.rs:147-153 | taking a session the eager specification no longer has releases nothing |
| `ArkSigner.ArkSigner.Retain` | src/ark_signer.rs:118 | the pruning loop leaves exactly the unexpired sessions, unchanged |
| `ArkSigner.ArkSigner.CountHeld` | src/ark_signer.rs:125-127 | the filtered count is the number of the wallet's sessions |
| `ArkSigner.ArkSigner.DrawId` | src/ark_signer.rs:131-136 | the id loop returns a drawn id that is not in use |
| `ArkSigner.ArkSigner.Prepare` | src/ark_signer.rs:65-145 | the whole new map in each of its outcomes: request not justified, justified but rejected, admitted |
| `ArkSigner.ArkSigner.Finish` | src/ark_signer.rs:147-180 | the session is removed whatever the outcome, and a partial is returned exactly when the removed session deserves it |
| `ArkSigner.ArkSigner.CheckAndSign` | src/ark_signer.rs:152-179 | the early-return sequence after the lock is the finish of the state machine |
| `ArkSigner.ArkSigner.Cancel` | src/ark_signer.rs:182-188 | the session is removed even under a wrong protocol string; success is exactly known session and right protocol |
| `ArkSigner.PrepareIsThreeSteps` | src/ark_signer.rs:65-145 | an uninterrupted prepare is its validation, clock reading and reservation steps |
| `ArkSigner.FinishIsTwoSteps` | src/ark_signer.rs:147-180 | an uninterrupted finish is its removal and signature steps, logged accordingly |
| `ArkSigner.CancelIsOneStep` | src/ark_signer.rs:182-188 | an uninterrupted cancel removes and logs whatever session it names, expired or not |
| `ArkSigner.PrepareThenFinishReleases` | src/ark_signer.rs:65-180 | from any state with room, a justified prepare and a finish within 120 seconds release a partial exactly when it is deserved, with the whole log of the exchange |
| `Approval.Find` | src/evaluator.rs:61-62 | the registry search returns an entry with the id, or there is none |
| `EndToEnd.SpendBehindPartial` | src/ark_signer.rs:65-180 | a released partial has an earlier admission of that very program, inline or registered, whose evaluation answered true on the signed context |
| `EndToEnd.ApprovalReachesPredicate` | src/evaluator.rs:169-242 | an approval by an example guest is an approval by its predicate on the encoded view |
| `EndToEnd.VaultPartialsSweep` | examples/vault/predicate.rs:33-89 | every spend partial of a vault program signs a transaction obeying the sweep rule |
| `EndToEnd.TemplatePartialsMatch` | examples/templatehash/predicate.rs:62-133 | every spend partial of a template program signs a transaction with the committed BIP-446 hash |
| `View.EncodeView` | src/evaluator.rs:244-301 | encoding succeeds exactly when the true length is within the limit, the index fits and version two has its key; the result is the view |
| `View.MeasureInputs` | src/evaluator.rs:261-264 | the first pass over prevouts gives the exact running size or stops at the limit |
| `View.MeasureOutputs` | src/evaluator.rs:265-268 | the same over outputs |
| `View.MeasureView` | src/evaluator.rs:252-271 | the precomputed size is the view's size, or the limit is exceeded |
| `View.WriteInputs` | src/evaluator.rs:280-288 | the writing loop appends each input's fields in order |
| `View.WriteOutputs` | src/evaluator.rs:290-294 | the writing loop appends each output's fields in order |
| `View.ViewSizeIsLength` | src/evaluator.rs:252-299 | the precomputed size equals the bytes written, at least 52 per input and 12 per output |
| `ViewDecoding.ParseInputInverts` | src/evaluator.rs:281-287 | one encoded input parses back, leaving what follows |
| `ViewDecoding.ParseOutputInverts` | src/evaluator.rs:291-293 | one encoded output parses back, leaving what follows |
| `ViewDecoding.OutputReprints` | src/evaluator.rs:291-293 | whatever parses as an output is that output's encoding, then the rest |
| `ViewDecoding.DecodeInvertsEncode` | src/evaluator.rs:244-301 | a decoder recovers every field of every encoded view, in both versions |
| `ViewDecoding.EncodingIsInjective` | src/evaluator.rs:244-301 | two contexts with the same view agree on every encoded field |
| `ViewDecoding.VersionTwoExtendsVersionOne` | src/evaluator.rs:295-298 | the version-two view is the version-one view, the 32-byte key and four zero bytes |
| `Host.Evaluate` | src/evaluator.rs:204-241 | the host's two loops and the call are the exchange the lemmas speak about, error by error |
| `Host.AllocationIsChecked` | src/evaluator.rs:206-226 | for any allocator, each handled range is in bounds, at the returned address and apart from the others |
| `Host.GoodAllocatorIsAccepted` | src/evaluator.rs:206-226 | the host refuses nothing else: an allocator that answers every call with regions in bounds and apart, at any addresses, is accepted with exactly those regions |
| `Host.CopyFrames` | src/evaluator.rs:229-231 | copying leaves every range apart from the destinations unchanged |
| `Host.CopyFills` | src/evaluator.rs:229-231 | after all copies each range holds its own input |
| `Host.PlacementIsSafe` | src/evaluator.rs:204-236 | for any guest: once allocation succeeds, copies cannot fail, nonempty ranges are disjoint and in bounds, memory equals each input, and each pointer argument is the u32 the allocator returned |
| `Pipeline.BumpAllocates` | examples/vault/guest.rs:24-37 | on inputs within the arena the bump allocator never fails and every host check passes |
| `Pipeline.GuestSeesTheInputs` | src/evaluator.rs:179-236 | within the host's limits the predicate runs on exactly the four original byte strings, empty ones included |
| `Pipeline.BumpRunStaysAbove` | examples/vault/guest.rs:24-37 | every granted region lies in the arena above what was in use |
| `Pipeline.GrantedRegionsAreDisjoint` | examples/templatehash/predicate.rs:36-42 | any later region, scratch included, starts after every earlier one ends |
| `Pipeline.TemplatePipeline` | examples/templatehash/predicate.rs:62-133 | host plus guest answer exactly the hash test whenever 32 + 2V + 4n fits the arena, and refuse beyond it |
| `Pipeline.VaultPipeline` | examples/vault/predicate.rs:33-89 | host plus guest always answer, and answer the sweep rule |
| `Evaluation.Evaluate` | src/evaluator.rs:169-242 | the evaluation succeeds exactly when module, budget, limits, view, instantiation and exchange do, with the exchange's verdict |
| `Evaluation.AnswerIsTheGuests` | src/evaluator.rs:179-241 | for any guest an answer is its own return value one or zero, called with program, parameters, witness and the view of its ABI version in memory; version two adds the key and a zero length |
| `Evaluation.TemplateApproval` | src/evaluator.rs:169-242 | an approval by the template module implies the committed hash, and with room the answer is that equality |
| `Evaluation.VaultAnswer` | src/evaluator.rs:169-242 | the vault module's answer is the sweep rule |
| `Guest.Instance.Allocate` | examples/vault/guest.rs:24-37 | pointer and new arena use of the bump allocator, refusal included |
| `Guest.Instance.InputSlice` | examples/vault/guest.rs:79-95 | a slice exists exactly when it lies below the used arena; it denotes those bytes of memory |
| `Guest.Instance.ArgumentSlices` | examples/vault/guest.rs:46-66 | the length checks and slices succeed exactly when the value-level fetch does, with the same four byte strings |
| `Guest.Reader.Take` | examples/vault/guest.rs:107-112 | fails exactly when too little is left, unchanged; otherwise yields the prefix and keeps the rest |
| `Guest.Reader.TakeU32` | examples/vault/guest.rs:114-116 | reads four little-endian bytes |
| `Guest.Reader.Finished` | examples/vault/guest.rs:118-120 | true exactly when nothing is left |
| `ViewReading.TakePrefixed` | examples/vault/predicate.rs:49-50 | a u32 length and that many bytes, or failure exactly when they are not there |
| `ViewReading.TakeInput` | examples/templatehash/predicate.rs:80-84 | consumes exactly the parsed input and returns the slices of its sequence and value |
| `ViewReading.TakeOutput` | examples/templatehash/predicate.rs:93-95 | consumes exactly the parsed output and returns the slices of its value and script |
| `Vault.EvaluateOutputs` | examples/vault/predicate.rs:69-88 | one output, nothing after it, and the settlement test, over memory |
| `Vault.EvaluateBody` | examples/vault/predicate.rs:63-88 | the part after the header is the value-level decision |
| `Vault.EvaluateView` | examples/vault/predicate.rs:56-88 | the view half is the value-level decision on the view's bytes |
| `Vault.EvaluateArguments` | examples/vault/predicate.rs:33-89 | the predicate over memory is the value-level decision |
| `Vault.Evaluate` | examples/vault/predicate.rs:8-31 | the exported entry point returns 1, 0 or -1 accordingly |
| `Vault.ParametersParse` | examples/vault/contract.rs:21-28 | the committed parameters read back as fee cap and destination |
| `Vault.DecidesTheSweepRule` | examples/vault/predicate.rs:33-89 | on every encoded view the predicate answers, and its answer is the plain sweep rule |
| `Vault.AnswersExactlyWellFormedArguments` | examples/vault/predicate.rs:42-53 | on encoded views there is a verdict exactly for an empty program and witness and parameters in the committed layout |
| `Bip446.ShaSequences` | examples/templatehash/main.rs:65-71 | hashes every input's sequence in order |
| `Bip446.PushCompactSize` | examples/templatehash/main.rs:50-63 | appends the compactSize of any length |
| `Bip446.ShaOutputs` | examples/templatehash/main.rs:73-82 | hashes every output's CTxOut serialisation in order |
| `Bip446.ReferenceHash` | examples/templatehash/main.rs:84-93 | the reference computes the BIP-446 tagged hash |
| `Template.TakeScratch` | examples/templatehash/predicate.rs:36-42 | scratch is a nonempty region above every byte in use, or refused |
| `Template.CollectSequences` | examples/templatehash/predicate.rs:78-85 | fills the buffer with the sequences the value-level loop collects, writing nothing else |
| `Template.PushCompactSize` | examples/templatehash/predicate.rs:45-60 | writes the compactSize at the offset, or refuses and writes nothing |
| `Template.CollectOutput` | examples/templatehash/predicate.rs:93-104 | appends one output's serialisation or refuses exactly when it does not fit |
| `Template.CollectOutputs` | examples/templatehash/predicate.rs:89-105 | the whole loop, against the value-level one |
| `Template.FinalTest` | examples/templatehash/predicate.rs:110-132 | the tagged hash over header, sub-hashes and index compared with the commitment |
| `Template.EvaluateOutputs` | examples/templatehash/predicate.rs:87-132 | from the output count on, the value-level decision; only arena bytes it allocated are written |
| `Template.EvaluateInputs` | examples/templatehash/predicate.rs:77-132 | from the sequences on, likewise |
| `Template.SequenceRoom` | examples/templatehash/predicate.rs:78 | the 32-bit product equals 4n exactly when it does not wrap |
| `Template.EvaluateArguments` | examples/templatehash/predicate.rs:62-133 | the predicate over memory is the value-level decision and writes only its own scratch |
| `Template.Evaluate` | examples/templatehash/predicate.rs:22-33 | the exported entry point |
| `TemplateMeaning.SequencesCollect` | examples/templatehash/predicate.rs:79-85 | on encoded inputs the first loop collects exactly the transaction's sequences |
| `TemplateMeaning.OutputsCollect` | examples/templatehash/predicate.rs:92-105 | on encoded outputs the second loop collects exactly their CTxOut serialisation |
| `TemplateMeaning.SerializationCost` | examples/templatehash/predicate.rs:45-60 | re-serialised outputs cost at most one byte more per script over 65,535 bytes, each of which takes 65,548 view bytes |
| `TemplateMeaning.OutputBufferNeverOverflows` | examples/templatehash/predicate.rs:87-105 | at every loop step at most 15 such scripts and five bytes to spare |
| `TemplateMeaning.DecidesTheTemplateHash` | examples/templatehash/predicate.rs:62-133 | on every encoded view, exactly the equality with the reference hash if the buffers fit, refusal otherwise |
| `TemplateMeaning.AnswersExactlyWellFormedArguments` | examples/templatehash/predicate.rs:62-90 | on encoded views there is a verdict exactly for an empty program and witness, a 32-byte commitment, an index of the transaction and room for both buffers |
| `TemplateMeaning.RefusesForeignIndex` | examples/templatehash/predicate.rs:73-75 | an index outside the transaction is refused |
| `TemplateMeaning.LargeTemplateIsRefused` | examples/templatehash/predicate.rs:90 | a concrete encodable transaction refused even under its own hash |
| `Budget.CheckCompilationBudget` | src/evaluator.rs:87-152 | a payload stream is accepted exactly when it has no other defect and its mathematical slot sum is within the cap; the counter is that sum |
| `Budget.CheckPayload` | src/evaluator.rs:97-149 | one payload, against the types declared before it |
| `Budget.AddFunctions` | src/evaluator.rs:129-137 | a shared type counts once per defined function; unknown types are refused |
| `Budget.AddLocals` | src/evaluator.rs:138-142 | declared locals are summed without wrapping |
| `Budget.CollectTypes` | src/evaluator.rs:99-106 | types accumulate in order, or an undecodable entry is refused |
| `Budget.CheckImports` | src/evaluator.rs:107-128 | exactly the crypto imports of the version with their signatures pass |
| `Budget.CountParams` | src/evaluator.rs:110-118 | the match on namespace and name gives the parameter count of each supported import of the version |
| `Setup.RunKeepsInv` | src/app.rs:61-134 | the protocol invariant over every interleaving of handlers, drops and thread steps |
| `Setup.PublicationIsConsistent` | src/app.rs:61-98 | at most one identity is published; then the Ark signer is set, a bind was reported for the one consumed job, and xpub, settings, Ark root and served root all come from it |
| `Setup.IdentityNeverChanges` | src/app.rs:92-98 | a published identity and its signer stay the same forever |
| `Setup.StepKeepsCells` | src/app.rs:52-53 | no step changes a set cell or the consumed job |
| `Setup.OneSetupAtATime` | src/app.rs:110-113 | at most one handler is past the gate |
| `Setup.LostHandlerPublishesNothing` | src/app.rs:309-311 | if nobody awaits readiness when the bind completes, nothing is ever published |
| `SetupProgress.UninterruptedSetupPublishes` | src/app.rs:61-134 | from every reachable idle state an uninterrupted setup publishes exactly the identity of its root and settings and serves that root |
| `SetupProgress.AdmissionIsExact` | src/app.rs:107-125 | a setup passes the gate exactly when valid, alone, uninitialised and on Nitro; otherwise nothing changes |
| `SetupProgress.GateIsTakenExactlyInFlight` | src/app.rs:110-113 | the gate is held exactly while a setup is in flight, so no outcome leaks it |
| `SetupProgress.BindIsReported` | src/app.rs:302-319 | a completed bind is reported and served if a handler awaits it, and ends the thread otherwise |
| `SetupProgress.QueuedJobIsTaken` | src/app.rs:298-301 | a waiting thread takes the queued job, and only a waiting one |
| `SetupProgress.ReadinessIsExact` | src/app.rs:86-91 | a handler goes on exactly when its own job was reported ready, waits while nothing was sent and ends otherwise |
| `SetupProgress.DroppedHandlerFreesTheGate` | src/app.rs:110-113 | dropping a handler at either await frees the gate and changes nothing else |
| `SetupProgress.InstallationNeedsTheThread` | src/app.rs:83-85 | with the channel full or the thread gone the job is refused and the gate freed; otherwise it is queued |
| `SetupProgress.FailedBindFreesTheGate` | src/app.rs:304-308 | a failed bind ends thread and setup with nothing published |
| `SetupProgress.StoppedThreadFreesTheGate` | src/app.rs:86-91 | a thread that stops before reporting drops the sender, queued or taken, and ends the setup |
| `SetupProgress.ConfirmedSetupPublishes` | src/app.rs:92-97 | after confirmed readiness neither write-once cell is taken, so publication cannot fail |
| `SetupProgress.LocalDevPublishes` | src/app.rs:336-345 | the local start publishes its root without settings |
| `Radix.ValueOfDigits` | tests/test_attestation.py:27-30 | repeated division yields minimal digits of the same value |
| `Radix.DigitsOfValue` | scripts/verify-attestation.py:123-127 | accumulating minimal digits and dividing again returns them |
| `Radix.ConversionInverts` | scripts/verify-attestation.py:121-134 | base conversion with leading zeros is inverted by the opposite conversion |
| `Base58.AlphabetIsSymbols` | scripts/verify-attestation.py:101 | the alphabet string has 58 symbols in the stated order |
| `Base58.ToBytesIsDigits` | scripts/verify-attestation.py:128 | the byte count taken from the bit length gives exactly the base-256 digits |
| `Base58.Base58CheckDecode` | scripts/verify-attestation.py:121-134 | the accumulating decoder computes the specified result with every error case |
| `Base58.Base58CheckEncode` | tests/test_attestation.py:24-35 | the repeated-division encoder computes the specified text |
| `Base58.DecodedInvertsEncoded` | scripts/verify-attestation.py:121-134 | every byte string decodes back from its text |
| `Base58.EncodedInvertsDecoded` | tests/test_attestation.py:24-35 | every text over the alphabet encodes back from its bytes |
| `Base58.OneTextPerKey` | scripts/verify-attestation.py:121-134 | a payload is accepted from exactly one text: the encoder's |
| `Base58.AcceptedKeysCarryTheirChecksum` | scripts/verify-attestation.py:121-134 | accepted texts are exactly those of 78 bytes followed by four bytes of their double SHA-256 |
| `NativePolicy.Encode` | src/native_policy.rs:188-196 | the appended buffer is magic, length, document and inner bytes |
| `NativePolicy.ParseExaminesTheDocument` | src/native_policy.rs:84-134 | parsing an envelope examines exactly its document, whatever follows |
| `NativePolicy.EnforcementFollowsTheDocument` | src/native_policy.rs:84-180 | for every envelope and proof: a bad version or undecodable entry refuses, and otherwise each kind of proof is accepted exactly as the document's own field for it says |
| `NativePolicy.ParseIsExact` | src/native_policy.rs:84-134 | no magic is no policy; a policy comes exactly from an envelope whose document parses to it |
| `NativePolicy.EnvelopeIsInjective` | src/native_policy.rs:188-196 | an envelope determines document and inner parameters |
| `NativePolicy.DecodeAll` | src/native_policy.rs:106-123 | all values decode in order, or the list is refused |
| `NativePolicy.EnlargingIsExactlyMonotonicity` | src/native_policy.rs:138-180 | one policy accepts whatever another accepts exactly when each of its lists and flags is at least as large |
| `NativePolicy.EmptyListAdmitsOnlyEmptyProofs` | src/native_policy.rs:145-170 | under an empty list exactly the proofs with no outputs pass |
| `Keys.Fields.Next` | src/keys.rs:142-203 | the split iterator yields the remaining fields in order |
| `Keys.KeyRegion` | src/keys.rs:142-224 | the field-by-field parser is the check on the split fields, error by error |
| `Keys.AcceptsExactlyPrintedArns` | src/keys.rs:142-224 | the accepted names with a region are exactly those printed from that listed region, twelve digits, and a UUID of five lowercase hexadecimal groups or mrk- and 32 digits |
| `Keys.RootInfoIsInjective` | src/keys.rs:253-269 | the HKDF info (section 2.3 of RFC 5869) determines key ARN, blockhash and network |
| `Keys.RootInfoFields` | src/keys.rs:243-269 | where each part of the info string lies, with the five network tags |
| `Keys.NumsPoint` | src/keys.rs:226-241 | the point of the least counter that decompresses, or none does |
| `Texts.JoinInvertsSplit` | src/keys.rs:142-203 | joining the split fields gives the text back |
| `Texts.SplitInvertsJoin` | src/keys.rs:142-203 | splitting joined separator-free fields gives the fields back |
| `Snapshot.RelativePathsArePlain` | scripts/source_snapshot.py:27-35 | the accepted paths are exactly the slash-joined plain components other than the manifest's name |
| `Snapshot.EntriesByPath` | scripts/source_snapshot.py:62-77 | the dictionary exists exactly for a valid inventory and holds exactly its entries |
| `Snapshot.FullDigest` | scripts/source_snapshot.py:72-73 | accepts exactly 64 lowercase hexadecimal digits |
| `Snapshot.VerifySnapshot` | scripts/source_snapshot.py:157-185 | the walk over the tree decides the verification predicate |
| `Snapshot.VerificationIsExact` | scripts/source_snapshot.py:157-185 | with a well-formed manifest, accepted exactly when the files are the inventory plus manifest with matching digests and flags, the directories are their ancestors, and nothing else exists |
| `Snapshot.AcceptedSnapshots` | scripts/source_snapshot.py:157-185 | accepted exactly when a regular version-one manifest with a valid inventory describes the whole tree |
| `Snapshot.MatchIsExact` | scripts/source_snapshot.py:38-59 | a source entry matches exactly when real directories lead to a regular file with its digest and flag |
| `Snapshot.AddExtends` | scripts/source_snapshot.py:143-146 | an exclusive creation that succeeds keeps the copied paths prefix-free and yields the larger tree |
| `Snapshot.AddFailsOnlyOnConflict` | scripts/source_snapshot.py:143-146 | it fails only if some path lies below another |
| `Snapshot.CopyEntries` | scripts/source_snapshot.py:138-147 | the copy loop succeeds exactly when every source file matches and the names are prefix-free |
| `Snapshot.CreateSnapshot` | scripts/source_snapshot.py:121-154 | a plan is accepted exactly when its inventory is valid, matches the source and is prefix-free together with the manifest; the created tree verifies |
| `Snapshot.CreatedTreeVerifies` | scripts/source_snapshot.py:157-185 | the tree of a copied inventory and its manifest is accepted by verification |

## Left out

- Cryptography: SHA-256, HKDF, BIP-32 derivation, MuSig and P-256 decompression are function values, not definitions.
- WASM compilation, validation, metering and the host crypto imports: a guest is a pair of functions on memory; fuel exhaustion is a trap, and for the two example guests it is not modelled, nor is a failing SHA-256 import.
- Machine code of the example guests: their Rust source is modelled, not the compiled `.wasm` files.
- The memory a guest leaves behind after evaluation: the host never reads it, so the module functions return it unchanged.
- The guest's stack buffers for hashes and the message: values, not memory.
- The registered pay-at-least interpreter: only its binary is used.
- Termination of the random id loop: `ArkSigner.ArkSigner.DrawId` is given a list of draws that contains an unused id.
- Repeated nonces: a secret nonce is known by a serial number, so the generator is taken never to repeat one.
- Mutex poisoning, panics and zeroization of secrets.
- `ArkSigner::new`'s root-depth check and the responses' hex and JSON encoding.
- HTTP routing, CORS, body limits, admission semaphores and timeouts, beyond a handler being dropped at any await.
- JSON, hex, CBOR, X.509 and COSE parsing, and the remaining attestation field checks.
- `src/nsm.rs`, `src/main.rs`, the KMS client, deployment files and the client drivers of the examples: input, output and configuration.
- `plan_sources` and its use of git, file modes beyond the executable bit, and the check that a snapshot lies outside its source tree.
- `View.EncodeView` requires a selected input with a map for version two: the source indexes the maps there and native authentication has already required it.
