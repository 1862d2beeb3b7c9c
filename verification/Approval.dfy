/**
  What `prepare` checks before it reserves a session (src/ark_signer.rs) and
  what `authorize` adds for a spend (src/evaluator.rs), with cryptography,
  parsing and WASM execution as function values.
 */
module Approval {
  import opened ByteStrings
  import opened Outcomes
  import opened Transactions
  import opened View
  import NativePolicy

  type Key = Bytes
  type Xpriv = Bytes
  type Xpub = Bytes
  type ProgramId = Digest
  type EvaluatorId = Digest

  const SIGNING_PROTOCOL: string := "sapio-ark/nested-signing/1"

  /** `user` and `program` are members[0] and members[1]. */
  datatype Intent = Intent(user: Key, program: Key, server: Option<Key>, message: Digest, tweak: Bytes)

  datatype Program = Program(evaluator: EvaluatorId, program: Bytes, parameters: Bytes)

  /** The wallet's key description; `claimedId` is the identity it says its program has. */
  datatype ProgramKey = ProgramKey(root: Xpub, program: Program, claimedId: ProgramId, userPubkey: Key)

  datatype SpendRequest = SpendRequest(body: Bytes, evidence: Bytes)

  datatype OwnershipRequest = OwnershipRequest(input: Bytes, proof: NativePolicy.OwnershipProof)

  datatype Action = Spend(spend: SpendRequest) | Ownership(ownership: OwnershipRequest)

  datatype PrepareRequest = PrepareRequest(protocol: string, key: ProgramKey, action: Action, userNonce: string)

  /** The native signing context of a spend, with the metadata of the selected input. */
  datatype SpendContext = SpendContext(
    input: SigningInput, finalScriptSig: bool, finalScriptWitness: bool, annex: Option<Option<Bytes>>)

  datatype Registered = Registered(id: EvaluatorId, version: WasmVersion, code: Bytes)

  /** Everything the signer calls and this model does not look into. */
  datatype Library = Library(
    intent: (Action, ProgramKey) -> Option<Intent>,
    memberNonce: (Intent, Key, string) -> Option<Bytes>,
    validProgram: Program -> bool,
    programId: Program -> ProgramId,
    publicRoot: Xpriv -> Xpub,
    derivePublic: (Xpub, ProgramId) -> Option<Key>,
    derivePrivate: (Xpriv, ProgramId) -> Option<Bytes>,
    publicKey: Bytes -> Key,
    inlineVersion: EvaluatorId -> Option<WasmVersion>,
    spendContext: (SpendRequest, ProgramKey) -> Option<SpendContext>,
    validPsbt: SpendContext -> bool,
    sighash: SpendContext -> Option<Digest>,
    evaluate: (WasmVersion, Bytes, Bytes, Bytes, SigningInput, Bytes) -> Option<bool>,
    ownershipMessage: (OwnershipRequest, ProgramKey) -> Option<Digest>,
    policy: NativePolicy.Codec)

  /** The one law needed of key derivation: its private and public forms agree. */
  ghost predicate DerivationsAgree(lib: Library)
  {
    forall root, id {:trigger lib.derivePrivate(root, id)} ::
      lib.derivePublic(lib.publicRoot(root), id) ==
      match lib.derivePrivate(root, id) case None => None case Some(secret) => Some(lib.publicKey(secret))
  }

  datatype Signer = Signer(root: Xpriv, registry: seq<Registered>)

  datatype Approved = Approved(programId: ProgramId, intent: Intent, userNonce: Bytes)

  // ------------------------------------------------------------- authorize

  /** The first registered evaluator with this id. */
  function Find(registry: seq<Registered>, id: EvaluatorId): (r: Option<Registered>)
    ensures r.Some? ==> r.value in registry && r.value.id == id
    ensures r.None? ==> forall i :: 0 <= i < |registry| ==> registry[i].id != id
  {
    if registry == [] then None else if registry[0].id == id then Some(registry[0]) else Find(registry[1..], id)
  }

  /** Which module runs, which program bytes it gets, and under which ABI. */
  function Dispatch(lib: Library, registry: seq<Registered>, program: Program): (r: Option<(Bytes, Bytes, WasmVersion)>)
  {
    match lib.inlineVersion(program.evaluator)
    case Some(version) => Some((program.program, [], version))
    case None =>
      match Find(registry, program.evaluator)
      case None => None
      case Some(entry) => Some((entry.code, program.program, entry.version))
  }

  predicate Authorize(
    lib: Library, registry: seq<Registered>, program: Program, context: SpendContext, evidence: Bytes, message: Digest)
  {
    && lib.validPsbt(context)
    && lib.sighash(context) == Some(message)
    && !context.finalScriptSig && !context.finalScriptWitness
    && context.annex == Some(None)
    && var dispatch := Dispatch(lib, registry, program);
    && dispatch.Some?
    && var (code, selector, version) := dispatch.value;
    lib.evaluate(version, code, selector, program.parameters, context.input, evidence) == Some(true)
  }

  // --------------------------------------------------------------- prepare

  predicate ActionApproved(
    lib: Library, signer: Signer, request: PrepareRequest, intent: Intent, policy: Option<NativePolicy.Policy>)
  {
    match request.action
    case Spend(spend) =>
      var context := lib.spendContext(spend, request.key);
      context.Some? && Authorize(lib, signer.registry, request.key.program, context.value, spend.evidence, intent.message)
    case Ownership(ownership) =>
      && (policy.Some? ==> NativePolicy.Enforce(policy.value, ownership.proof))
      && lib.ownershipMessage(ownership, request.key) == Some(intent.message)
  }

  /** Every check of `prepare` that precedes the reservation, in order. */
  function Approve(lib: Library, signer: Signer, request: PrepareRequest): (r: Option<Approved>)
  {
    if request.protocol != SIGNING_PROTOCOL || request.key.root != lib.publicRoot(signer.root) then None else
    match lib.intent(request.action, request.key)
    case None => None
    case Some(intent) =>
      match lib.memberNonce(intent, request.key.userPubkey, request.userNonce)
      case None => None
      case Some(userNonce) =>
        var program := request.key.program;
        var id := lib.programId(program);
        if !lib.validProgram(program) || id != request.key.claimedId then None
        else if lib.derivePublic(request.key.root, id) != Some(intent.program) then None
        else match NativePolicy.Parse(lib.policy, program.parameters)
        case Err(_) => None
        case Ok(policy) =>
          if policy.Some? && lib.inlineVersion(program.evaluator).None? then None
          else if ActionApproved(lib, signer, request, intent, policy) then Some(Approved(id, intent, userNonce))
          else None
  }

  // ------------------------------------------------- approval, said exactly

  /** The entry that a search from the front finds. */
  predicate FirstWith(registry: seq<Registered>, id: EvaluatorId, k: nat)
  {
    k < |registry| && registry[k].id == id && forall j :: 0 <= j < k ==> registry[j].id != id
  }

  lemma {:induction false} FindIsFirst(registry: seq<Registered>, id: EvaluatorId, k: nat)
    requires FirstWith(registry, id, k)
    ensures Find(registry, id) == Some(registry[k])
  {
    if k > 0 {
      FindIsFirst(registry[1..], id, k - 1);
    }
  }

  lemma {:induction false} FoundIsFirst(registry: seq<Registered>, id: EvaluatorId) returns (k: nat)
    requires Find(registry, id).Some?
    ensures FirstWith(registry, id, k) && Find(registry, id) == Some(registry[k])
  {
    if registry[0].id == id {
      k := 0;
    } else {
      var rest := FoundIsFirst(registry[1..], id);
      k := rest + 1;
    }
  }

  /**
    The evaluator said yes. An inline program is its own module and gets an
    empty selector; any other runs the code and ABI of the first registry entry
    with its evaluator id, and its bytes are the selector.
   */
  ghost predicate EvaluatedTrue(
    lib: Library, registry: seq<Registered>, program: Program, input: SigningInput, evidence: Bytes)
  {
    var inline := lib.inlineVersion(program.evaluator);
    || (inline.Some? && lib.evaluate(inline.value, program.program, [], program.parameters, input, evidence) == Some(true))
    || (inline.None? && exists k: nat ::
          && FirstWith(registry, program.evaluator, k)
          && lib.evaluate(registry[k].version, registry[k].code, program.program, program.parameters, input, evidence) == Some(true))
  }

  /** A spend of an un-finalised, annex-free input that signs what was evaluated. */
  ghost predicate SpendJustified(lib: Library, registry: seq<Registered>, key: ProgramKey, spend: SpendRequest, message: Digest)
  {
    exists context ::
      && lib.spendContext(spend, key) == Some(context)
      && lib.validPsbt(context) && lib.sighash(context) == Some(message)
      && !context.finalScriptSig && !context.finalScriptWitness && context.annex == Some(None)
      && EvaluatedTrue(lib, registry, key.program, context.input, spend.evidence)
  }

  /** A proof that any policy of the program accepts, over the message of the intent. */
  ghost predicate OwnershipJustified(
    lib: Library, policy: Option<NativePolicy.Policy>, key: ProgramKey, ownership: OwnershipRequest, message: Digest)
  {
    && lib.ownershipMessage(ownership, key) == Some(message)
    && (policy.Some? ==> NativePolicy.Enforce(policy.value, ownership.proof))
  }

  /** The program's parameters parse, and a policy among them belongs to an inline program. */
  ghost predicate PolicyAdmissible(lib: Library, program: Program, policy: Option<NativePolicy.Policy>)
  {
    && NativePolicy.Parse(lib.policy, program.parameters) == Ok(policy)
    && (policy.Some? ==> lib.inlineVersion(program.evaluator).Some?)
  }

  /** Everything a request must be for a session with this id, intent and user nonce. */
  ghost predicate Justified(lib: Library, signer: Signer, request: PrepareRequest, a: Approved)
  {
    var key := request.key;
    && request.protocol == SIGNING_PROTOCOL
    && key.root == lib.publicRoot(signer.root)
    && lib.intent(request.action, key) == Some(a.intent)
    && lib.memberNonce(a.intent, key.userPubkey, request.userNonce) == Some(a.userNonce)
    && lib.validProgram(key.program)
    && a.programId == key.claimedId == lib.programId(key.program)
    && lib.derivePublic(key.root, a.programId) == Some(a.intent.program)
    && exists policy ::
      && PolicyAdmissible(lib, key.program, policy)
      && (request.action.Spend? ==>
            SpendJustified(lib, signer.registry, key, request.action.spend, a.intent.message))
      && (request.action.Ownership? ==>
            OwnershipJustified(lib, policy, key, request.action.ownership, a.intent.message))
  }

  lemma AuthorizedIsEvaluated(
    lib: Library, registry: seq<Registered>, program: Program, context: SpendContext, evidence: Bytes, message: Digest)
    ensures Authorize(lib, registry, program, context, evidence, message) <==>
      && lib.validPsbt(context) && lib.sighash(context) == Some(message)
      && !context.finalScriptSig && !context.finalScriptWitness && context.annex == Some(None)
      && EvaluatedTrue(lib, registry, program, context.input, evidence)
  {
    hide Find;
    if lib.inlineVersion(program.evaluator).None? {
      if Find(registry, program.evaluator).Some? {
        var k := FoundIsFirst(registry, program.evaluator);
        assert FirstWith(registry, program.evaluator, k);
      }
      forall k: nat | FirstWith(registry, program.evaluator, k) ensures Find(registry, program.evaluator) == Some(registry[k]) {
        FindIsFirst(registry, program.evaluator, k);
      }
    }
  }

  lemma ActionIsJustified(lib: Library, signer: Signer, request: PrepareRequest, intent: Intent, policy: Option<NativePolicy.Policy>)
    ensures ActionApproved(lib, signer, request, intent, policy) <==>
      && (request.action.Spend? ==>
            SpendJustified(lib, signer.registry, request.key, request.action.spend, intent.message))
      && (request.action.Ownership? ==>
            OwnershipJustified(lib, policy, request.key, request.action.ownership, intent.message))
  {
    hide Authorize, EvaluatedTrue;
    if request.action.Spend? {
      var spend := request.action.spend;
      var context := lib.spendContext(spend, request.key);
      if context.Some? {
        AuthorizedIsEvaluated(lib, signer.registry, request.key.program, context.value, spend.evidence, intent.message);
      }
    }
  }

  /** `prepare` approves exactly the justified requests, with exactly this id, intent and user nonce. */
  lemma ApprovalIsExact(lib: Library, signer: Signer, request: PrepareRequest, a: Approved)
    ensures Approve(lib, signer, request) == Some(a) <==> Justified(lib, signer, request, a)
  {
    hide ActionApproved, SpendJustified, OwnershipJustified, NativePolicy.Parse;
    var parsed := NativePolicy.Parse(lib.policy, request.key.program.parameters);
    if parsed.Ok? {
      ActionIsJustified(lib, signer, request, a.intent, parsed.value);
      assert PolicyAdmissible(lib, request.key.program, parsed.value) <==>
        (parsed.value.Some? ==> lib.inlineVersion(request.key.program.evaluator).Some?);
    }
  }

  /** An evaluator that is neither inline nor registered approves no spend. */
  lemma UnknownEvaluatorApprovesNothing(lib: Library, signer: Signer, request: PrepareRequest)
    requires request.action.Spend? && lib.inlineVersion(request.key.program.evaluator).None?
    requires forall k :: 0 <= k < |signer.registry| ==> signer.registry[k].id != request.key.program.evaluator
    ensures Approve(lib, signer, request) == None
  {
    hide Approve;
    var approved := Approve(lib, signer, request);
    if approved.Some? {
      ApprovalIsExact(lib, signer, request, approved.value);
    }
  }
}
