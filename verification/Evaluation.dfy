/** One evaluation from module bytes to verdict (src/evaluator.rs, `evaluate`). */
module Evaluation {
  import opened ByteStrings
  import opened Outcomes
  import opened Transactions
  import opened View
  import opened ViewDecoding
  import opened Guest
  import opened Host
  import opened Budget
  import opened Pipeline
  import Bip446
  import Vault

  /** A fresh instance of a compiled module. */
  datatype Loaded<!G> = Loaded(code: Module<G>, memory: Bytes, globals: G)

  /** What the WASM toolchain contributes: the payload stream of a module, and its instantiation. */
  datatype Toolchain<!G> = Toolchain(parse: Bytes -> seq<Payload>, instantiate: Bytes -> Option<Loaded<G>>)

  /** "\0asm" and version one. */
  const WASM_PREFIX: Bytes := [0x00, 0x61, 0x73, 0x6D, 0x01, 0x00, 0x00, 0x00]

  datatype EvaluationError = ModuleTooLarge | NotVersionOne | OverBudget(BudgetError) | InputTooLarge
                           | BadView(ViewError) | NotInstantiable | Failed(HostError)

  predicate ModuleAccepted(version: WasmVersion, bytes: Bytes, payloads: seq<Payload>)
  {
    && |bytes| <= MAX_PROGRAM_BYTES && WASM_PREFIX <= bytes
    && NoOtherDefect(version, payloads) && Slots(payloads) <= MAX_FUNCTION_SLOTS
  }

  /** The answer of an evaluation, or none if it fails anywhere. */
  function Answer<G>(
    t: Toolchain<G>, version: WasmVersion, bytes: Bytes, program: Bytes, parameters: Bytes,
    input: SigningInput, evidence: Bytes)
    : (r: Option<bool>)
    requires input.Authenticated()
  {
    if !ModuleAccepted(version, bytes, t.parse(bytes)) then None
    else if |program| > MAX_PROGRAM_BYTES || |parameters| > MAX_PARAMETER_BYTES || |evidence| > MAX_WITNESS_BYTES then None
    else if !Encodable(version, input) then None
    else match t.instantiate(bytes)
    case None => None
    case Some(loaded) =>
      match Exchange(loaded.code, loaded.memory, loaded.globals,
                     [program, parameters, VersionedView(version, input), evidence])
      case Ok(verdict) => Some(verdict)
      case Err(_) => None
  }

  method Evaluate<G>(
    t: Toolchain<G>, version: WasmVersion, bytes: Bytes, program: Bytes, parameters: Bytes,
    input: SigningInput, evidence: Bytes)
    returns (r: Result<bool, EvaluationError>)
    requires input.Authenticated()
    requires version.V2? ==> input.inputIndex < |input.maps|
    ensures r.Ok? <==> Answer(t, version, bytes, program, parameters, input, evidence).Some?
    ensures r.Ok? ==> Answer(t, version, bytes, program, parameters, input, evidence) == Some(r.value)
  {
    hide NoOtherDefect, Slots, VersionedView, ViewSize, Exchange;
    if |bytes| > MAX_PROGRAM_BYTES { return Err(ModuleTooLarge); }
    if !(WASM_PREFIX <= bytes) { return Err(NotVersionOne); }
    var budget := CheckCompilationBudget(version, t.parse(bytes));
    if budget.Err? { return Err(OverBudget(budget.error)); }
    if |program| > MAX_PROGRAM_BYTES || |parameters| > MAX_PARAMETER_BYTES || |evidence| > MAX_WITNESS_BYTES {
      return Err(InputTooLarge);
    }
    var view := EncodeView(version, input);
    if view.Err? { return Err(BadView(view.error)); }
    var loaded := t.instantiate(bytes);
    if loaded.None? { return Err(NotInstantiable); }
    var exchange := Host.Evaluate(loaded.value.code, loaded.value.memory, loaded.value.globals,
                                  [program, parameters, view.value, evidence]);
    if exchange.Err? { return Err(Failed(exchange.error)); }
    r := Ok(exchange.value);
  }

  /** Memory holds these bytes where a pointer/length pair of the call says. */
  predicate HoldsAt(memory: Bytes, pointer: I32, length: I32, bytes: Bytes)
  {
    && AsU32(length) == |bytes|
    && (bytes != [] ==>
          AsU32(pointer) + |bytes| <= |memory| && memory[AsU32(pointer)..AsU32(pointer) + |bytes|] == bytes)
  }

  /** The guest was called with exactly these four byte strings in memory. */
  predicate CalledOn(memory: Bytes, a: CallArguments, program: Bytes, parameters: Bytes, view: Bytes, evidence: Bytes)
  {
    && HoldsAt(memory, a.p0, a.l0, program) && HoldsAt(memory, a.p1, a.l1, parameters)
    && HoldsAt(memory, a.p2, a.l2, view) && HoldsAt(memory, a.p3, a.l3, evidence)
  }

  /**
    An answer is the guest's own, whatever the guest: it returned exactly one
    for true or zero for false, called with program, parameters, witness and the
    view of its ABI version in memory. A version-two guest sees the version-one
    view followed by the authenticated key and a zero length.
   */
  lemma AnswerIsTheGuests<G(!new)>(
    t: Toolchain<G>, version: WasmVersion, bytes: Bytes, program: Bytes, parameters: Bytes,
    input: SigningInput, evidence: Bytes, verdict: bool)
    returns (memory: Bytes, globals: G, a: CallArguments)
    requires input.Authenticated() && Answer(t, version, bytes, program, parameters, input, evidence) == Some(verdict)
    requires t.instantiate(bytes).Some? ==> NeverShrinks(t.instantiate(bytes).value.code)
    ensures t.instantiate(bytes).Some?
    ensures var call := t.instantiate(bytes).value.code.evaluate(memory, globals, a);
      call.Return? && call.value == if verdict then 1 else 0
    ensures version == V1 ==> CalledOn(memory, a, program, parameters, ViewBytes(input), evidence)
    ensures version == V2 ==> KeyPresent(input) && CalledOn(memory, a, program, parameters,
      ViewBytes(input) + input.maps[input.inputIndex].tapInternalKey.value + [0, 0, 0, 0], evidence)
  {
    hide ModuleAccepted, ViewBytes, ViewSize, Allocate, CopyInputs, HoldsAt, NeverShrinks, LengthArgument, PointerArgument;
    var loaded := t.instantiate(bytes).value;
    var view := VersionedView(version, input);
    var inputs := [program, parameters, view, evidence];
    ViewSizeIsLength(version, input);
    var start := Allocation(loaded.memory, loaded.globals, [], []);
    PlacementIsSafe(loaded.code, loaded.memory, loaded.globals, inputs);
    var placed := Allocate(loaded.code, inputs, start).value;
    memory := CopyInputs(placed.memory, inputs, placed.ranges).value;
    globals := placed.globals;
    a := PackArguments(inputs, placed.ranges);
    AllocationIsChecked(loaded.code, inputs, start);
    PlacedHolds(memory, inputs[0], placed.ranges[0], placed.pointers[0], |placed.memory|);
    PlacedHolds(memory, inputs[1], placed.ranges[1], placed.pointers[1], |placed.memory|);
    PlacedHolds(memory, inputs[2], placed.ranges[2], placed.pointers[2], |placed.memory|);
    PlacedHolds(memory, inputs[3], placed.ranges[3], placed.pointers[3], |placed.memory|);
    if version == V2 {
      VersionTwoExtendsVersionOne(input);
    }
  }

  lemma PlacedHolds(memory: Bytes, bytes: Bytes, range: Range, pointer: I32, size: nat)
    requires Fits(bytes, range, pointer, size) && |memory| == size && |bytes| < 0x1_0000_0000
    requires PointerArgument(range) == pointer && range.start <= range.end <= size && memory[range.start..range.end] == bytes
    ensures HoldsAt(memory, PointerArgument(range), LengthArgument(bytes), bytes)
  {}

  /**
    An approval by the template guest means that the transaction hashes to the
    commitment; with room for the buffers the converse holds as well.
   */
  lemma TemplateApproval(
    t: Toolchain<nat>, bytes: Bytes, base: nat, memory: Bytes, sha: Sha256, input: SigningInput, committed: Digest)
    requires t.instantiate(bytes) == Some(Loaded(TemplateModule(base, sha), memory, 0)) && Layout(base, |memory|)
    requires ModuleAccepted(V1, bytes, t.parse(bytes))
    requires Encodable(V1, input) && input.inputIndex < |input.tx.inputs|
    ensures var hash := Bip446.TemplateHash(sha, input.tx, input.inputIndex);
      var answer := Answer(t, V1, bytes, [], committed, input, []);
      && (answer == Some(true) ==> hash == committed)
      && (32 + 2 * |ViewBytes(input)| + 4 * |input.tx.inputs| <= INPUT_CAPACITY ==> answer == Some(hash == committed))
  {
    hide ViewBytes, Exchange, TemplateModule, ModuleAccepted;
    TemplatePipeline(base, memory, sha, input, committed);
  }

  /** The vault guest always answers, and its answer is the sweep rule. */
  lemma VaultAnswer(
    t: Toolchain<nat>, bytes: Bytes, base: nat, memory: Bytes, input: SigningInput, maxFee: U64, destination: Bytes)
    requires t.instantiate(bytes) == Some(Loaded(VaultModule(base), memory, 0)) && Layout(base, |memory|)
    requires ModuleAccepted(V1, bytes, t.parse(bytes))
    requires Encodable(V1, input) && 12 + |destination| <= MAX_PARAMETER_BYTES
    ensures Answer(t, V1, bytes, [], Vault.Parameters(maxFee, destination), input, [])
            == Some(Vault.SweepAllowed(input, maxFee, destination))
  {
    hide ViewBytes, Exchange, VaultModule, ModuleAccepted;
    VaultPipeline(base, memory, input, maxFee, destination);
  }
}
