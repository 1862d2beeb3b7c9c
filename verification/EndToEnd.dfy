/**
  From a released partial signature down to the transaction: in every run of
  the signer, what a partial under one of the example programs signs.
 */
module EndToEnd {
  import opened ByteStrings
  import opened Outcomes
  import opened Transactions
  import opened View
  import opened ViewDecoding
  import opened Guest
  import opened Pipeline
  import opened Evaluation
  import opened Approval
  import opened Sessions
  import opened SessionTrace
  import opened Release
  import opened Host
  import Bip446
  import Template
  import TemplateMeaning
  import Vault

  /** The signer evaluates with this toolchain; a context that is not authenticated is never evaluated. */
  ghost predicate EvaluatesWith(lib: Library, t: Toolchain<nat>)
  {
    forall version, code, selector, parameters, input: SigningInput, evidence ::
      lib.evaluate(version, code, selector, parameters, input, evidence) ==
      if input.Authenticated() then Answer(t, version, code, selector, parameters, input, evidence) else None
  }

  /** No other program shares this program's id: the id hash is not collided here. */
  ghost predicate IdCommits(lib: Library, program: Program)
  {
    forall other :: lib.programId(other) == lib.programId(program) ==> other == program
  }

  /** An inline version-one program whose module loads as the given guest. */
  ghost predicate RunsInline(lib: Library, t: Toolchain<nat>, program: Program, loaded: Loaded<nat>)
  {
    lib.inlineVersion(program.evaluator) == Some(V1) && t.instantiate(program.program) == Some(loaded)
  }

  /**
    The modelled evaluator said yes to a program: run as its own module if it is
    inline, or as the selector of the first registered evaluator with its id.
   */
  ghost predicate AnsweredYes(
    lib: Library, t: Toolchain<nat>, registry: seq<Registered>, program: Program, input: SigningInput, evidence: Bytes)
  {
    && input.Authenticated()
    && var inline := lib.inlineVersion(program.evaluator);
    || (inline.Some? && Answer(t, inline.value, program.program, [], program.parameters, input, evidence) == Some(true))
    || (inline.None? && exists k: nat ::
          && FirstWith(registry, program.evaluator, k)
          && Answer(t, registry[k].version, registry[k].code, program.program, program.parameters, input, evidence) == Some(true))
  }

  lemma EvaluatedMeansAnswered(
    lib: Library, t: Toolchain<nat>, registry: seq<Registered>, program: Program, input: SigningInput, evidence: Bytes)
    requires EvaluatesWith(lib, t) && EvaluatedTrue(lib, registry, program, input, evidence)
    ensures AnsweredYes(lib, t, registry, program, input, evidence)
  {
    hide Answer;
  }

  /** What the released partial at index j of the log stands for, whatever the program. */
  lemma SpendBehindPartial(w: World, t: Toolchain<nat>, clock: nat, steps: seq<Step>, j: nat, program: Program)
    returns (i: nat, context: SpendContext)
    requires DerivationsAgree(w.lib) && EvaluatesWith(w.lib, t) && IdCommits(w.lib, program)
    requires var log := Run(w, Initial(clock), steps).log;
      j < |log| && log[j].Released? && log[j].pending.programId == w.lib.programId(program)
    ensures var log := Run(w, Initial(clock), steps).log;
      && i < j && log[i].Admitted? && log[i].pending == log[j].pending
      && log[i].request.key.program == program
      && (log[i].request.action.Spend? ==>
           && w.lib.spendContext(log[i].request.action.spend, log[i].request.key) == Some(context)
           && w.lib.sighash(context) == Some(log[j].pending.intent.message)
           && AnsweredYes(w.lib, t, w.signer.registry, program, context.input, log[i].request.action.spend.evidence))
  {
    hide Run, DerivationsAgree, EvaluatedTrue, AnsweredYes, EvaluatesWith, Entitled, PolicyAdmissible, OwnershipJustified;
    var log := Run(w, Initial(clock), steps).log;
    var p := log[j].pending;
    var grounds;
    i, grounds := EveryPartialIsTraced(w, clock, steps, j);
    var request := log[i].request;
    assert w.lib.programId(request.key.program) == w.lib.programId(program);
    context :| request.action.Spend? ==>
      && w.lib.spendContext(request.action.spend, request.key) == Some(context)
      && w.lib.sighash(context) == Some(p.intent.message)
      && EvaluatedTrue(w.lib, w.signer.registry, program, context.input, request.action.spend.evidence);
    if request.action.Spend? {
      EvaluatedMeansAnswered(w.lib, t, w.signer.registry, program, context.input, request.action.spend.evidence);
    }
  }

  /** An approval by an example guest is an approval by its predicate, on the bytes the host encoded. */
  lemma ApprovalReachesPredicate(
    t: Toolchain<nat>, code: Bytes, base: nat, memory: Bytes, decide: Decision,
    parameters: Bytes, input: SigningInput, evidence: Bytes)
    requires t.instantiate(code) == Some(Loaded(ExampleModule(base, decide), memory, 0)) && Layout(base, |memory|)
    requires input.Authenticated() && Answer(t, V1, code, [], parameters, input, evidence) == Some(true)
    ensures Encodable(V1, input) && |parameters| <= MAX_PARAMETER_BYTES
    ensures decide(Arguments([], parameters, ViewBytes(input), evidence),
                   |parameters| + |ViewBytes(input)| + |evidence|) == Some(true)
  {
    hide ViewBytes, ExampleModule, ModuleAccepted, Encodable, Exchange;
    ViewSizeFits(input);
    GuestSeesTheInputs(base, memory, decide, [[], parameters, ViewBytes(input), evidence]);
  }

  lemma ViewSizeFits(input: SigningInput)
    requires input.Authenticated()
    ensures Encodable(V1, input) ==> |ViewBytes(input)| <= MAX_SIGNED_VIEW_BYTES
  {
    ViewSizeIsLength(V1, input);
  }

  lemma VaultApprovalMeans(input: SigningInput, maxFee: U64, destination: Bytes, evidence: Bytes)
    requires Encodable(V1, input) && |destination| < 0x1_0000_0000
    requires Vault.Decide(Arguments([], Vault.Parameters(maxFee, destination), ViewBytes(input), evidence)) == Some(true)
    ensures Vault.SweepAllowed(input, maxFee, destination)
  {
    hide ViewBytes, Vault.Parameters, Vault.DecideView, Vault.SweepAllowed, ParseOutput;
    Vault.DecidesTheSweepRule(input, maxFee, destination);
  }

  /**
    Every partial a vault program releases for a spend signs a transaction
    that sweeps one whole input to the committed script at a capped fee.
   */
  lemma VaultPartialsSweep(
    w: World, t: Toolchain<nat>, clock: nat, steps: seq<Step>, j: nat,
    program: Program, base: nat, memory: Bytes, maxFee: U64, destination: Bytes)
    returns (i: nat, context: SpendContext)
    requires DerivationsAgree(w.lib) && EvaluatesWith(w.lib, t) && IdCommits(w.lib, program)
    requires RunsInline(w.lib, t, program, Loaded(VaultModule(base), memory, 0)) && Layout(base, |memory|)
    requires program.parameters == Vault.Parameters(maxFee, destination)
    requires var log := Run(w, Initial(clock), steps).log;
      j < |log| && log[j].Released? && log[j].pending.programId == w.lib.programId(program)
    ensures var log := Run(w, Initial(clock), steps).log;
      && i < j && log[i].Admitted? && log[i].pending == log[j].pending
      && (log[i].request.action.Spend? ==>
           && w.lib.sighash(context) == Some(log[j].pending.intent.message)
           && context.input.Authenticated()
           && Vault.SweepAllowed(context.input, maxFee, destination))
  {
    hide Run, Answer, ExampleModule, DerivationsAgree, EvaluatesWith, IdCommits, Vault.SweepAllowed, Vault.Parameters, Vault.Decide, ViewBytes;
    i, context := SpendBehindPartial(w, t, clock, steps, j, program);
    var request := Run(w, Initial(clock), steps).log[i].request;
    if request.action.Spend? {
      var evidence := request.action.spend.evidence;
      ApprovalReachesPredicate(t, program.program, base, memory, (a: Arguments, used: nat) => Vault.Decide(a),
        program.parameters, context.input, evidence);
      ParametersLength(maxFee, destination);
      VaultApprovalMeans(context.input, maxFee, destination, evidence);
    }
  }

  lemma ParametersLength(maxFee: U64, destination: Bytes)
    ensures |Vault.Parameters(maxFee, destination)| == 12 + |destination|
  {}

  lemma TemplateApprovalMeans(sha: Sha256, input: SigningInput, committed: Digest, evidence: Bytes, used: nat)
    requires Encodable(V1, input)
    requires Template.Decide(sha, Arguments([], committed, ViewBytes(input), evidence), used) == Some(true)
    ensures input.inputIndex < |input.tx.inputs|
    ensures Bip446.TemplateHash(sha, input.tx, input.inputIndex) == committed
  {
    hide ViewBytes, Template.DecideInputs, Bip446.TemplateHash, U32At;
    assert evidence == [];
    if input.inputIndex >= |input.tx.inputs| {
      TemplateMeaning.RefusesForeignIndex(sha, input, committed, used);
    } else {
      TemplateMeaning.DecidesTheTemplateHash(sha, input, committed, used);
    }
  }

  /** Every partial a template program releases for a spend signs a transaction with the committed BIP-446 hash. */
  lemma TemplatePartialsMatch(
    w: World, t: Toolchain<nat>, clock: nat, steps: seq<Step>, j: nat,
    program: Program, base: nat, memory: Bytes, sha: Sha256, committed: Digest)
    returns (i: nat, context: SpendContext)
    requires DerivationsAgree(w.lib) && EvaluatesWith(w.lib, t) && IdCommits(w.lib, program)
    requires RunsInline(w.lib, t, program, Loaded(TemplateModule(base, sha), memory, 0)) && Layout(base, |memory|)
    requires program.parameters == committed
    requires var log := Run(w, Initial(clock), steps).log;
      j < |log| && log[j].Released? && log[j].pending.programId == w.lib.programId(program)
    ensures var log := Run(w, Initial(clock), steps).log;
      && i < j && log[i].Admitted? && log[i].pending == log[j].pending
      && (log[i].request.action.Spend? ==>
           && w.lib.sighash(context) == Some(log[j].pending.intent.message)
           && context.input.inputIndex < |context.input.tx.inputs| && context.input.inputIndex < 0x1_0000_0000
           && Bip446.TemplateHash(sha, context.input.tx, context.input.inputIndex) == committed)
  {
    hide Run, Answer, ExampleModule, DerivationsAgree, EvaluatesWith, IdCommits, Bip446.TemplateHash, ViewBytes, Template.Decide;
    i, context := SpendBehindPartial(w, t, clock, steps, j, program);
    var request := Run(w, Initial(clock), steps).log[i].request;
    if request.action.Spend? {
      var evidence := request.action.spend.evidence;
      var decide := (a: Arguments, used: nat) => Template.Decide(sha, a, used);
      ApprovalReachesPredicate(t, program.program, base, memory, decide, program.parameters, context.input, evidence);
      TemplateApprovalMeans(sha, context.input, committed, evidence,
        |program.parameters| + |ViewBytes(context.input)| + |evidence|);
    }
  }
}
