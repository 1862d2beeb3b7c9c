/** The capped-fee sweep predicate (examples/vault/predicate.rs), from bytes to its plain meaning. */
module Vault {
  import opened ByteStrings
  import opened Outcomes
  import opened Transactions
  import opened View
  import opened ViewDecoding
  import opened Guest
  import opened ViewReading

  const DUST_FLOOR: nat := 330

  /** max_fee:u64LE, script_len:u32LE, script: the layout `instance` commits. */
  function Parameters(maxFee: U64, destination: Bytes): (b: Bytes)
  {
    Le(maxFee, 8) + Le(|destination|, 4) + destination
  }

  /** What the rule is for: one whole input swept to one committed script at a capped fee. */
  predicate SweepAllowed(input: SigningInput, maxFee: U64, destination: Bytes)
    requires input.Authenticated()
  {
    && input.inputIndex == 0
    && |input.tx.inputs| == 1
    && |input.tx.outputs| == 1
    && input.tx.outputs[0].script == destination
    && input.tx.outputs[0].value >= 330
    && 0 <= input.maps[0].witnessUtxo.value - input.tx.outputs[0].value <= maxFee
  }

  /** The final test, on decoded values. */
  function Settle(inputValue: U64, output: TxOut, maxFee: U64, destination: Bytes): (r: bool)
  {
    inputValue >= output.value
    && output.script == destination && output.value >= DUST_FLOOR && inputValue - output.value <= maxFee
  }

  function DecideOutputs(rest: Bytes, inputValue: U64, maxFee: U64, destination: Bytes): (r: Option<bool>)
  {
    if |rest| < 4 then None
    else if U32At(rest, 0) != 1 then Some(false)
    else match ParseOutput(rest[4..])
    case None => None
    case Some((output, left)) =>
      if left != [] then None else Some(Settle(inputValue, output, maxFee, destination))
  }

  function DecideBody(body: Bytes, maxFee: U64, destination: Bytes): (r: Option<bool>)
  {
    match ParseInput(body)
    case None => None
    case Some((input, rest)) => DecideOutputs(rest, input.value, maxFee, destination)
  }

  /** The part of the predicate that reads the view. */
  function DecideView(view: Bytes, maxFee: U64, destination: Bytes): (r: Option<bool>)
  {
    if |view| < 16 then None
    else if U32At(view, 8) != 0 || U32At(view, 12) != 1 then Some(false)
    else DecideBody(view[16..], maxFee, destination)
  }

  /** The predicate on arbitrary argument bytes. The parameters share the layout of a view output. */
  function Decide(arguments: Arguments): (r: Option<bool>)
  {
    if arguments.program != [] || arguments.evidence != [] then None else
    match ParseOutput(arguments.parameters)
    case None => None
    case Some((committed, left)) =>
      if left != [] then None else DecideView(arguments.view, committed.value, committed.script)
  }

  /** `u64::from_le_bytes` of a slice. */
  method DecodeU64(memory: array<Byte>, slice: Slice, ghost expected: U64) returns (n: U64)
    requires slice.length == 8 && slice.start + 8 <= memory.Length
    requires Content(memory, slice) == Le(expected, 8)
    ensures n == expected
  {
    Pow256Widths();
    U64RoundTrip(expected);
    n := FromLe(memory[slice.start..slice.start + 8]);
  }

  method SameBytes(memory: array<Byte>, a: Slice, b: Slice) returns (same: bool)
    requires a.start + a.length <= memory.Length && b.start + b.length <= memory.Length
    ensures same <==> Content(memory, a) == Content(memory, b)
  {
    same := memory[a.start..a.start + a.length] == memory[b.start..b.start + b.length];
  }

  /** The part after the input: one output, nothing else, and the settlement test. */
  method EvaluateOutputs(reader: Reader, inputValue: U64, maxFee: U64, destination: Slice) returns (r: Option<bool>)
    requires reader.Valid()
    requires destination.start + destination.length <= reader.memory.Length
    modifies reader`offset, reader`rest
    ensures r == DecideOutputs(old(reader.rest), inputValue, maxFee, Content(reader.memory, destination))
  {
    hide FromLe, Le, ParseOutput, Content, Reader.Valid;
    ghost var rest := reader.rest;
    var outputCount := reader.TakeU32();
    if outputCount.None? { return None; }
    if outputCount.value != 1 { return Some(false); }
    var output := TakeOutput(reader);
    if output.None? { return None; }
    if !reader.Finished() { return None; }
    var outputValue := DecodeU64(reader.memory, output.value.0, (ParseOutput(rest[4..]).value.0).value);
    var script := output.value.1;
    if inputValue < outputValue { return Some(false); }
    var fee := inputValue - outputValue;
    var same := SameBytes(reader.memory, script, destination);
    r := Some(same && outputValue >= DUST_FLOOR && fee <= maxFee);
  }

  /** The part after the header: one input, then the outputs. */
  method EvaluateBody(reader: Reader, maxFee: U64, destination: Slice) returns (r: Option<bool>)
    requires reader.Valid()
    requires destination.start + destination.length <= reader.memory.Length
    modifies reader`offset, reader`rest
    ensures r == DecideBody(old(reader.rest), maxFee, Content(reader.memory, destination))
  {
    hide FromLe, Le, ParseInput, DecideOutputs, Content, Reader.Valid;
    var input := TakeInput(reader);
    if input.None? { return None; }
    var inputValue := DecodeU64(reader.memory, input.value.1, (ParseInput(old(reader.rest)).value.0).value);
    r := EvaluateOutputs(reader, inputValue, maxFee, destination);
  }

  /** The view half of the predicate, step by step over memory. */
  method EvaluateView(memory: array<Byte>, view: Slice, maxFee: U64, destination: Slice) returns (r: Option<bool>)
    requires view.start + view.length <= memory.Length <= USIZE && view.length < USIZE
    requires destination.start + destination.length <= memory.Length
    ensures r == DecideView(Content(memory, view), maxFee, Content(memory, destination))
  {
    hide FromLe, DecideBody, Content, Reader.Valid;
    var reader := new Reader(memory, view);
    ghost var b := reader.rest;
    var versions := reader.Take(8);
    if versions.None? { return None; }
    var selected := reader.TakeU32();
    if selected.None? { return None; }
    assert b[8..][0..4] == b[8..12] && reader.rest == b[12..];
    var inputCount := reader.TakeU32();
    if inputCount.None? { return None; }
    assert b[12..][0..4] == b[12..16] && reader.rest == b[16..];
    if selected.value != 0 || inputCount.value != 1 { return Some(false); }
    r := EvaluateBody(reader, maxFee, destination);
  }

  /** `evaluate` on the four argument slices. */
  method EvaluateArguments(memory: array<Byte>, program: Slice, parameters: Slice, view: Slice, evidence: Slice)
    returns (r: Option<bool>)
    requires memory.Length <= USIZE && view.length < USIZE && parameters.length < USIZE
    requires program.start + program.length <= memory.Length && parameters.start + parameters.length <= memory.Length
    requires view.start + view.length <= memory.Length && evidence.start + evidence.length <= memory.Length
    ensures r == Decide(Arguments(Content(memory, program), Content(memory, parameters),
                                  Content(memory, view), Content(memory, evidence)))
  {
    hide ParseOutput, DecideView;
    if program.length != 0 || evidence.length != 0 { return None; }
    var params := new Reader(memory, parameters);
    var committed := TakeOutput(params);
    if committed.None? || !params.Finished() { return None; }
    ghost var parsed := ParseOutput(Content(memory, parameters)).value.0;
    var maxFee := DecodeU64(memory, committed.value.0, parsed.value);
    r := EvaluateView(memory, view, maxFee, committed.value.1);
  }

  /** `sapio_evaluate_v1` of the vault guest. */
  method Evaluate(guest: Instance, p: Pointers) returns (r: I32)
    requires guest.Valid()
    ensures r == EntryPoint(guest.memory[..], guest.base, guest.used, p, (a, used) => Decide(a))
  {
    hide Decide, Fetch;
    var slices := guest.ArgumentSlices(p);
    if slices.None? { return -1; }
    var (program, parameters, view, evidence) := slices.value;
    var decision := EvaluateArguments(guest.memory, program, parameters, view, evidence);
    r := Verdict(decision);
  }

  // ------------------------------------------------------ the plain meaning

  lemma ParametersParse(maxFee: U64, destination: Bytes)
    requires |destination| < 0x1_0000_0000
    ensures ParseOutput(Parameters(maxFee, destination)) == Some((TxOut(maxFee, destination), []))
  {
    hide ParseOutput, Le;
    ParseOutputInverts(TxOut(maxFee, destination), []);
    assert Parameters(maxFee, destination) == OutputBytes(TxOut(maxFee, destination)) + [];
  }

  /**
    On every view the encoder produces, with well-formed parameters and no
    program or witness, the byte-level predicate always answers, and its
    answer is the plain sweep rule.
   */
  lemma DecidesTheSweepRule(input: SigningInput, maxFee: U64, destination: Bytes)
    requires Encodable(V1, input)
    requires |destination| < 0x1_0000_0000
    ensures Decide(Arguments([], Parameters(maxFee, destination), ViewBytes(input), []))
            == Some(SweepAllowed(input, maxFee, destination))
  {
    hide ParseInput, ParseOutput, ViewBytes, InputsBytes, OutputsBytes, InputsSize, OutputsSize, Header, U32At, Parameters;
    ParametersParse(maxFee, destination);
    SizesFit(V1, input);
    ViewShape(input, []);
    assert ViewBytes(input) + [] == ViewBytes(input);
    var outs := OutputsBytes(input.tx.outputs) + [];
    var rest := Le(|input.tx.outputs|, 4) + outs;
    HeaderFields(input.tx, input.inputIndex, InputsBytes(ViewInputs(input)) + rest);
    if input.inputIndex == 0 && |input.tx.inputs| == 1 {
      SingleInput(ViewInputs(input), rest);
      CountPrefix(|input.tx.outputs|, outs);
      if |input.tx.outputs| == 1 {
        SingleOutput(input.tx.outputs);
        assert outs == OutputsBytes(input.tx.outputs);
      }
    }
  }

  /**
    On every view the encoder produces, the predicate answers exactly for an
    empty program, an empty witness and parameters in the committed layout;
    anything else is refused with an error, not with a verdict.
   */
  lemma AnswersExactlyWellFormedArguments(input: SigningInput, program: Bytes, parameters: Bytes, evidence: Bytes)
    requires Encodable(V1, input)
    ensures Decide(Arguments(program, parameters, ViewBytes(input), evidence)).Some? <==>
      && program == [] && evidence == []
      && exists maxFee, destination :: |destination| < 0x1_0000_0000 && parameters == Parameters(maxFee, destination)
  {
    hide ParseOutput, ViewBytes, DecideView, Parameters;
    if program == [] && evidence == [] {
      if ParseOutput(parameters).Some? && ParseOutput(parameters).value.1 == [] {
        var committed := ParseOutput(parameters).value.0;
        ParametersReprint(parameters);
        DecidesTheSweepRule(input, committed.value, committed.script);
      }
      forall maxFee, destination | |destination| < 0x1_0000_0000 && parameters == Parameters(maxFee, destination)
        ensures Decide(Arguments(program, parameters, ViewBytes(input), evidence)).Some?
      {
        DecidesTheSweepRule(input, maxFee, destination);
      }
    }
  }

  lemma ParametersReprint(b: Bytes)
    requires ParseOutput(b).Some? && ParseOutput(b).value.1 == []
    ensures var committed := ParseOutput(b).value.0;
      b == Parameters(committed.value, committed.script) && |committed.script| < 0x1_0000_0000
  {
    hide ParseOutput, Le;
    OutputReprints(b);
    var committed := ParseOutput(b).value.0;
    assert Parameters(committed.value, committed.script) == OutputBytes(committed) + [];
  }

  lemma SingleInput(inputs: seq<ViewInput>, rest: Bytes)
    requires |inputs| == 1 && InputsSize(inputs) < 0x1_0000_0000
    ensures ParseInput(InputsBytes(inputs) + rest) == Some((inputs[0], rest))
  {
    hide InputBytes, ParseInput;
    ParseInputInverts(inputs[0], rest);
    assert InputsBytes(inputs) == InputBytes(inputs[0]) + InputsBytes(inputs[1..]);
    assert InputsBytes(inputs) + rest == InputBytes(inputs[0]) + rest;
  }

  lemma SingleOutput(outputs: seq<TxOut>)
    requires |outputs| == 1 && OutputsSize(outputs) < 0x1_0000_0000
    ensures ParseOutput(OutputsBytes(outputs)) == Some((outputs[0], []))
  {
    hide OutputBytes, ParseOutput;
    ParseOutputInverts(outputs[0], []);
    assert OutputsBytes(outputs) == OutputBytes(outputs[0]) + OutputsBytes(outputs[1..]);
    assert OutputsBytes(outputs) == OutputBytes(outputs[0]) + [];
  }
}
