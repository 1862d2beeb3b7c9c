/**
  The bounded binary view of a transaction that the host hands to a guest
  (src/evaluator.rs, `encode_view`): its bytes, its size and the encoder's two passes.
 */
module View {
  import opened ByteStrings
  import opened Outcomes
  import opened Transactions

  const MAX_SIGNED_VIEW_BYTES: nat := 1_048_576

  datatype WasmVersion = V1 | V2

  datatype ViewError = TooLarge | CountOverflow | IndexOverflow | MissingInternalKey

  /** What the view says about one input: the txin and the output it spends. */
  datatype ViewInput = ViewInput(outPoint: OutPoint, sequence: U32, value: U64, script: Bytes)

  datatype ViewFields = ViewFields(
    version: I32, lockTime: U32, inputIndex: U32,
    inputs: seq<ViewInput>, outputs: seq<TxOut>, internalKey: Option<Digest>)

  // ---------------------------------------------------------------- encoding

  function InputBytes(i: ViewInput): (b: Bytes)
    ensures |b| == 52 + |i.script|
  {
    i.outPoint.txid + Le(i.outPoint.vout, 4) + Le(i.sequence, 4) + Le(i.value, 8) + Le(|i.script|, 4) + i.script
  }

  function OutputBytes(o: TxOut): (b: Bytes)
    ensures |b| == 12 + |o.script|
  {
    Le(o.value, 8) + Le(|o.script|, 4) + o.script
  }

  function InputsBytes(inputs: seq<ViewInput>): (b: Bytes)
  {
    if inputs == [] then [] else InputBytes(inputs[0]) + InputsBytes(inputs[1..])
  }

  function OutputsBytes(outputs: seq<TxOut>): (b: Bytes)
  {
    if outputs == [] then [] else OutputBytes(outputs[0]) + OutputsBytes(outputs[1..])
  }

  function ViewInputs(input: SigningInput): (inputs: seq<ViewInput>)
    requires input.Authenticated()
  {
    seq(|input.maps|, i requires 0 <= i < |input.maps| =>
      var txin, prevout := input.tx.inputs[i], input.maps[i].witnessUtxo;
      ViewInput(txin.previousOutput, txin.sequence, prevout.value, prevout.script))
  }

  function Header(tx: Transaction, inputIndex: nat): (b: Bytes)
    ensures |b| == 16
  {
    Le(AsU32(tx.version), 4) + Le(tx.lockTime, 4) + Le(inputIndex, 4) + Le(|tx.inputs|, 4)
  }

  /** The version-one view, as one expression. */
  function ViewBytes(input: SigningInput): (b: Bytes)
    requires input.Authenticated()
  {
    Header(input.tx, input.inputIndex) + InputsBytes(ViewInputs(input))
    + Le(|input.tx.outputs|, 4) + OutputsBytes(input.tx.outputs)
  }

  /** What version two appends: the internal key and a zero annex length. */
  function Tail(key: Digest): (b: Bytes)
    ensures |b| == 36
  {
    key + Le(0, 4)
  }

  predicate KeyPresent(input: SigningInput)
  {
    input.inputIndex < |input.maps| && input.maps[input.inputIndex].tapInternalKey.Some?
  }

  function VersionedView(version: WasmVersion, input: SigningInput): (b: Bytes)
    requires input.Authenticated()
    requires version.V2? ==> KeyPresent(input)
  {
    match version
    case V1 => ViewBytes(input)
    case V2 => ViewBytes(input) + Tail(input.maps[input.inputIndex].tapInternalKey.value)
  }

  // -------------------------------------------------------------------- size

  function InputsSize(inputs: seq<ViewInput>): (n: nat)
  {
    if inputs == [] then 0 else 52 + |inputs[0].script| + InputsSize(inputs[1..])
  }

  function OutputsSize(outputs: seq<TxOut>): (n: nat)
  {
    if outputs == [] then 0 else 12 + |outputs[0].script| + OutputsSize(outputs[1..])
  }

  /** The encoded length, known before a key is looked up or a byte is written. */
  function ViewSize(version: WasmVersion, input: SigningInput): (n: nat)
    requires input.Authenticated()
  {
    20 + InputsSize(ViewInputs(input)) + OutputsSize(input.tx.outputs) + (if version.V2? then 36 else 0)
  }

  lemma {:induction false} InputsSizeIsLength(inputs: seq<ViewInput>)
    ensures InputsSize(inputs) == |InputsBytes(inputs)| >= 52 * |inputs|
  {
    if inputs != [] { InputsSizeIsLength(inputs[1..]); }
  }

  lemma {:induction false} OutputsSizeIsLength(outputs: seq<TxOut>)
    ensures OutputsSize(outputs) == |OutputsBytes(outputs)| >= 12 * |outputs|
  {
    if outputs != [] { OutputsSizeIsLength(outputs[1..]); }
  }

  /** The precomputed size is the number of bytes written. */
  lemma ViewSizeIsLength(version: WasmVersion, input: SigningInput)
    requires input.Authenticated()
    requires version.V2? ==> KeyPresent(input)
    ensures ViewSize(version, input) == |VersionedView(version, input)|
    ensures ViewSize(version, input) >= 20 + 52 * |input.tx.inputs| + 12 * |input.tx.outputs|
  {
    InputsSizeIsLength(ViewInputs(input));
    OutputsSizeIsLength(input.tx.outputs);
  }

  lemma {:induction false} InputsSplit(inputs: seq<ViewInput>, k: nat)
    requires k < |inputs|
    ensures InputsBytes(inputs[..k + 1]) == InputsBytes(inputs[..k]) + InputBytes(inputs[k])
    ensures InputsSize(inputs[..k + 1]) == InputsSize(inputs[..k]) + 52 + |inputs[k].script| <= InputsSize(inputs)
  {
    hide InputBytes;
    assert inputs[..k + 1][0] == inputs[0] && inputs[..k + 1][1..] == inputs[1..][..k];
    if k == 0 {
      assert InputsBytes(inputs[..k]) == [] && InputsBytes(inputs[1..][..k]) == [];
    } else {
      InputsSplit(inputs[1..], k - 1);
      assert inputs[..k][1..] == inputs[1..][..k - 1];
    }
  }

  lemma {:induction false} OutputsSplit(outputs: seq<TxOut>, k: nat)
    requires k < |outputs|
    ensures OutputsBytes(outputs[..k + 1]) == OutputsBytes(outputs[..k]) + OutputBytes(outputs[k])
    ensures OutputsSize(outputs[..k + 1]) == OutputsSize(outputs[..k]) + 12 + |outputs[k].script| <= OutputsSize(outputs)
  {
    hide OutputBytes;
    assert outputs[..k + 1][0] == outputs[0] && outputs[..k + 1][1..] == outputs[1..][..k];
    if k == 0 {
      assert OutputsBytes(outputs[..k]) == [] && OutputsBytes(outputs[1..][..k]) == [];
    } else {
      OutputsSplit(outputs[1..], k - 1);
      assert outputs[..k][1..] == outputs[1..][..k - 1];
    }
  }

  // ---------------------------------------------------- the imperative encoder

  /** `checked_add` on a 64-bit usize, then the byte limit. */
  function AddWithin(size: nat, amount: nat): (r: Option<nat>)
  {
    if size + amount >= 0x1_0000_0000_0000_0000 || size + amount > MAX_SIGNED_VIEW_BYTES then None
    else Some(size + amount)
  }

  /** The first pass over the prevouts. */
  method MeasureInputs(input: SigningInput) returns (r: Option<nat>)
    requires input.Authenticated()
    ensures r == var n := 20 + InputsSize(ViewInputs(input)); if n <= MAX_SIGNED_VIEW_BYTES then Some(n) else None
  {
    hide InputsBytes;
    var size := 20;
    ghost var inputs := ViewInputs(input);
    for i := 0 to |input.maps|
      invariant size == 20 + InputsSize(inputs[..i]) <= MAX_SIGNED_VIEW_BYTES
    {
      InputsSplit(inputs, i);
      var fixed := AddWithin(size, 52);
      if fixed.None? { return None; }
      var total := AddWithin(fixed.value, |input.maps[i].witnessUtxo.script|);
      if total.None? { return None; }
      size := total.value;
    }
    assert inputs[..|inputs|] == inputs;
    r := Some(size);
  }

  /** The first pass over the outputs, from the running size of the inputs. */
  method MeasureOutputs(outputs: seq<TxOut>, start: nat) returns (r: Option<nat>)
    requires start <= MAX_SIGNED_VIEW_BYTES
    ensures r == var n := start + OutputsSize(outputs); if n <= MAX_SIGNED_VIEW_BYTES then Some(n) else None
  {
    hide OutputsBytes;
    var size := start;
    for i := 0 to |outputs|
      invariant size == start + OutputsSize(outputs[..i]) <= MAX_SIGNED_VIEW_BYTES
    {
      OutputsSplit(outputs, i);
      var fixed := AddWithin(size, 12);
      if fixed.None? { return None; }
      var total := AddWithin(fixed.value, |outputs[i].script|);
      if total.None? { return None; }
      size := total.value;
    }
    assert outputs[..|outputs|] == outputs;
    r := Some(size);
  }

  /** The whole first pass: a running size that stops at the limit before any script is copied. */
  method MeasureView(version: WasmVersion, input: SigningInput) returns (r: Option<nat>)
    requires input.Authenticated()
    ensures r == if ViewSize(version, input) <= MAX_SIGNED_VIEW_BYTES then Some(ViewSize(version, input)) else None
  {
    hide InputsSize, OutputsSize;
    r := MeasureInputs(input);
    if r.Some? {
      r := MeasureOutputs(input.tx.outputs, r.value);
    }
    if r.Some? && version == V2 {
      r := AddWithin(r.value, 36);
    }
  }

  method WriteInputs(input: SigningInput) returns (bytes: Bytes)
    requires input.Authenticated()
    ensures bytes == InputsBytes(ViewInputs(input))
  {
    hide Le, InputsSize;
    bytes := [];
    ghost var inputs := ViewInputs(input);
    for i := 0 to |input.tx.inputs|
      invariant bytes == InputsBytes(inputs[..i])
    {
      InputsSplit(inputs, i);
      var txin, prevout := input.tx.inputs[i], input.maps[i].witnessUtxo;
      bytes := bytes + (txin.previousOutput.txid + Le(txin.previousOutput.vout, 4) + Le(txin.sequence, 4)
                        + Le(prevout.value, 8) + Le(|prevout.script|, 4) + prevout.script);
    }
    assert inputs[..|inputs|] == inputs;
  }

  method WriteOutputs(outputs: seq<TxOut>) returns (bytes: Bytes)
    ensures bytes == OutputsBytes(outputs)
  {
    hide Le, OutputsSize;
    bytes := [];
    for i := 0 to |outputs|
      invariant bytes == OutputsBytes(outputs[..i])
    {
      OutputsSplit(outputs, i);
      bytes := bytes + (Le(outputs[i].value, 8) + Le(|outputs[i].script|, 4) + outputs[i].script);
    }
    assert outputs[..|outputs|] == outputs;
  }

  /**
    The encoder: it succeeds exactly when the encoded length is within the
    limit (and the index and, for version two, the key allow it).
   */
  method EncodeView(version: WasmVersion, input: SigningInput) returns (r: Result<Bytes, ViewError>)
    requires input.Authenticated()
    requires version.V2? ==> input.inputIndex < |input.maps|
    ensures r.Ok? <==>
      && ViewSize(version, input) <= 1_048_576
      && input.inputIndex < 0x1_0000_0000
      && (version.V2? ==> KeyPresent(input))
    ensures r.Ok? ==> r.value == VersionedView(version, input)
    ensures r == Err(TooLarge) <==> ViewSize(version, input) > MAX_SIGNED_VIEW_BYTES
    ensures r != Err(CountOverflow)
  {
    hide Le, InputsSize, OutputsSize, InputsBytes, OutputsBytes;
    var size := MeasureView(version, input);
    if size.None? { return Err(TooLarge); }
    ViewSizeIsLength(V1, input);
    if |input.tx.inputs| >= 0x1_0000_0000 || |input.tx.outputs| >= 0x1_0000_0000 {
      return Err(CountOverflow);
    }
    if input.inputIndex >= 0x1_0000_0000 { return Err(IndexOverflow); }
    var bytes: Bytes := Le(AsU32(input.tx.version), 4);
    bytes := bytes + Le(input.tx.lockTime, 4);
    bytes := bytes + Le(input.inputIndex, 4);
    bytes := bytes + Le(|input.tx.inputs|, 4);
    var inputs := WriteInputs(input);
    bytes := bytes + inputs;
    bytes := bytes + Le(|input.tx.outputs|, 4);
    var outputs := WriteOutputs(input.tx.outputs);
    bytes := bytes + outputs;
    if version == V2 {
      var internal := input.maps[input.inputIndex].tapInternalKey;
      if internal.None? { return Err(MissingInternalKey); }
      bytes := bytes + internal.value;
      bytes := bytes + Le(0, 4);
      assert bytes == ViewBytes(input) + Tail(internal.value);
    }
    assert |bytes| == size.value;  // the source's debug assertion
    r := Ok(bytes);
  }
}
