/** A decoder for the signed view, its inversion of the encoder and the injectivity that follows. */
module ViewDecoding {
  import opened ByteStrings
  import opened Outcomes
  import opened Transactions
  import opened View

  /** One input from the front of the bytes, and what is left. */
  function ParseInput(b: Bytes): (r: Option<(ViewInput, Bytes)>)
    ensures r.Some? ==> |r.value.1| == |b| - 52 - |r.value.0.script|
  {
    if |b| < 52 then None else
    var n := U32At(b, 48);
    if |b| < 52 + n then None else
    Some((ViewInput(OutPoint(b[..32], U32At(b, 32)), U32At(b, 36), U64At(b, 40), b[52..52 + n]), b[52 + n..]))
  }

  /** One output from the front of the bytes, and what is left. */
  function ParseOutput(b: Bytes): (r: Option<(TxOut, Bytes)>)
    ensures r.Some? ==> |r.value.1| == |b| - 12 - |r.value.0.script|
  {
    if |b| < 12 then None else
    var n := U32At(b, 8);
    if |b| < 12 + n then None else
    Some((TxOut(U64At(b, 0), b[12..12 + n]), b[12 + n..]))
  }

  function ParseInputs(count: nat, b: Bytes): (r: Option<(seq<ViewInput>, Bytes)>)
    decreases count
  {
    if count == 0 then Some(([], b)) else
    match ParseInput(b)
    case None => None
    case Some((first, rest)) =>
      match ParseInputs(count - 1, rest)
      case None => None
      case Some((others, left)) => Some(([first] + others, left))
  }

  function ParseOutputs(count: nat, b: Bytes): (r: Option<(seq<TxOut>, Bytes)>)
    decreases count
  {
    if count == 0 then Some(([], b)) else
    match ParseOutput(b)
    case None => None
    case Some((first, rest)) =>
      match ParseOutputs(count - 1, rest)
      case None => None
      case Some((others, left)) => Some(([first] + others, left))
  }

  /** The tail after the outputs: nothing in version one, key and zero annex length in version two. */
  function ParseTail(version: WasmVersion, b: Bytes): (r: Option<Option<Digest>>)
  {
    match version
    case V1 => if b == [] then Some(None) else None
    case V2 => if |b| == 36 && U32At(b, 32) == 0 then Some(Some(b[..32])) else None
  }

  function DecodeView(version: WasmVersion, b: Bytes): (r: Option<ViewFields>)
  {
    if |b| < 16 then None else
    match ParseInputs(U32At(b, 12), b[16..])
    case None => None
    case Some((inputs, rest)) =>
      if |rest| < 4 then None else
      match ParseOutputs(U32At(rest, 0), rest[4..])
      case None => None
      case Some((outputs, tail)) =>
        match ParseTail(version, tail)
        case None => None
        case Some(key) => Some(ViewFields(AsI32(U32At(b, 0)), U32At(b, 4), U32At(b, 8), inputs, outputs, key))
  }

  /** What the view is meant to carry. */
  function FieldsOf(version: WasmVersion, input: SigningInput): (f: ViewFields)
    requires input.Authenticated() && input.inputIndex < 0x1_0000_0000
    requires version.V2? ==> KeyPresent(input)
  {
    ViewFields(input.tx.version, input.tx.lockTime, input.inputIndex, ViewInputs(input), input.tx.outputs,
      if version.V1? then None else input.maps[input.inputIndex].tapInternalKey)
  }

  /** An input the encoder accepts, as the contract of `EncodeView` describes it. */
  predicate Encodable(version: WasmVersion, input: SigningInput)
  {
    && input.Authenticated()
    && ViewSize(version, input) <= MAX_SIGNED_VIEW_BYTES
    && input.inputIndex < 0x1_0000_0000
    && (version.V2? ==> KeyPresent(input))
  }

  // ------------------------------------------------------------- inversion

  lemma ParseInputInverts(i: ViewInput, rest: Bytes)
    requires |i.script| < 0x1_0000_0000
    ensures ParseInput(InputBytes(i) + rest) == Some((i, rest))
  {
    hide Le, FromLe;
    var b := InputBytes(i) + rest;
    assert b[..32] == i.outPoint.txid;
    assert b[32..36] == Le(i.outPoint.vout, 4) && b[36..40] == Le(i.sequence, 4);
    assert b[40..48] == Le(i.value, 8) && b[48..52] == Le(|i.script|, 4);
    assert b[52..52 + |i.script|] == i.script && b[52 + |i.script|..] == rest;
    U32RoundTrip(i.outPoint.vout);
    U32RoundTrip(i.sequence);
    U64RoundTrip(i.value);
    U32RoundTrip(|i.script|);
  }

  lemma ParseOutputInverts(o: TxOut, rest: Bytes)
    requires |o.script| < 0x1_0000_0000
    ensures ParseOutput(OutputBytes(o) + rest) == Some((o, rest))
  {
    hide Le, FromLe;
    var b := OutputBytes(o) + rest;
    assert b[0..8] == Le(o.value, 8) && b[8..12] == Le(|o.script|, 4);
    assert b[12..12 + |o.script|] == o.script && b[12 + |o.script|..] == rest;
    U64RoundTrip(o.value);
    U32RoundTrip(|o.script|);
  }

  /** What parses as an output is the encoding of that output, then the rest. */
  lemma OutputReprints(b: Bytes)
    requires ParseOutput(b).Some?
    ensures var (o, rest) := ParseOutput(b).value; b == OutputBytes(o) + rest && |o.script| < 0x1_0000_0000
  {
    hide Le, FromLe;
    LeInvertsFromLe(b[0..8]);
    LeInvertsFromLe(b[8..12]);
    var n := U32At(b, 8);
    assert b == b[0..8] + b[8..12] + b[12..12 + n] + b[12 + n..];
  }

  lemma {:induction false} ParseInputsInverts(inputs: seq<ViewInput>, rest: Bytes)
    requires InputsSize(inputs) < 0x1_0000_0000
    ensures ParseInputs(|inputs|, InputsBytes(inputs) + rest) == Some((inputs, rest))
  {
    hide InputBytes, ParseInput;
    if inputs == [] {
      assert InputsBytes(inputs) + rest == rest;
    } else {
      var left := InputsBytes(inputs[1..]) + rest;
      assert InputsBytes(inputs) + rest == InputBytes(inputs[0]) + left;
      ParseInputInverts(inputs[0], left);
      ParseInputsInverts(inputs[1..], rest);
      assert [inputs[0]] + inputs[1..] == inputs;
    }
  }

  lemma {:induction false} ParseOutputsInverts(outputs: seq<TxOut>, rest: Bytes)
    requires OutputsSize(outputs) < 0x1_0000_0000
    ensures ParseOutputs(|outputs|, OutputsBytes(outputs) + rest) == Some((outputs, rest))
  {
    hide OutputBytes, ParseOutput;
    if outputs == [] {
      assert OutputsBytes(outputs) + rest == rest;
    } else {
      var left := OutputsBytes(outputs[1..]) + rest;
      assert OutputsBytes(outputs) + rest == OutputBytes(outputs[0]) + left;
      ParseOutputInverts(outputs[0], left);
      ParseOutputsInverts(outputs[1..], rest);
      assert [outputs[0]] + outputs[1..] == outputs;
    }
  }

  lemma HeaderFields(tx: Transaction, inputIndex: U32, rest: Bytes)
    requires |tx.inputs| < 0x1_0000_0000
    ensures var b := Header(tx, inputIndex) + rest;
      && b[..8] == Le(AsU32(tx.version), 4) + Le(tx.lockTime, 4)
      && U32At(b, 0) == AsU32(tx.version) && U32At(b, 4) == tx.lockTime
      && U32At(b, 8) == inputIndex && U32At(b, 12) == |tx.inputs|
      && b[16..] == rest
  {
    hide Le, FromLe;
    var b := Header(tx, inputIndex) + rest;
    assert b[0..4] == Le(AsU32(tx.version), 4) && b[4..8] == Le(tx.lockTime, 4);
    assert b[8..12] == Le(inputIndex, 4) && b[12..16] == Le(|tx.inputs|, 4);
    U32RoundTrip(AsU32(tx.version));
    U32RoundTrip(tx.lockTime);
    U32RoundTrip(inputIndex);
    U32RoundTrip(|tx.inputs|);
  }

  lemma CountPrefix(count: U32, rest: Bytes)
    ensures var b := Le(count, 4) + rest; U32At(b, 0) == count && b[4..] == rest
  {
    var b := Le(count, 4) + rest;
    assert b[0..4] == Le(count, 4);
    U32RoundTrip(count);
  }

  lemma TailParses(key: Digest)
    ensures ParseTail(V2, Tail(key)) == Some(Some(key))
  {
    U32RoundTrip(0);
    assert Tail(key)[32..36] == Le(0, 4);
  }

  lemma ViewShape(input: SigningInput, tail: Bytes)
    requires input.Authenticated()
    ensures ViewBytes(input) + tail ==
      Header(input.tx, input.inputIndex) + (InputsBytes(ViewInputs(input))
      + (Le(|input.tx.outputs|, 4) + (OutputsBytes(input.tx.outputs) + tail)))
  {
    hide Le, Header, ViewInputs, InputsBytes, OutputsBytes;
  }

  lemma SizesFit(version: WasmVersion, input: SigningInput)
    requires Encodable(version, input)
    ensures InputsSize(ViewInputs(input)) < 0x1_0000_0000 && OutputsSize(input.tx.outputs) < 0x1_0000_0000
    ensures 20 + 52 * |input.tx.inputs| + 12 * |input.tx.outputs| <= MAX_SIGNED_VIEW_BYTES
  {
    InputsSizeIsLength(ViewInputs(input));
    OutputsSizeIsLength(input.tx.outputs);
  }

  /** Decoding recovers every field of every view the encoder produces. */
  lemma DecodeInvertsEncode(version: WasmVersion, input: SigningInput)
    requires Encodable(version, input)
    ensures DecodeView(version, VersionedView(version, input)) == Some(FieldsOf(version, input))
  {
    hide Le, FromLe, U32At, Header, ViewInputs, InputsBytes, OutputsBytes, InputsSize, OutputsSize, ParseInputs, ParseOutputs, ViewBytes;
    SizesFit(version, input);
    var tail := match version case V1 => [] case V2 => Tail(input.maps[input.inputIndex].tapInternalKey.value);
    var b := VersionedView(version, input);
    assert b == ViewBytes(input) + tail;
    ViewShape(input, tail);
    var outs := OutputsBytes(input.tx.outputs) + tail;
    var rest := Le(|input.tx.outputs|, 4) + outs;
    var body := InputsBytes(ViewInputs(input)) + rest;
    HeaderFields(input.tx, input.inputIndex, body);
    ParseInputsInverts(ViewInputs(input), rest);
    CountPrefix(|input.tx.outputs|, outs);
    ParseOutputsInverts(input.tx.outputs, tail);
    if version.V2? {
      TailParses(input.maps[input.inputIndex].tapInternalKey.value);
    }
    ViewInputsCount(input);
  }

  lemma ViewInputsCount(input: SigningInput)
    requires input.Authenticated()
    ensures |ViewInputs(input)| == |input.tx.inputs|
  {}

  /** Two contexts with one view agree on everything the view is meant to carry. */
  lemma EncodingIsInjective(version: WasmVersion, a: SigningInput, b: SigningInput)
    requires Encodable(version, a) && Encodable(version, b)
    requires VersionedView(version, a) == VersionedView(version, b)
    ensures FieldsOf(version, a) == FieldsOf(version, b)
  {
    hide *;
    DecodeInvertsEncode(version, a);
    DecodeInvertsEncode(version, b);
  }

  /** The version-two view is the version-one view, the 32-byte key and a zero length. */
  lemma VersionTwoExtendsVersionOne(input: SigningInput)
    requires Encodable(V2, input)
    ensures Encodable(V1, input)
    ensures VersionedView(V2, input) ==
      VersionedView(V1, input) + input.maps[input.inputIndex].tapInternalKey.value + [0, 0, 0, 0]
  {
    hide ViewBytes;
    assert Le(0, 4) == [0, 0, 0, 0] by { assert Le(0, 2) == [0, 0]; assert Le(0, 4) == [0, 0] + Le(0, 2); }
  }
}
