/** On encoded views, the template predicate is the BIP-446 equality test, and its buffers suffice. */
module TemplateMeaning {
  import opened ByteStrings
  import opened Outcomes
  import opened Transactions
  import opened View
  import opened ViewDecoding
  import opened Guest
  import opened Bip446
  import T = Template

  // -------------------------------------------------------- the two loops

  lemma {:induction false} SequencesCollect(inputs: seq<ViewInput>, txins: seq<TxIn>, rest: Bytes, done: Bytes)
    requires InputsSize(inputs) < 0x1_0000_0000
    requires |inputs| == |txins| && forall i :: 0 <= i < |inputs| ==> inputs[i].sequence == txins[i].sequence
    ensures T.Sequences(|inputs|, InputsBytes(inputs) + rest, done) == Some((done + SequenceBytes(txins), rest))
  {
    hide InputBytes, ParseInput, Le;
    if inputs == [] {
      assert InputsBytes(inputs) + rest == rest;
      assert done + SequenceBytes(txins) == done;
    } else {
      var left := InputsBytes(inputs[1..]) + rest;
      assert InputsBytes(inputs) + rest == InputBytes(inputs[0]) + left;
      ParseInputInverts(inputs[0], left);
      var next := done + Le(inputs[0].sequence, 4);
      SequencesCollect(inputs[1..], txins[1..], rest, next);
      assert next + SequenceBytes(txins[1..]) == done + SequenceBytes(txins);
    }
  }

  lemma {:induction false} OutputsCollect(outputs: seq<TxOut>, done: Bytes, room: nat)
    requires OutputsSize(outputs) < 0x1_0000_0000
    requires |done| + |OutputSerialization(outputs)| <= room
    ensures T.Outputs(|outputs|, OutputsBytes(outputs), done, room) == Some((done + OutputSerialization(outputs), []))
  {
    hide OutputBytes, ParseOutput, TxOutBytes;
    if outputs == [] {
      assert done + OutputSerialization(outputs) == done;
    } else {
      var left := OutputsBytes(outputs[1..]);
      ParseOutputInverts(outputs[0], left);
      var next := done + TxOutBytes(outputs[0]);
      assert next + OutputSerialization(outputs[1..]) == done + OutputSerialization(outputs);
      OutputsCollect(outputs[1..], next, room);
    }
  }

  // ---------------------------------------------- the output buffer suffices

  /** Outputs whose script costs one byte more in compactSize form than in the view. */
  function LongScripts(outputs: seq<TxOut>): (n: nat)
  {
    if outputs == [] then 0 else (if |outputs[0].script| > 0xFFFF then 1 else 0) + LongScripts(outputs[1..])
  }

  lemma {:induction false} SerializationCost(outputs: seq<TxOut>)
    requires OutputsSize(outputs) < 0x1_0000_0000
    ensures |OutputSerialization(outputs)| <= OutputsSize(outputs) + LongScripts(outputs)
    ensures 65_548 * LongScripts(outputs) <= OutputsSize(outputs)
  {
    if outputs != [] {
      SerializationCost(outputs[1..]);
    }
  }

  lemma {:induction false} OutputsSizePrefix(outputs: seq<TxOut>, k: nat)
    requires k <= |outputs|
    ensures OutputsSize(outputs[..k]) <= OutputsSize(outputs)
  {
    if k == |outputs| {
      assert outputs[..k] == outputs;
    } else {
      OutputsSplit(outputs, k);
    }
  }

  /**
    The output buffer, sized to the view, has room after every step of the
    loop: at most 15 outputs of a view cost a byte more re-serialised than they
    do in the view, and the view's fixed fields alone take 20 bytes.
   */
  lemma OutputBufferNeverOverflows(input: SigningInput, k: nat)
    requires Encodable(V1, input) && k <= |input.tx.outputs|
    ensures LongScripts(input.tx.outputs[..k]) <= 15
    ensures |OutputSerialization(input.tx.outputs[..k])| + 5 <= |ViewBytes(input)|
  {
    hide ViewBytes;
    var outputs := input.tx.outputs;
    ViewSizeIsLength(V1, input);
    OutputsSizePrefix(outputs, k);
    SerializationCost(outputs[..k]);
  }

  // --------------------------------------------------------- the main result

  lemma HashesAgree(sha: Sha256, input: SigningInput, header: Bytes)
    requires input.inputIndex < 0x1_0000_0000 && |header| == 16
    requires header[..8] == Le(AsU32(input.tx.version), 4) + Le(input.tx.lockTime, 4)
    ensures T.TemplateOf(sha, header, SequenceBytes(input.tx.inputs), OutputSerialization(input.tx.outputs), input.inputIndex)
            == TemplateHash(sha, input.tx, input.inputIndex)
  {
    hide Le, SequenceBytes, OutputSerialization;
  }

  /**
    For every encodable transaction and in-range index: if the arguments, the
    sequences and a view-sized buffer fit the arena, the predicate answers
    exactly whether the BIP-446 hash is the committed one; otherwise it refuses.
   */
  lemma DecidesTheTemplateHash(sha: Sha256, input: SigningInput, committed: Digest, used: nat)
    requires Encodable(V1, input) && input.inputIndex < |input.tx.inputs|
    ensures T.Decide(sha, Arguments([], committed, ViewBytes(input), []), used) ==
      if used + |ViewBytes(input)| + 4 * |input.tx.inputs| > INPUT_CAPACITY then None
      else Some(TemplateHash(sha, input.tx, input.inputIndex) == committed)
  {
    hide ViewBytes, Header, InputsBytes, OutputsBytes, InputsSize, OutputsSize, U32At, Le, T.Sequences, T.Outputs, T.TemplateOf, SequenceBytes, OutputSerialization, TemplateHash;
    var view := ViewBytes(input);
    SizesFit(V1, input);
    ViewShape(input, []);
    assert view + [] == view;
    var outs := OutputsBytes(input.tx.outputs) + [];
    assert outs == OutputsBytes(input.tx.outputs);
    var rest := Le(|input.tx.outputs|, 4) + outs;
    var body := InputsBytes(ViewInputs(input)) + rest;
    HeaderFields(input.tx, input.inputIndex, body);
    var n := |input.tx.inputs|;
    SequencesCollect(ViewInputs(input), input.tx.inputs, rest, []);
    assert [] + SequenceBytes(input.tx.inputs) == SequenceBytes(input.tx.inputs);
    CountPrefix(|input.tx.outputs|, outs);
    OutputBufferNeverOverflows(input, |input.tx.outputs|);
    assert input.tx.outputs[..|input.tx.outputs|] == input.tx.outputs;
    OutputsCollect(input.tx.outputs, [], |view|);
    assert [] + OutputSerialization(input.tx.outputs) == OutputSerialization(input.tx.outputs);
    assert view[..16][..8] == view[..8];
    HashesAgree(sha, input, view[..16]);
  }

  /**
    On every view the encoder produces, the predicate answers exactly for an
    empty program, an empty witness, a 32-byte commitment, an input of the
    transaction and room for both buffers; anything else is refused.
   */
  lemma AnswersExactlyWellFormedArguments(
    sha: Sha256, input: SigningInput, program: Bytes, parameters: Bytes, evidence: Bytes, used: nat)
    requires Encodable(V1, input)
    ensures T.Decide(sha, Arguments(program, parameters, ViewBytes(input), evidence), used).Some? <==>
      && program == [] && evidence == [] && |parameters| == 32
      && input.inputIndex < |input.tx.inputs|
      && used + |ViewBytes(input)| + 4 * |input.tx.inputs| <= 1_245_184
  {
    hide ViewBytes, T.DecideInputs, U32At, TemplateHash;
    if program == [] && evidence == [] && |parameters| == 32 {
      if input.inputIndex < |input.tx.inputs| {
        DecidesTheTemplateHash(sha, input, parameters, used);
      } else {
        RefusesForeignIndex(sha, input, parameters, used);
      }
    }
  }

  /** An encodable one-output transaction so large that the view-sized buffer no longer fits beside the view. */
  function LargeInput(): (input: SigningInput)
  {
    var digest: Digest := seq(32, _ => 0);
    SigningInput(
      Transaction(2, 0, [TxIn(OutPoint(digest, 0), 0)], [TxOut(330, seq(700_000, _ => 0))]),
      0, [PsbtInput(TxOut(1_000, []), None)])
  }

  lemma LargeInputSizes()
    ensures LargeInput().Authenticated() && Encodable(V1, LargeInput()) && |ViewBytes(LargeInput())| == 700_084
  {
    var input := LargeInput();
    assert InputsSize(ViewInputs(input)) == 52 + InputsSize(ViewInputs(input)[1..]);
    assert OutputsSize(input.tx.outputs) == 12 + 700_000 + OutputsSize(input.tx.outputs[1..]);
    ViewSizeIsLength(V1, input);
  }

  /** Not every encodable transaction can be approved: this one is refused even under its own hash. */
  lemma LargeTemplateIsRefused(sha: Sha256)
    ensures var input := LargeInput();
      && Encodable(V1, input) && input.inputIndex < |input.tx.inputs|
      && T.Decide(sha, Arguments([], TemplateHash(sha, input.tx, 0), ViewBytes(input), []), 32 + |ViewBytes(input)|) == None
  {
    hide ViewBytes, TemplateHash, T.Decide;
    LargeInputSizes();
    DecidesTheTemplateHash(sha, LargeInput(), TemplateHash(sha, LargeInput().tx, 0), 32 + |ViewBytes(LargeInput())|);
  }

  /** An index outside the transaction is refused, whatever the commitment. */
  lemma RefusesForeignIndex(sha: Sha256, input: SigningInput, parameters: Bytes, used: nat)
    requires Encodable(V1, input) && input.inputIndex >= |input.tx.inputs|
    ensures T.Decide(sha, Arguments([], parameters, ViewBytes(input), []), used) == None
  {
    hide ViewBytes, Header, InputsBytes, OutputsBytes, U32At, Le;
    SizesFit(V1, input);
    ViewShape(input, []);
    assert ViewBytes(input) + [] == ViewBytes(input);
    HeaderFields(input.tx, input.inputIndex,
      InputsBytes(ViewInputs(input)) + (Le(|input.tx.outputs|, 4) + (OutputsBytes(input.tx.outputs) + [])));
  }
}
