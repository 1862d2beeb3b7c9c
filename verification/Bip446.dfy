/** The client-side reference for BIP-446 template hashes (examples/templatehash/main.rs). */
module Bip446 {
  import opened ByteStrings
  import opened Outcomes
  import opened Transactions

  /** "TemplateHash" in ASCII. */
  const TAG: Bytes := [0x54, 0x65, 0x6D, 0x70, 0x6C, 0x61, 0x74, 0x65, 0x48, 0x61, 0x73, 0x68]

  function TaggedHash(sha: Sha256, tag: Bytes, message: Bytes): (d: Digest)
  {
    sha(sha(tag) + sha(tag) + message)
  }

  function SequenceBytes(inputs: seq<TxIn>): (b: Bytes)
    ensures |b| == 4 * |inputs|
  {
    if inputs == [] then [] else Le(inputs[0].sequence, 4) + SequenceBytes(inputs[1..])
  }

  function OutputSerialization(outputs: seq<TxOut>): (b: Bytes)
  {
    if outputs == [] then [] else TxOutBytes(outputs[0]) + OutputSerialization(outputs[1..])
  }

  /** nVersion, nLockTime, sha_sequences, sha_outputs, annex_present = 0, input index. */
  function Message(sha: Sha256, tx: Transaction, inputIndex: U32): (b: Bytes)
  {
    Le(AsU32(tx.version), 4) + Le(tx.lockTime, 4)
    + sha(SequenceBytes(tx.inputs)) + sha(OutputSerialization(tx.outputs)) + [0] + Le(inputIndex, 4)
  }

  function TemplateHash(sha: Sha256, tx: Transaction, inputIndex: U32): (d: Digest)
  {
    TaggedHash(sha, TAG, Message(sha, tx, inputIndex))
  }

  // ------------------------------------------- the reference's buffer loops

  lemma {:induction false} SequencesSplit(inputs: seq<TxIn>, k: nat)
    requires k < |inputs|
    ensures SequenceBytes(inputs[..k + 1]) == SequenceBytes(inputs[..k]) + Le(inputs[k].sequence, 4)
  {
    hide Le;
    assert inputs[..k + 1][1..] == inputs[1..][..k];
    if k == 0 {
      assert SequenceBytes(inputs[..k]) == [] && SequenceBytes(inputs[1..][..k]) == [];
    } else {
      SequencesSplit(inputs[1..], k - 1);
      assert inputs[..k][1..] == inputs[1..][..k - 1];
    }
  }

  lemma {:induction false} SerializationSplit(outputs: seq<TxOut>, k: nat)
    requires k < |outputs|
    ensures OutputSerialization(outputs[..k + 1]) == OutputSerialization(outputs[..k]) + TxOutBytes(outputs[k])
  {
    hide TxOutBytes;
    assert outputs[..k + 1][1..] == outputs[1..][..k];
    if k == 0 {
      assert OutputSerialization(outputs[..k]) == [] && OutputSerialization(outputs[1..][..k]) == [];
    } else {
      SerializationSplit(outputs[1..], k - 1);
      assert outputs[..k][1..] == outputs[1..][..k - 1];
    }
  }

  method ShaSequences(sha: Sha256, tx: Transaction) returns (d: Digest)
    ensures d == sha(SequenceBytes(tx.inputs))
  {
    hide Le;
    var buffer: Bytes := [];
    for i := 0 to |tx.inputs|
      invariant buffer == SequenceBytes(tx.inputs[..i])
    {
      SequencesSplit(tx.inputs, i);
      buffer := buffer + Le(tx.inputs[i].sequence, 4);
    }
    assert tx.inputs[..|tx.inputs|] == tx.inputs;
    d := sha(buffer);
  }

  /** The reference's own `push_compact_size`, with its 64-bit form. */
  method PushCompactSize(buffer: Bytes, length: nat) returns (r: Bytes)
    ensures r == buffer + CompactSize(length)
  {
    hide Le;
    if length < 253 {
      r := buffer + [length];
    } else if length <= 0xFFFF {
      r := buffer + [0xFD];
      r := r + Le(length, 2);
    } else if length <= 0xFFFF_FFFF {
      r := buffer + [0xFE];
      r := r + Le(length, 4);
    } else {
      r := buffer + [0xFF];
      r := r + Le(length, 8);
    }
  }

  method ShaOutputs(sha: Sha256, tx: Transaction) returns (d: Digest)
    ensures d == sha(OutputSerialization(tx.outputs))
  {
    hide Le, CompactSize;
    var buffer: Bytes := [];
    for i := 0 to |tx.outputs|
      invariant buffer == OutputSerialization(tx.outputs[..i])
    {
      SerializationSplit(tx.outputs, i);
      var output := tx.outputs[i];
      buffer := buffer + Le(output.value, 8);
      buffer := PushCompactSize(buffer, |output.script|);
      buffer := buffer + output.script;
      assert buffer == OutputSerialization(tx.outputs[..i]) + TxOutBytes(output);
    }
    assert tx.outputs[..|tx.outputs|] == tx.outputs;
    d := sha(buffer);
  }

  method ReferenceHash(sha: Sha256, tx: Transaction, inputIndex: U32) returns (d: Digest)
    ensures d == TemplateHash(sha, tx, inputIndex)
  {
    hide Le, SequenceBytes, OutputSerialization;
    var message: Bytes := Le(AsU32(tx.version), 4);
    message := message + Le(tx.lockTime, 4);
    var sequences := ShaSequences(sha, tx);
    message := message + sequences;
    var outputs := ShaOutputs(sha, tx);
    message := message + outputs;
    message := message + [0];
    message := message + Le(inputIndex, 4);
    var tagHash: Bytes := sha(TAG);
    d := sha(tagHash + tagHash + message);
  }
}
