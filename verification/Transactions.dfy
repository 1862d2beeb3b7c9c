/** The parts of a Bitcoin transaction and of its signing context that evaluation reads. */
module Transactions {
  import opened ByteStrings
  import opened Outcomes

  datatype OutPoint = OutPoint(txid: Digest, vout: U32)

  datatype TxIn = TxIn(previousOutput: OutPoint, sequence: U32)

  datatype TxOut = TxOut(value: U64, script: Bytes)

  datatype Transaction = Transaction(version: I32, lockTime: U32, inputs: seq<TxIn>, outputs: seq<TxOut>)

  /** A PSBT input map. Native authentication has already required `witness_utxo`. */
  datatype PsbtInput = PsbtInput(witnessUtxo: TxOut, tapInternalKey: Option<Digest>)

  datatype SigningInput = SigningInput(tx: Transaction, inputIndex: nat, maps: seq<PsbtInput>)
  {
    /** One authenticated prevout per transaction input. */
    predicate Authenticated() {
      |maps| == |tx.inputs|
    }
  }

  /** An i32 seen as the u32 with the same bits. */
  function AsU32(i: I32): (n: U32)
    ensures AsI32(n) == i
  {
    if i < 0 then i + 0x1_0000_0000 else i
  }

  /** A u32 seen as the i32 with the same bits. */
  function AsI32(n: U32): (i: I32)
  {
    if n < 0x8000_0000 then n else n - 0x1_0000_0000
  }

  /** Bitcoin's compactSize prefix, as far as a u32 length needs it. */
  function CompactSize(length: nat): (b: Bytes)
    ensures |b| == if length < 253 then 1 else if length <= 0xFFFF then 3 else if length <= 0xFFFF_FFFF then 5 else 9
  {
    if length < 253 then [length]
    else if length <= 0xFFFF then [0xFD] + Le(length, 2)
    else if length <= 0xFFFF_FFFF then [0xFE] + Le(length, 4)
    else [0xFF] + Le(length, 8)
  }

  /** The CTxOut serialisation: value, compactSize length, script. */
  function TxOutBytes(output: TxOut): (b: Bytes)
  {
    Le(output.value, 8) + CompactSize(|output.script|) + output.script
  }
}
