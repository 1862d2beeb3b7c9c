/** The optional native ownership policy carried in program parameters (src/native_policy.rs). */
module NativePolicy {
  import opened ByteStrings
  import opened Outcomes

  /** "sapio-tee/native-ownership/v1" in ASCII. */
  const MAGIC: Bytes := [
    0x73, 0x61, 0x70, 0x69, 0x6F, 0x2D, 0x74, 0x65, 0x65, 0x2F, 0x6E, 0x61,
    0x74, 0x69, 0x76, 0x65, 0x2D, 0x6F, 0x77, 0x6E, 0x65, 0x72, 0x73, 0x68,
    0x69, 0x70, 0x2F, 0x76, 0x31]

  datatype Document = Document(
    version: Byte, offboard: seq<string>, arkoor: seq<string>, round: seq<string>, delegatedRound: seq<string>,
    status: bool, lightningReceive: bool)

  /** JSON, script-hex and policy-hex decoding are library calls. */
  datatype Codec = Codec(
    document: Bytes -> Option<Document>, script: string -> Option<Bytes>, policy: string -> Option<Bytes>)

  datatype Policy = Policy(
    offboard: seq<Bytes>, arkoor: seq<Bytes>, round: seq<Bytes>, delegatedRound: seq<Bytes>,
    status: bool, lightningReceive: bool)

  datatype Output = Output(amount: U64, policy: Bytes)

  datatype OwnershipProof =
    | Status
    | Arkoor(outputs: seq<Output>)
    | Round(challenge: Digest, outputs: seq<Output>)
    | DelegatedRound(outputs: seq<Output>)
    | Offboard(script: Bytes)
    | LightningReceive

  datatype PolicyError = Truncated | LengthExceedsBlob | InvalidDocument | UnsupportedVersion | InvalidScript | InvalidPolicy

  /** `map(...).collect()`: all values, or none if any fails. */
  function DecodeAll(decode: string -> Option<Bytes>, values: seq<string>): (r: Option<seq<Bytes>>)
    ensures r.Some? <==> forall i :: 0 <= i < |values| ==> decode(values[i]).Some?
    ensures r.Some? ==> |r.value| == |values| && forall i :: 0 <= i < |values| ==> Some(r.value[i]) == decode(values[i])
  {
    if values == [] then Some([]) else
    match (decode(values[0]), DecodeAll(decode, values[1..]))
    case (Some(first), Some(rest)) => Some([first] + rest)
    case _ => None
  }

  /** What the examined document bytes mean, independent of the envelope around them. */
  function ParseDocument(codec: Codec, bytes: Bytes): (r: Result<Policy, PolicyError>)
  {
    match codec.document(bytes)
    case None => Err(InvalidDocument)
    case Some(d) =>
      if d.version != 1 then Err(UnsupportedVersion) else
      match DecodeAll(codec.script, d.offboard)
      case None => Err(InvalidScript)
      case Some(offboard) =>
        match (DecodeAll(codec.policy, d.arkoor), DecodeAll(codec.policy, d.round), DecodeAll(codec.policy, d.delegatedRound))
        case (Some(arkoor), Some(round), Some(delegated)) =>
          Ok(Policy(offboard, arkoor, round, delegated, d.status, d.lightningReceive))
        case _ => Err(InvalidPolicy)
  }

  /** `parse`: no magic is a legacy program; a malformed envelope fails closed. */
  function Parse(codec: Codec, parameters: Bytes): (r: Result<Option<Policy>, PolicyError>)
  {
    if !(MAGIC <= parameters) then Ok(None) else
    var rest := parameters[|MAGIC|..];
    if |rest| < 4 then Err(Truncated) else
    var end := 4 + U32At(rest, 0);
    if end > |rest| then Err(LengthExceedsBlob) else
    match ParseDocument(codec, rest[4..end])
    case Err(e) => Err(e)
    case Ok(policy) => Ok(Some(policy))
  }

  function Envelope(document: Bytes, inner: Bytes): (b: Bytes)
  {
    MAGIC + Le(|document|, 4) + document + inner
  }

  /** `encode`; a document whose length exceeds u32 panics in the source. */
  method Encode(document: Bytes, inner: Bytes) returns (parameters: Bytes)
    requires |document| < 0x1_0000_0000
    ensures parameters == Envelope(document, inner)
  {
    parameters := MAGIC;
    parameters := parameters + Le(|document|, 4);
    parameters := parameters + document;
    parameters := parameters + inner;
  }

  lemma EnvelopeFields(document: Bytes, inner: Bytes)
    requires |document| < 0x1_0000_0000
    ensures var b := Envelope(document, inner);
      && MAGIC <= b && |b| == |MAGIC| + 4 + |document| + |inner|
      && var rest := b[|MAGIC|..];
      U32At(rest, 0) == |document| && rest[4..4 + |document|] == document && rest[4 + |document|..] == inner
  {
    hide Le, FromLe;
    var b := Envelope(document, inner);
    var rest := b[|MAGIC|..];
    assert b == MAGIC + (Le(|document|, 4) + document + inner);
    assert rest == Le(|document|, 4) + document + inner;
    assert rest[0..4] == Le(|document|, 4);
    U32RoundTrip(|document|);
  }

  /** Parsing an encoded envelope examines exactly the document, whatever follows it. */
  lemma ParseExaminesTheDocument(codec: Codec, document: Bytes, inner: Bytes)
    requires |document| < 0x1_0000_0000
    ensures Parse(codec, Envelope(document, inner)) ==
      match ParseDocument(codec, document)
      case Ok(policy) => Ok(Some(policy))
      case Err(e) => Err(e)
  {
    hide Envelope, ParseDocument;
    EnvelopeFields(document, inner);
  }

  lemma EnvelopeIsInjective(d1: Bytes, i1: Bytes, d2: Bytes, i2: Bytes)
    requires |d1| < 0x1_0000_0000 && |d2| < 0x1_0000_0000
    requires Envelope(d1, i1) == Envelope(d2, i2)
    ensures d1 == d2 && i1 == i2
  {
    hide Envelope;
    EnvelopeFields(d1, i1);
    EnvelopeFields(d2, i2);
  }

  // --------------------------------------------------------------- enforcement

  predicate AllListed(outputs: seq<Output>, allowed: seq<Bytes>)
  {
    forall i :: 0 <= i < |outputs| ==> outputs[i].policy in allowed
  }

  /** `enforce`. */
  predicate Enforce(policy: Policy, proof: OwnershipProof)
  {
    match proof
    case Status => policy.status
    case Arkoor(outputs) => AllListed(outputs, policy.arkoor)
    case Round(_, outputs) => AllListed(outputs, policy.round)
    case DelegatedRound(outputs) => AllListed(outputs, policy.delegatedRound)
    case Offboard(script) => script in policy.offboard
    case LightningReceive => policy.lightningReceive
  }

  // ------------------------------------------- what an envelope permits, by its fields

  /** Some entry of the list is the text of x. */
  predicate Lists(decode: string -> Option<Bytes>, texts: seq<string>, x: Bytes)
  {
    exists i :: 0 <= i < |texts| && decode(texts[i]) == Some(x)
  }

  predicate AllDecode(decode: string -> Option<Bytes>, texts: seq<string>)
  {
    forall i :: 0 <= i < |texts| ==> decode(texts[i]).Some?
  }

  predicate GoodDocument(codec: Codec, d: Document)
  {
    && d.version == 1 && AllDecode(codec.script, d.offboard)
    && AllDecode(codec.policy, d.arkoor) && AllDecode(codec.policy, d.round) && AllDecode(codec.policy, d.delegatedRound)
  }

  predicate OutputsListed(codec: Codec, texts: seq<string>, outputs: seq<Output>)
  {
    forall i :: 0 <= i < |outputs| ==> Lists(codec.policy, texts, outputs[i].policy)
  }

  /** What the document's own fields say about a proof. */
  predicate Permits(codec: Codec, d: Document, proof: OwnershipProof)
  {
    || (proof.Status? && d.status)
    || (proof.LightningReceive? && d.lightningReceive)
    || (proof.Offboard? && Lists(codec.script, d.offboard, proof.script))
    || (proof.Arkoor? && OutputsListed(codec, d.arkoor, proof.outputs))
    || (proof.Round? && OutputsListed(codec, d.round, proof.outputs))
    || (proof.DelegatedRound? && OutputsListed(codec, d.delegatedRound, proof.outputs))
  }

  lemma DecodedLists(decode: string -> Option<Bytes>, texts: seq<string>, x: Bytes)
    requires DecodeAll(decode, texts).Some?
    ensures x in DecodeAll(decode, texts).value <==> Lists(decode, texts, x)
  {
    var values := DecodeAll(decode, texts).value;
    if Lists(decode, texts, x) {
      var i :| 0 <= i < |texts| && decode(texts[i]) == Some(x);
      assert Some(values[i]) == decode(texts[i]);
    }
    if x in values {
      var i :| 0 <= i < |values| && values[i] == x;
      assert Some(values[i]) == decode(texts[i]);
    }
  }

  lemma DecodedOutputs(codec: Codec, texts: seq<string>, outputs: seq<Output>)
    requires DecodeAll(codec.policy, texts).Some?
    ensures AllListed(outputs, DecodeAll(codec.policy, texts).value) <==> OutputsListed(codec, texts, outputs)
  {
    hide Lists, DecodeAll;
    forall i | 0 <= i < |outputs|
      ensures outputs[i].policy in DecodeAll(codec.policy, texts).value <==> Lists(codec.policy, texts, outputs[i].policy)
    {
      DecodedLists(codec.policy, texts, outputs[i].policy);
    }
  }

  lemma DocumentsDecode(codec: Codec, document: Bytes, d: Document)
    requires codec.document(document) == Some(d)
    ensures ParseDocument(codec, document).Ok? <==> GoodDocument(codec, d)
  {}

  lemma DocumentsPermit(codec: Codec, document: Bytes, d: Document, proof: OwnershipProof)
    requires codec.document(document) == Some(d) && ParseDocument(codec, document).Ok?
    ensures Enforce(ParseDocument(codec, document).value, proof) <==> Permits(codec, d, proof)
  {
    hide Lists, AllListed, OutputsListed, DecodeAll;
    match proof
    case Status =>
    case LightningReceive =>
    case Offboard(script) => DecodedLists(codec.script, d.offboard, script);
    case Arkoor(outputs) => DecodedOutputs(codec, d.arkoor, outputs);
    case Round(_, outputs) => DecodedOutputs(codec, d.round, outputs);
    case DelegatedRound(outputs) => DecodedOutputs(codec, d.delegatedRound, outputs);
  }

  /**
    For every envelope and every proof: a document that is no JSON of the right
    shape, has another version or holds an undecodable entry is refused;
    otherwise the proof is accepted exactly when the document's own field for
    that kind of proof permits it.
   */
  lemma EnforcementFollowsTheDocument(codec: Codec, document: Bytes, inner: Bytes, proof: OwnershipProof)
    requires |document| < 0x1_0000_0000
    ensures var parsed := Parse(codec, Envelope(document, inner));
      match codec.document(document)
      case None => parsed.Err?
      case Some(d) =>
        && (parsed.Ok? <==> GoodDocument(codec, d))
        && (parsed.Ok? ==> parsed.value.Some? && (Enforce(parsed.value.value, proof) <==> Permits(codec, d, proof)))
  {
    ParseExaminesTheDocument(codec, document, inner);
    if codec.document(document).Some? {
      hide Parse, ParseDocument, Enforce, Permits, GoodDocument;
      var d := codec.document(document).value;
      DocumentsDecode(codec, document, d);
      if GoodDocument(codec, d) {
        DocumentsPermit(codec, document, d, proof);
      }
    }
  }

  /** Parameters without the magic carry no policy; with it, they are an envelope or they are refused. */
  lemma ParseIsExact(codec: Codec, parameters: Bytes, policy: Policy)
    ensures Parse(codec, parameters) == Ok(None) <==> !(MAGIC <= parameters)
    ensures Parse(codec, parameters) == Ok(Some(policy)) <==>
      exists document, inner ::
        |document| < 0x1_0000_0000 && parameters == Envelope(document, inner) && ParseDocument(codec, document) == Ok(policy)
  {
    hide ParseDocument, Envelope, FromLe;
    if Parse(codec, parameters) == Ok(Some(policy)) {
      var rest := parameters[|MAGIC|..];
      var n := U32At(rest, 0);
      IsEnvelope(parameters);
      assert parameters == Envelope(rest[4..4 + n], rest[4 + n..]);
    }
    forall document, inner |
      |document| < 0x1_0000_0000 && parameters == Envelope(document, inner) && ParseDocument(codec, document) == Ok(policy)
      ensures Parse(codec, parameters) == Ok(Some(policy))
    {
      ParseExaminesTheDocument(codec, document, inner);
    }
  }

  lemma IsEnvelope(b: Bytes)
    requires MAGIC <= b && |b| >= |MAGIC| + 4 && |b| >= |MAGIC| + 4 + U32At(b[|MAGIC|..], 0)
    ensures var rest := b[|MAGIC|..]; var n := U32At(rest, 0); b == Envelope(rest[4..4 + n], rest[4 + n..])
  {
    hide Le, FromLe;
    var magic := MAGIC;
    var rest := b[|magic|..];
    LeInvertsFromLe(rest[0..4]);
    assert b == magic + rest;
  }

  predicate Listed(small: seq<Bytes>, large: seq<Bytes>)
  {
    forall x :: x in small ==> x in large
  }

  /** Every list and flag of one policy is allowed by the other. */
  predicate Enlarges(large: Policy, small: Policy)
  {
    && Listed(small.offboard, large.offboard) && Listed(small.arkoor, large.arkoor)
    && Listed(small.round, large.round) && Listed(small.delegatedRound, large.delegatedRound)
    && (small.status ==> large.status) && (small.lightningReceive ==> large.lightningReceive)
  }

  /** Enforcement separates policies exactly by enlargement: the order is neither too weak nor too strong. */
  lemma EnlargingIsExactlyMonotonicity(large: Policy, small: Policy)
    ensures Enlarges(large, small) <==> forall proof :: Enforce(small, proof) ==> Enforce(large, proof)
  {
    if forall proof :: Enforce(small, proof) ==> Enforce(large, proof) {
      assert Enforce(small, Status) ==> Enforce(large, Status);
      assert Enforce(small, LightningReceive) ==> Enforce(large, LightningReceive);
      forall x | x in small.offboard ensures x in large.offboard {
        assert Enforce(small, Offboard(x)) ==> Enforce(large, Offboard(x));
      }
      forall x | x in small.arkoor ensures x in large.arkoor {
        SingleOutput(small, large, x, Arkoor([Output(0, x)]), small.arkoor, large.arkoor);
      }
      forall x | x in small.round ensures x in large.round {
        SingleOutput(small, large, x, Round(seq(32, _ => 0), [Output(0, x)]), small.round, large.round);
      }
      forall x | x in small.delegatedRound ensures x in large.delegatedRound {
        SingleOutput(small, large, x, DelegatedRound([Output(0, x)]), small.delegatedRound, large.delegatedRound);
      }
    }
  }

  lemma SingleOutput(small: Policy, large: Policy, x: Bytes, proof: OwnershipProof, from: seq<Bytes>, to: seq<Bytes>)
    requires x in from
    requires AllListed([Output(0, x)], from) ==> Enforce(small, proof)
    requires Enforce(large, proof) ==> AllListed([Output(0, x)], to)
    requires Enforce(small, proof) ==> Enforce(large, proof)
    ensures x in to
  {
    var outputs := [Output(0, x)];
    assert outputs[0].policy == x;
    assert AllListed(outputs, from);
  }

  /** An empty list still admits a proof that moves nothing, and no other. */
  lemma EmptyListAdmitsOnlyEmptyProofs(policy: Policy, challenge: Digest, outputs: seq<Output>)
    ensures policy.arkoor == [] ==> (Enforce(policy, Arkoor(outputs)) <==> outputs == [])
    ensures policy.round == [] ==> (Enforce(policy, Round(challenge, outputs)) <==> outputs == [])
    ensures policy.delegatedRound == [] ==> (Enforce(policy, DelegatedRound(outputs)) <==> outputs == [])
  {
    if outputs != [] {
      assert outputs[0].policy !in [];
    }
  }
}
