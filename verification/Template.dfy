/**
  The template-hash predicate (examples/templatehash/predicate.rs): its
  execution over guest memory, with two scratch buffers bump-allocated above
  the arguments, and the value it computes.
 */
module Template {
  import opened ByteStrings
  import opened Outcomes
  import opened Transactions
  import opened View
  import opened ViewDecoding
  import opened Guest
  import opened ViewReading
  import Bip446

  const DIGEST: nat := 32

  // ------------------------------------------------------ value-level meaning

  /** `scratch`: INPUT_USED after the allocation, or refusal. */
  function Scratch(used: nat, length: nat): (r: Option<nat>)
  {
    if length == 0 || used + length > INPUT_CAPACITY then None else Some(used + length)
  }

  /** The first loop: collect the sequences of `count` inputs, and what is left. */
  function Sequences(count: nat, b: Bytes, done: Bytes): (r: Option<(Bytes, Bytes)>)
    decreases count
  {
    if count == 0 then Some((done, b)) else
    match ParseInput(b)
    case None => None
    case Some((input, rest)) => Sequences(count - 1, rest, done + Le(input.sequence, 4))
  }

  /** The second loop: re-serialise `count` outputs into a buffer of the given room. */
  function Outputs(count: nat, b: Bytes, done: Bytes, room: nat): (r: Option<(Bytes, Bytes)>)
    decreases count
  {
    if count == 0 then Some((done, b)) else
    match ParseOutput(b)
    case None => None
    case Some((output, rest)) =>
      if |done + TxOutBytes(output)| > room then None
      else Outputs(count - 1, rest, done + TxOutBytes(output), room)
  }

  /** The tagged hash over the header's version and locktime, the two sub-hashes and the index. */
  function TemplateOf(sha: Sha256, header: Bytes, sequences: Bytes, outputs: Bytes, index: U32): (d: Digest)
    requires |header| == 16
  {
    Bip446.TaggedHash(sha, Bip446.TAG, header[..8] + sha(sequences) + sha(outputs) + [0] + Le(index, 4))
  }

  /** From the output count on. */
  function DecideOutputs(
    sha: Sha256, header: Bytes, sequences: Bytes, rest: Bytes, room: nat, used: nat, index: U32, committed: Bytes)
    : (r: Option<bool>)
    requires |header| == 16
  {
    if |rest| < 4 || Scratch(used, room).None? then None else
    match Outputs(U32At(rest, 0), rest[4..], [], room)
    case None => None
    case Some((outputs, left)) =>
      if left != [] then None else Some(TemplateOf(sha, header, sequences, outputs, index) == committed)
  }

  /** The bytes of scratch for the sequences: a 32-bit product, so it wraps. */
  function SequenceRoom(inputCount: U32): (n: nat)
    ensures n % 4 == 0 && n < USIZE
    ensures 4 * inputCount < USIZE ==> n == 4 * inputCount
  {
    (4 * inputCount) % USIZE
  }

  /** From the sequences on. */
  function DecideInputs(
    sha: Sha256, header: Bytes, length: nat, body: Bytes, room: nat, used: nat, index: U32, committed: Bytes)
    : (r: Option<bool>)
    requires |header| == 16
  {
    if Scratch(used, length).None? then None else
    match Sequences(length / 4, body, [])
    case None => None
    case Some((sequences, rest)) =>
      DecideOutputs(sha, header, sequences, rest, room, used + length, index, committed)
  }

  /** The predicate on arbitrary argument bytes. */
  function Decide(sha: Sha256, a: Arguments, used: nat): (r: Option<bool>)
  {
    if a.program != [] || a.evidence != [] || |a.parameters| != DIGEST || |a.view| < 16 then None else
    var index, count := U32At(a.view, 8), U32At(a.view, 12);
    if index >= count then None else
    DecideInputs(sha, a.view[..16], SequenceRoom(count), a.view[16..], |a.view|, used, index, a.parameters)
  }

  // ------------------------------------------------------ execution on memory

  /** `copy_from_slice` between disjoint ranges, above everything the reader still has to read. */
  method CopyAbove(reader: Reader, from: Slice, to: nat)
    requires reader.Valid() && reader.start + reader.length <= to
    requires from.start + from.length <= to && to + from.length <= reader.memory.Length
    modifies reader.memory
    ensures reader.Valid()
    ensures reader.memory[..] == Write(old(reader.memory[..]), to, old(Content(reader.memory, from)))
  {
    var memory := reader.memory;
    forall k | 0 <= k < from.length {
      memory[to + k] := memory[from.start + k];
    }
    assert reader.rest == Content(memory, Slice(reader.start + reader.offset, reader.length - reader.offset));
  }

  /** Bytes that are not in memory yet, such as a length prefix. */
  method StoreAbove(reader: Reader, data: Bytes, to: nat)
    requires reader.Valid() && reader.start + reader.length <= to && to + |data| <= reader.memory.Length
    modifies reader.memory
    ensures reader.Valid()
    ensures reader.memory[..] == Write(old(reader.memory[..]), to, data)
  {
    var memory := reader.memory;
    forall k | 0 <= k < |data| {
      memory[to + k] := data[k];
    }
    assert reader.rest == Content(memory, Slice(reader.start + reader.offset, reader.length - reader.offset));
  }

  /** A buffer the reader's bytes lie below. */
  ghost predicate Above(buffer: Slice, reader: Reader)
  {
    reader.start + reader.length <= buffer.start && buffer.start + buffer.length <= reader.memory.Length
  }

  method CollectSequences(reader: Reader, buffer: Slice) returns (ok: bool, ghost written: Bytes)
    requires reader.Valid() && Above(buffer, reader) && buffer.length % 4 == 0
    modifies reader`offset, reader`rest, reader.memory
    ensures reader.Valid()
    ensures |written| <= buffer.length
    ensures reader.memory[..] == Write(old(reader.memory[..]), buffer.start, written)
    ensures match Sequences(buffer.length / 4, old(reader.rest), [])
      case None => !ok
      case Some((sequences, left)) => ok && written == sequences && |sequences| == buffer.length && reader.rest == left
  {
    hide Reader.Valid, Content, ParseInput, Le, Write;
    written := [];
    ghost var before := reader.memory[..];
    WriteNothing(before, buffer.start);
    var slots := buffer.length / 4;
    var slot := 0;
    while slot < slots
      invariant 0 <= slot <= slots
      invariant reader.Valid()
      invariant |written| == 4 * slot
      invariant reader.memory[..] == Write(before, buffer.start, written)
      invariant Sequences(slots, old(reader.rest), []) == Sequences(slots - slot, reader.rest, written)
    {
      var input := TakeInput(reader);
      if input.None? { return false, written; }
      ghost var four := Content(reader.memory, input.value.0);
      CopyAbove(reader, input.value.0, buffer.start + 4 * slot);
      WriteExtends(before, buffer.start, written, four);
      written := written + four;
      slot := slot + 1;
    }
    ok := true;
  }

  lemma WriteNothing(memory: Bytes, at: nat)
    requires at <= |memory|
    ensures Write(memory, at, []) == memory
  {}

  /** `push_compact_size` into a buffer of the given room. */
  method PushCompactSize(reader: Reader, buffer: Slice, offset: nat, length: U32) returns (r: Option<nat>)
    requires reader.Valid() && Above(buffer, reader) && offset <= buffer.length
    modifies reader.memory
    ensures reader.Valid()
    ensures r == if offset + |CompactSize(length)| > buffer.length then None else Some(offset + |CompactSize(length)|)
    ensures r.None? ==> reader.memory[..] == old(reader.memory[..])
    ensures r.Some? ==>
      reader.memory[..] == Write(old(reader.memory[..]), buffer.start + offset, CompactSize(length))
  {
    hide Reader.Valid, Le, Write;
    if length < 253 {
      if offset >= buffer.length { return None; }
      StoreAbove(reader, [length], buffer.start + offset);
      r := Some(offset + 1);
    } else if length <= 0xFFFF {
      if offset + 3 > buffer.length { return None; }
      StoreAbove(reader, [0xFD] + Le(length, 2), buffer.start + offset);
      r := Some(offset + 3);
    } else {
      if offset + 5 > buffer.length { return None; }
      StoreAbove(reader, [0xFE] + Le(length, 4), buffer.start + offset);
      r := Some(offset + 5);
    }
  }

  /** One output: value, compactSize and script are copied behind what the buffer already holds. */
  method CollectOutput(reader: Reader, buffer: Slice, used: nat) returns (r: Option<nat>, ghost more: Bytes)
    requires reader.Valid() && Above(buffer, reader) && used <= buffer.length
    modifies reader`offset, reader`rest, reader.memory
    ensures reader.Valid()
    ensures used + |more| <= buffer.length
    ensures reader.memory[..] == Write(old(reader.memory[..]), buffer.start + used, more)
    ensures match ParseOutput(old(reader.rest))
      case None => r.None?
      case Some((output, rest)) =>
        if used + |TxOutBytes(output)| > buffer.length then r.None?
        else r == Some(used + |more|) && more == TxOutBytes(output) && reader.rest == rest
  {
    hide Reader.Valid, ParseOutput, Le, CompactSize, Write;
    ghost var before := reader.memory[..];
    ghost var at := buffer.start + used;
    WriteNothing(before, at);
    more := [];
    var taken := TakeOutput(reader);
    if taken.None? { return None, more; }
    var (value, script) := taken.value;
    ghost var output := ParseOutput(old(reader.rest)).value.0;
    if used + 8 > buffer.length { return None, more; }
    CopyAbove(reader, value, buffer.start + used);
    more := Le(output.value, 8);
    ScriptUnmoved(before, at, more, script);
    var next := PushCompactSize(reader, buffer, used + 8, script.length);
    if next.None? { return None, more; }
    WriteExtends(before, at, more, CompactSize(script.length));
    more := more + CompactSize(script.length);
    ScriptUnmoved(before, at, more, script);
    if next.value + script.length > buffer.length { return None, more; }
    assert reader.memory[..][script.start..script.start + script.length] == Content(reader.memory, script);
    CopyAbove(reader, script, buffer.start + next.value);
    WriteExtends(before, at, more, output.script);
    more := more + output.script;
    r := Some(next.value + script.length);
  }

  lemma ScriptUnmoved(before: Bytes, at: nat, data: Bytes, script: Slice)
    requires script.start + script.length <= at && at + |data| <= |before|
    ensures Write(before, at, data)[script.start..script.start + script.length]
            == before[script.start..script.start + script.length]
  {}

  method CollectOutputs(reader: Reader, buffer: Slice, count: U32) returns (r: Option<nat>, ghost written: Bytes)
    requires reader.Valid() && Above(buffer, reader)
    modifies reader`offset, reader`rest, reader.memory
    ensures reader.Valid()
    ensures |written| <= buffer.length
    ensures reader.memory[..] == Write(old(reader.memory[..]), buffer.start, written)
    ensures match Outputs(count, old(reader.rest), [], buffer.length)
      case None => r.None?
      case Some((outputs, left)) => r == Some(|outputs|) && written == outputs && reader.rest == left
  {
    hide Reader.Valid, ParseOutput, TxOutBytes, Write;
    written := [];
    ghost var before := reader.memory[..];
    WriteNothing(before, buffer.start);
    var used := 0;
    var done := 0;
    while done < count
      invariant 0 <= done <= count
      invariant reader.Valid()
      invariant used == |written| <= buffer.length
      invariant reader.memory[..] == Write(before, buffer.start, written)
      invariant Outputs(count, old(reader.rest), [], buffer.length)
             == Outputs(count - done, reader.rest, written, buffer.length)
    {
      var next, more := CollectOutput(reader, buffer, used);
      WriteExtends(before, buffer.start, written, more);
      if next.None? { return None, written + more; }
      written := written + more;
      used := next.value;
      done := done + 1;
    }
    r := Some(used);
  }

  /** `scratch`, bump-allocated above every byte in use. */
  method TakeScratch(guest: Instance, length: U32) returns (r: Option<Slice>)
    requires guest.Valid()
    modifies guest`used
    ensures guest.Valid() && guest.used >= old(guest.used)
    ensures r.Some? <==> Scratch(old(guest.used), length).Some?
    ensures r.Some? ==>
      && r.value == Slice(guest.base + old(guest.used), length)
      && guest.used == old(guest.used) + length
  {
    var pointer := guest.Allocate(length);
    if pointer == 0 || length == 0 { return None; }
    r := Some(Slice(pointer, length));
  }

  /** Every argument slice lies below the arena's free part. */
  ghost predicate Below(guest: Instance, slice: Slice)
    reads guest
  {
    slice.start + slice.length <= guest.base + guest.used
  }

  lemma ContentIs(memory: array<Byte>, slice: Slice)
    requires slice.start + slice.length <= memory.Length
    ensures Content(memory, slice) == memory[..][slice.start..slice.start + slice.length]
  {}

  lemma ContentKept(memory: array<Byte>, before: Bytes, at: nat, data: Bytes, slice: Slice)
    requires at + |data| <= |before| && memory[..] == Write(before, at, data)
    requires slice.start + slice.length <= at
    ensures Content(memory, slice) == before[slice.start..slice.start + slice.length]
  {}

  lemma ContentWritten(memory: array<Byte>, before: Bytes, at: nat, data: Bytes)
    requires at + |data| <= |before| && memory[..] == Write(before, at, data)
    ensures Content(memory, Slice(at, |data|)) == data
  {}

  /** The final hash; header and commitment are read only now, after every scratch write. */
  method FinalTest(memory: array<Byte>, sha: Sha256, header: Slice, sequences: Slice, outputs: Slice,
                   index: U32, parameters: Slice) returns (r: bool)
    requires header.length == 16 && header.start + 16 <= memory.Length
    requires sequences.start + sequences.length <= memory.Length && outputs.start + outputs.length <= memory.Length
    requires parameters.start + parameters.length <= memory.Length
    ensures r <==> TemplateOf(sha, Content(memory, header), Content(memory, sequences), Content(memory, outputs), index)
                   == Content(memory, parameters)
  {
    hide Le;
    var shaSequences: Bytes := sha(memory[sequences.start..sequences.start + sequences.length]);
    var shaOutputs: Bytes := sha(memory[outputs.start..outputs.start + outputs.length]);
    var tagHash: Bytes := sha(Bip446.TAG);
    var body: Bytes := memory[header.start..header.start + 8];
    body := body + shaSequences;
    body := body + shaOutputs;
    body := body + [0];
    body := body + Le(index, 4);
    assert Content(memory, header)[..8] == memory[header.start..header.start + 8];
    var digest: Bytes := sha(tagHash + tagHash + body);
    r := digest == memory[parameters.start..parameters.start + parameters.length];
  }

  /** From the output count on, with the second scratch buffer. */
  method EvaluateOutputs(guest: Instance, sha: Sha256, reader: Reader, header: Slice, sequences: Slice,
                         index: U32, parameters: Slice) returns (r: Option<bool>, ghost written: Bytes)
    requires guest.Valid() && reader.Valid() && reader.memory == guest.memory
    requires Below(guest, Slice(reader.start, reader.length)) && Below(guest, header) && Below(guest, sequences)
    requires Below(guest, parameters) && header.length == 16
    modifies guest`used, guest.memory, reader`offset, reader`rest
    ensures guest.Valid() && old(guest.used) + |written| <= guest.used
    ensures guest.memory[..] == Write(old(guest.memory[..]), guest.base + old(guest.used), written)
    ensures r == DecideOutputs(sha, old(Content(guest.memory, header)), old(Content(guest.memory, sequences)),
                   old(reader.rest), reader.length, old(guest.used), index, old(Content(guest.memory, parameters)))
  {
    hide Reader.Valid, Write, Outputs, TemplateOf, FromLe, Content;
    ghost var before := guest.memory[..];
    ghost var at := guest.base + guest.used;
    ContentIs(guest.memory, header);
    ContentIs(guest.memory, sequences);
    ContentIs(guest.memory, parameters);
    reader.Bounds();
    WriteNothing(before, at);
    written := [];
    var count := reader.TakeU32();
    if count.None? { return None, written; }
    var buffer := TakeScratch(guest, reader.length);
    if buffer.None? { return None, written; }
    var used;
    used, written := CollectOutputs(reader, buffer.value, count.value);
    if used.None? || !reader.Finished() { return None, written; }
    var outputs := Slice(buffer.value.start, used.value);
    ContentKept(guest.memory, before, at, written, header);
    ContentKept(guest.memory, before, at, written, sequences);
    ContentKept(guest.memory, before, at, written, parameters);
    ContentWritten(guest.memory, before, at, written);
    var equal := FinalTest(guest.memory, sha, header, sequences, outputs, index, parameters);
    r := Some(equal);
  }

  /** From the sequences on, with the first scratch buffer. */
  method EvaluateInputs(guest: Instance, sha: Sha256, reader: Reader, header: Slice, length: U32,
                        index: U32, parameters: Slice) returns (r: Option<bool>, ghost written: Bytes)
    requires guest.Valid() && reader.Valid() && reader.memory == guest.memory
    requires Below(guest, Slice(reader.start, reader.length)) && Below(guest, header)
    requires Below(guest, parameters) && header.length == 16 && length % 4 == 0
    modifies guest`used, guest.memory, reader`offset, reader`rest
    ensures guest.Valid() && old(guest.used) + |written| <= guest.used
    ensures guest.memory[..] == Write(old(guest.memory[..]), guest.base + old(guest.used), written)
    ensures r == DecideInputs(sha, old(Content(guest.memory, header)), length,
                   old(reader.rest), reader.length, old(guest.used), index, old(Content(guest.memory, parameters)))
  {
    hide Reader.Valid, Write, Sequences, DecideOutputs;
    ghost var before := guest.memory[..];
    ghost var at := guest.base + guest.used;
    WriteNothing(before, at);
    written := [];
    var sequences := TakeScratch(guest, length);
    if sequences.None? { return None, written; }
    var ok;
    ok, written := CollectSequences(reader, sequences.value);
    if !ok { return None, written; }
    ContentKept(guest.memory, before, at, written, header);
    ContentKept(guest.memory, before, at, written, parameters);
    ContentWritten(guest.memory, before, at, written);
    ghost var more;
    r, more := EvaluateOutputs(guest, sha, reader, header, sequences.value, index, parameters);
    WriteExtends(before, at, written, more);
    written := written + more;
  }

  /**
    `evaluate` on the four argument slices: its result is the value-level
    decision, and it writes only arena bytes that it allocated itself.
   */
  method EvaluateArguments(guest: Instance, sha: Sha256, program: Slice, parameters: Slice, view: Slice, evidence: Slice)
    returns (r: Option<bool>, ghost written: Bytes)
    requires guest.Valid() && view.length < USIZE
    requires Below(guest, program) && Below(guest, parameters) && Below(guest, view) && Below(guest, evidence)
    modifies guest`used, guest.memory
    ensures guest.Valid() && old(guest.used) + |written| <= guest.used
    ensures guest.memory[..] == Write(old(guest.memory[..]), guest.base + old(guest.used), written)
    ensures r == Decide(sha, old(Arguments(Content(guest.memory, program), Content(guest.memory, parameters),
                                 Content(guest.memory, view), Content(guest.memory, evidence))), old(guest.used))
  {
    hide Reader.Valid, Write, DecideInputs, FromLe;
    WriteNothing(guest.memory[..], guest.base + guest.used);
    written := [];
    if program.length != 0 || evidence.length != 0 { return None, written; }
    if parameters.length != DIGEST { return None, written; }
    var reader := new Reader(guest.memory, view);
    ghost var bytes := reader.rest;
    var header := reader.Take(16);
    if header.None? { return None, written; }
    var index, count := HeaderCounts(guest.memory, header.value, bytes);
    if index >= count { return None, written; }
    var room := (4 * count) % USIZE;
    assert room == SequenceRoom(count);
    r, written := EvaluateInputs(guest, sha, reader, header.value, room, index, parameters);
  }

  method HeaderCounts(memory: array<Byte>, header: Slice, ghost view: Bytes) returns (index: U32, count: U32)
    requires header.length == 16 && header.start + 16 <= memory.Length && |view| >= 16
    requires Content(memory, header) == view[..16]
    ensures index == U32At(view, 8) && count == U32At(view, 12)
  {
    Pow256Widths();
    assert memory[header.start + 8..header.start + 12] == view[..16][8..12] == view[8..12];
    assert memory[header.start + 12..header.start + 16] == view[..16][12..16] == view[12..16];
    index := FromLe(memory[header.start + 8..header.start + 12]);
    count := FromLe(memory[header.start + 12..header.start + 16]);
  }

  /** `sapio_evaluate_v1` of the template guest. */
  method Evaluate(guest: Instance, sha: Sha256, p: Pointers) returns (r: I32)
    requires guest.Valid()
    modifies guest`used, guest.memory
    ensures r == EntryPoint(old(guest.memory[..]), guest.base, old(guest.used), p, (a: Arguments, used: nat) => Decide(sha, a, used))
  {
    hide Decide, Fetch;
    var slices := guest.ArgumentSlices(p);
    if slices.None? { return -1; }
    var (program, parameters, view, evidence) := slices.value;
    var decision, _ := EvaluateArguments(guest, sha, program, parameters, view, evidence);
    r := Verdict(decision);
  }
}
