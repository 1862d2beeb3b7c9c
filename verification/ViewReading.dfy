/** The reader steps, shared by the example predicates, that consume one input or output of a view. */
module ViewReading {
  import opened ByteStrings
  import opened Outcomes
  import opened Transactions
  import opened View
  import opened ViewDecoding
  import opened Guest

  /** A slice lies inside the bytes a reader was given. */
  ghost predicate Inside(slice: Slice, reader: Reader)
  {
    reader.start <= slice.start && slice.start + slice.length <= reader.start + reader.length <= reader.memory.Length
  }

  /** A u32 length and that many bytes. */
  method TakePrefixed(reader: Reader) returns (r: Option<Slice>)
    requires reader.Valid()
    modifies reader`offset, reader`rest
    ensures reader.Valid()
    ensures var b := old(reader.rest);
      r.Some? <==> |b| >= 4 && |b| >= 4 + U32At(b, 0)
    ensures r.Some? ==> var b := old(reader.rest);
      && Inside(r.value, reader)
      && r.value.length == U32At(b, 0)
      && Content(reader.memory, r.value) == b[4..4 + U32At(b, 0)]
      && reader.rest == b[4 + U32At(b, 0)..]
  {
    hide FromLe, Content, Reader.Valid;
    ghost var b := reader.rest;
    var length := reader.TakeU32();
    if length.None? { return None; }
    r := reader.Take(length.value);
    if r.Some? {
      assert b[4..][..length.value] == b[4..4 + length.value];
      assert b[4..][length.value..] == b[4 + length.value..];
      assert reader.start + reader.length <= reader.memory.Length by { reader.Bounds(); }
    }
  }

  /** Outpoint, sequence, value and script; the slices of the sequence and the value are returned. */
  method TakeInput(reader: Reader) returns (r: Option<(Slice, Slice)>)
    requires reader.Valid()
    modifies reader`offset, reader`rest
    ensures reader.Valid()
    ensures r.None? <==> ParseInput(old(reader.rest)).None?
    ensures r.Some? ==>
      var (input, left) := ParseInput(old(reader.rest)).value;
      && Inside(r.value.0, reader) && Inside(r.value.1, reader)
      && r.value.0.length == 4 && Content(reader.memory, r.value.0) == Le(input.sequence, 4)
      && r.value.1.length == 8 && Content(reader.memory, r.value.1) == Le(input.value, 8)
      && reader.rest == left
  {
    hide FromLe, Le, Content, Reader.Valid;
    ghost var b := reader.rest;
    reader.Bounds();
    var outpoint := reader.Take(36);
    if outpoint.None? { return None; }
    var sequence := reader.Take(4);
    if sequence.None? { return None; }
    assert b[36..][..4] == b[36..40] && reader.rest == b[40..];
    var value := reader.Take(8);
    if value.None? { return None; }
    assert b[40..][..8] == b[40..48] && reader.rest == b[48..];
    LeInvertsFromLe(b[36..40]);
    LeInvertsFromLe(b[40..48]);
    var script := TakePrefixed(reader);
    if |b| >= 52 { SuffixFields(b, 48); }
    if script.None? { return None; }
    r := Some((sequence.value, value.value));
  }

  /** Value and script of one output; also the layout of the vault's parameters. */
  method TakeOutput(reader: Reader) returns (r: Option<(Slice, Slice)>)
    requires reader.Valid()
    modifies reader`offset, reader`rest
    ensures reader.Valid()
    ensures r.None? <==> ParseOutput(old(reader.rest)).None?
    ensures r.Some? ==>
      var (output, left) := ParseOutput(old(reader.rest)).value;
      && Inside(r.value.0, reader) && Inside(r.value.1, reader)
      && r.value.0.length == 8 && Content(reader.memory, r.value.0) == Le(output.value, 8)
      && r.value.1.length == |output.script| < 0x1_0000_0000 && Content(reader.memory, r.value.1) == output.script
      && reader.rest == left
  {
    hide FromLe, Le, Content, Reader.Valid;
    ghost var b := reader.rest;
    reader.Bounds();
    var value := reader.Take(8);
    if value.None? { return None; }
    assert b[..8] == b[0..8] && reader.rest == b[8..];
    LeInvertsFromLe(b[0..8]);
    var script := TakePrefixed(reader);
    if |b| >= 12 { SuffixFields(b, 8); }
    if script.None? { return None; }
    r := Some((value.value, script.value));
  }

  lemma SuffixFields(b: Bytes, at: nat)
    requires at + 4 <= |b|
    ensures U32At(b[at..], 0) == U32At(b, at)
    ensures var n := U32At(b, at); at + 4 + n <= |b| ==>
      b[at..][4..4 + n] == b[at + 4..at + 4 + n] && b[at..][4 + n..] == b[at + 4 + n..]
  {
    assert b[at..][0..4] == b[at..at + 4];
  }
}
