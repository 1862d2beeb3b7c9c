/**
  The memory side of an example guest (examples/vault/guest.rs): one linear
  memory, a bump arena of fixed capacity inside it, argument slices checked
  against the arena, and a byte reader over a slice. `usize` is 32 bits here.
 */
module Guest {
  import opened ByteStrings
  import opened Outcomes

  const MAX_VIEW: nat := 1_048_576
  const MAX_ARGUMENT: nat := 65_536
  const INPUT_CAPACITY: nat := MAX_VIEW + 3 * MAX_ARGUMENT
  const USIZE: nat := 0x1_0000_0000

  /** `evidence` is the ABI's witness argument. */
  datatype Arguments = Arguments(program: Bytes, parameters: Bytes, view: Bytes, evidence: Bytes)

  /** The pointer/length pairs of `sapio_evaluate_v1`. */
  datatype Pointers = Pointers(pp: U32, pl: U32, ap: U32, al: U32, vp: U32, vl: U32, wp: U32, wl: U32)

  /** A range of linear memory: a Rust slice without its lifetime. */
  datatype Slice = Slice(start: nat, length: nat)

  /** A predicate sees its arguments and how much of the arena they already use. */
  type Decision = (Arguments, nat) -> Option<bool>

  /** The static INPUT array lies at a nonzero address, whole, inside 32-bit memory. */
  predicate Layout(base: nat, size: nat)
  {
    0 < base && base + INPUT_CAPACITY <= size <= USIZE && base + INPUT_CAPACITY < USIZE
  }

  // ------------------------------------------------------ value-level meaning

  /** `sapio_alloc_v1`: the pointer and the new INPUT_USED; pointer zero is refusal. */
  function BumpAlloc(base: nat, used: nat, length: U32): (r: (U32, nat))
    requires base + INPUT_CAPACITY < USIZE && used <= INPUT_CAPACITY
    ensures r.1 <= INPUT_CAPACITY
  {
    if used + length >= USIZE || used + length > INPUT_CAPACITY then (0, used) else (base + used, used + length)
  }

  /** `input_slice`: only bytes below INPUT_USED are readable; an empty slice needs no address. */
  function SliceContent(memory: Bytes, base: nat, used: nat, pointer: U32, length: U32): (r: Option<Bytes>)
    requires Layout(base, |memory|) && used <= INPUT_CAPACITY
  {
    if length == 0 then Some([])
    else if pointer < base || pointer - base + length > used then None
    else Some(memory[pointer..pointer + length])
  }

  /** The length checks and the four slices of `evaluate`. */
  function Fetch(memory: Bytes, base: nat, used: nat, p: Pointers): (r: Option<Arguments>)
    requires Layout(base, |memory|) && used <= INPUT_CAPACITY
  {
    if p.pl > MAX_ARGUMENT || p.al > MAX_ARGUMENT || p.wl > MAX_ARGUMENT || p.vl > MAX_VIEW then None else
    match (SliceContent(memory, base, used, p.pp, p.pl), SliceContent(memory, base, used, p.ap, p.al),
           SliceContent(memory, base, used, p.vp, p.vl), SliceContent(memory, base, used, p.wp, p.wl))
    case (Some(program), Some(parameters), Some(view), Some(evidence)) =>
      Some(Arguments(program, parameters, view, evidence))
    case _ => None
  }

  /** The exported entry point around a predicate: 1, 0, or -1 for any refusal. */
  function EntryPoint(memory: Bytes, base: nat, used: nat, p: Pointers, decide: Decision): (r: I32)
    requires Layout(base, |memory|) && used <= INPUT_CAPACITY
    ensures -1 <= r <= 1
  {
    match Fetch(memory, base, used, p)
    case Some(arguments) => Verdict(decide(arguments, used))
    case None => -1
  }

  function Verdict(decision: Option<bool>): (r: I32)
  {
    match decision
    case Some(true) => 1
    case Some(false) => 0
    case None => -1
  }

  /** Memory after writing data at an address. */
  function Write(memory: Bytes, at: nat, data: Bytes): (m: Bytes)
    requires at + |data| <= |memory|
    ensures |m| == |memory|
  {
    memory[..at] + data + memory[at + |data|..]
  }

  lemma WriteExtends(memory: Bytes, at: nat, data: Bytes, more: Bytes)
    requires at + |data| + |more| <= |memory|
    ensures Write(Write(memory, at, data), at + |data|, more) == Write(memory, at, data + more)
  {}

  lemma WriteReadsBack(memory: Bytes, at: nat, data: Bytes)
    requires at + |data| <= |memory|
    ensures Write(memory, at, data)[at..at + |data|] == data
  {}

  lemma WriteFrames(memory: Bytes, at: nat, data: Bytes, lo: nat, hi: nat)
    requires at + |data| <= |memory|
    requires lo <= hi <= |memory|
    requires hi <= at || at + |data| <= lo
    ensures Write(memory, at, data)[lo..hi] == memory[lo..hi]
  {}

  // ------------------------------------------------------------ the instance

  class Instance {
    const base: nat
    const memory: array<Byte>
    var used: nat

    ghost predicate Valid()
      reads this
    {
      Layout(base, memory.Length) && used <= INPUT_CAPACITY
    }

    constructor (base: nat, memory: array<Byte>)
      requires Layout(base, memory.Length)
      ensures Valid() && used == 0 && this.base == base && this.memory == memory
    {
      this.base, this.memory, used := base, memory, 0;
    }

    method Allocate(length: U32) returns (pointer: U32)
      requires Valid()
      modifies this`used
      ensures Valid()
      ensures (pointer, used) == BumpAlloc(base, old(used), length)
    {
      if used + length >= USIZE { return 0; }
      var end := used + length;
      if end > INPUT_CAPACITY { return 0; }
      pointer := base + used;
      used := end;
    }

    /** The slice lies wholly below the arena's free part, so later scratch cannot touch it. */
    method InputSlice(pointer: U32, length: U32) returns (r: Option<Slice>)
      requires Valid()
      ensures r.Some? <==> SliceContent(memory[..], base, used, pointer, length).Some?
      ensures r.Some? ==>
        && r.value.length == length
        && r.value.start + r.value.length <= base + used
        && Content(memory, r.value)
           == SliceContent(memory[..], base, used, pointer, length).value
    {
      if length == 0 { return Some(Slice(0, 0)); }
      if pointer < base { return None; }
      var offset := pointer - base;
      if offset + length >= USIZE || offset + length > used { return None; }
      r := Some(Slice(pointer, length));
      assert memory[..][pointer..pointer + length] == memory[pointer..pointer + length];
    }

    /** The length checks of `evaluate` and its four slices. */
    method ArgumentSlices(p: Pointers) returns (r: Option<(Slice, Slice, Slice, Slice)>)
      requires Valid()
      ensures r.Some? <==> Fetch(memory[..], base, used, p).Some?
      ensures r.Some? ==>
        var (program, parameters, view, evidence) := r.value;
        && program.length <= MAX_ARGUMENT && parameters.length <= MAX_ARGUMENT && evidence.length <= MAX_ARGUMENT
        && view.length <= MAX_VIEW
        && program.start + program.length <= base + used && parameters.start + parameters.length <= base + used
        && view.start + view.length <= base + used && evidence.start + evidence.length <= base + used
        && Fetch(memory[..], base, used, p).value == Arguments(
             Content(memory, program), Content(memory, parameters), Content(memory, view), Content(memory, evidence))
    {
      hide SliceContent, Content;
      if p.pl > MAX_ARGUMENT || p.al > MAX_ARGUMENT || p.wl > MAX_ARGUMENT || p.vl > MAX_VIEW { return None; }
      var program := InputSlice(p.pp, p.pl);
      if program.None? { return None; }
      var parameters := InputSlice(p.ap, p.al);
      if parameters.None? { return None; }
      var view := InputSlice(p.vp, p.vl);
      if view.None? { return None; }
      var evidence := InputSlice(p.wp, p.wl);
      if evidence.None? { return None; }
      r := Some((program.value, parameters.value, view.value, evidence.value));
    }
  }

  /** The bytes a slice denotes, as memory holds them now. */
  ghost function Content(memory: array<Byte>, slice: Slice): (b: Bytes)
    requires slice.start + slice.length <= memory.Length
    reads memory
    ensures |b| == slice.length
  {
    memory[slice.start..slice.start + slice.length]
  }

  class Reader {
    const memory: array<Byte>
    const start: nat
    const length: nat
    var offset: nat
    /** The unread bytes. */
    ghost var rest: Bytes

    ghost predicate Valid()
      reads this, memory
    {
      && offset <= length < USIZE && start + length <= memory.Length <= USIZE
      && rest == Content(memory, Slice(start + offset, length - offset))
    }

    constructor (memory: array<Byte>, bytes: Slice)
      requires bytes.start + bytes.length <= memory.Length <= USIZE && bytes.length < USIZE
      ensures Valid() && offset == 0 && rest == Content(memory, bytes)
      ensures this.memory == memory && start == bytes.start && length == bytes.length
    {
      this.memory, start, length, offset := memory, bytes.start, bytes.length, 0;
      rest := memory[bytes.start..bytes.start + bytes.length];
    }

    lemma Bounds()
      requires Valid()
      ensures start + length <= memory.Length <= USIZE
    {}

    method Take(count: nat) returns (r: Option<Slice>)
      requires Valid() && count < USIZE
      modifies this`offset, this`rest
      ensures Valid()
      ensures r.None? <==> count > |old(rest)|
      ensures r.None? ==> offset == old(offset) && rest == old(rest)
      ensures r.Some? ==>
        && r.value == Slice(start + old(offset), count)
        && start + old(offset) + count <= start + length
        && Content(memory, r.value) == old(rest)[..count]
        && rest == old(rest)[count..]
    {
      if offset + count >= USIZE { return None; }
      var end := offset + count;
      if end > length { return None; }
      r := Some(Slice(start + offset, count));
      assert rest[..count] == memory[start + offset..start + end];
      offset := end;
      rest := rest[count..];
    }

    method TakeU32() returns (r: Option<U32>)
      requires Valid()
      modifies this`offset, this`rest
      ensures Valid()
      ensures r.None? <==> |old(rest)| < 4
      ensures r.Some? ==> r.value == U32At(old(rest), 0) && rest == old(rest)[4..]
    {
      var four := Take(4);
      if four.None? { return None; }
      Pow256Widths();
      r := Some(FromLe(memory[four.value.start..four.value.start + 4]));
    }

    predicate Finished()
      requires Valid()
      reads this, memory
      ensures Finished() <==> rest == []
    {
      offset == length
    }
  }
}
