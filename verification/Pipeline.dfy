/**
  Host and example guest together: the limits compose, so the byte-level
  pipeline decides what the plain predicates say about the transaction.
 */
module Pipeline {
  import opened ByteStrings
  import opened Outcomes
  import opened Transactions
  import opened View
  import opened ViewDecoding
  import opened Guest
  import opened Host
  import Bip446
  import Template
  import TemplateMeaning
  import Vault

  const MAX_PROGRAM_BYTES: nat := 65_536
  const MAX_PARAMETER_BYTES: nat := 65_536
  const MAX_WITNESS_BYTES: nat := 65_536

  /** The pointers as the guest's u32 parameters receive them. */
  function Received(a: CallArguments): (p: Pointers)
  {
    Pointers(AsU32(a.p0), AsU32(a.l0), AsU32(a.p1), AsU32(a.l1), AsU32(a.p2), AsU32(a.l2), AsU32(a.p3), AsU32(a.l3))
  }

  /** An example guest as the host sees it; its only global is INPUT_USED. */
  function ExampleModule(base: nat, decide: Decision): (m: Module<nat>)
  {
    Module(
      (memory: Bytes, used: nat, length: I32) =>
        if Layout(base, |memory|) && used <= INPUT_CAPACITY then
          var (pointer, now) := BumpAlloc(base, used, AsU32(length));
          Return(memory, now, AsI32(pointer))
        else Trap,
      (memory: Bytes, used: nat, arguments: CallArguments) =>
        if Layout(base, |memory|) && used <= INPUT_CAPACITY then
          Return(memory, used, EntryPoint(memory, base, used, Received(arguments), decide))
        else Trap)
  }

  lemma ExampleNeverShrinks(base: nat, decide: Decision)
    ensures NeverShrinks(ExampleModule(base, decide))
  {}

  // ------------------------------------------------------ the bump placement

  /** The bytes of the first k inputs. */
  function Offset(inputs: seq<Bytes>, k: nat): (n: nat)
    requires k <= |inputs|
  {
    if k == 0 then 0 else Offset(inputs, k - 1) + |inputs[k - 1]|
  }

  lemma {:induction false} OffsetMonotone(inputs: seq<Bytes>, j: nat, k: nat)
    requires j <= k <= |inputs|
    ensures Offset(inputs, j) <= Offset(inputs, k)
    decreases k - j
  {
    if j < k { OffsetMonotone(inputs, j, k - 1); }
  }

  function BumpRange(base: nat, inputs: seq<Bytes>, i: nat): (r: Range)
    requires i < |inputs|
  {
    if inputs[i] == [] then Range(0, 0)
    else Range(base + Offset(inputs, i), base + Offset(inputs, i) + |inputs[i]|)
  }

  ghost predicate Bumped(base: nat, inputs: seq<Bytes>, a: Allocation<nat>)
  {
    && |a.ranges| <= |inputs|
    && a.globals == Offset(inputs, |a.ranges|)
    && forall i :: 0 <= i < |a.ranges| ==> a.ranges[i] == BumpRange(base, inputs, i)
  }

  lemma BumpNeverClashes(base: nat, inputs: seq<Bytes>, i: nat, k: nat)
    requires i < k < |inputs| && inputs[k] != []
    ensures !Clash(BumpRange(base, inputs, k), BumpRange(base, inputs, i))
  {
    OffsetMonotone(inputs, i + 1, k);
  }

  /** The bump allocator never fails on inputs that fit the arena, and the host's checks all pass. */
  lemma {:induction false} BumpAllocates(base: nat, decide: Decision, inputs: seq<Bytes>, so: Allocation<nat>)
    requires Layout(base, |so.memory|) && Offset(inputs, |inputs|) <= INPUT_CAPACITY
    requires Bumped(base, inputs, so)
    ensures var r := Allocate(ExampleModule(base, decide), inputs, so);
      r.Ok? && r.value.memory == so.memory && Bumped(base, inputs, r.value)
    decreases |inputs| - |so.ranges|
  {
    hide BumpAlloc, Offset, ExampleModule, LengthArgument, ClashesWithAny;
    var k := |so.ranges|;
    if k < |inputs| {
      if inputs[k] == [] {
        OffsetStep(inputs, k);
        BumpAllocates(base, decide, inputs, so.(ranges := so.ranges + [Range(0, 0)], pointers := so.pointers + [0]));
      } else {
        var range := BumpRange(base, inputs, k);
        BumpStep(base, decide, inputs, so.memory, k);
        BumpNeverClashesWithAny(base, inputs, so.ranges);
        BumpAllocates(base, decide, inputs,
          Allocation(so.memory, Offset(inputs, k + 1), so.ranges + [range], so.pointers + [AsI32(range.start)]));
      }
    }
  }

  lemma OffsetStep(inputs: seq<Bytes>, k: nat)
    requires k < |inputs|
    ensures Offset(inputs, k + 1) == Offset(inputs, k) + |inputs[k]|
  {}

  lemma BumpStep(base: nat, decide: Decision, inputs: seq<Bytes>, memory: Bytes, k: nat)
    requires Layout(base, |memory|) && Offset(inputs, |inputs|) <= INPUT_CAPACITY
    requires k < |inputs| && inputs[k] != []
    ensures var range := BumpRange(base, inputs, k);
      && range.end <= |memory| && range.start < USIZE
      && ExampleModule(base, decide).allocate(memory, Offset(inputs, k), LengthArgument(inputs[k]))
         == Return(memory, Offset(inputs, k + 1), AsI32(range.start))
      && AsU32(AsI32(range.start)) == range.start
  {
    OffsetMonotone(inputs, k + 1, |inputs|);
    assert AsU32(LengthArgument(inputs[k])) == |inputs[k]|;
  }

  lemma BumpNeverClashesWithAny(base: nat, inputs: seq<Bytes>, ranges: seq<Range>)
    requires |ranges| < |inputs| && inputs[|ranges|] != []
    requires forall i :: 0 <= i < |ranges| ==> ranges[i] == BumpRange(base, inputs, i)
    ensures !ClashesWithAny(BumpRange(base, inputs, |ranges|), ranges)
  {
    forall i | 0 <= i < |ranges| ensures !Clash(BumpRange(base, inputs, |ranges|), ranges[i]) {
      BumpNeverClashes(base, inputs, i, |ranges|);
    }
  }

  /** The four inputs are within the host's limits. */
  predicate WithinLimits(inputs: seq<Bytes>)
  {
    && |inputs| == 4
    && |inputs[0]| <= MAX_PROGRAM_BYTES && |inputs[1]| <= MAX_PARAMETER_BYTES
    && |inputs[2]| <= MAX_SIGNED_VIEW_BYTES && |inputs[3]| <= MAX_WITNESS_BYTES
  }

  lemma LimitsFitArena(inputs: seq<Bytes>)
    requires WithinLimits(inputs)
    ensures Offset(inputs, 4) == |inputs[0]| + |inputs[1]| + |inputs[2]| + |inputs[3]| <= INPUT_CAPACITY
  {
    OffsetStep(inputs, 0);
    OffsetStep(inputs, 1);
    OffsetStep(inputs, 2);
    OffsetStep(inputs, 3);
  }

  lemma SlicesAreInputs(base: nat, inputs: seq<Bytes>, filled: Bytes, range: Range, i: nat)
    requires WithinLimits(inputs) && i < 4 && Layout(base, |filled|)
    requires range == BumpRange(base, inputs, i) && range.end <= |filled| && filled[range.start..range.end] == inputs[i]
    ensures Offset(inputs, 4) <= INPUT_CAPACITY
    ensures SliceContent(filled, base, Offset(inputs, 4), AsU32(PointerArgument(range)), AsU32(LengthArgument(inputs[i])))
            == Some(inputs[i])
    ensures AsU32(LengthArgument(inputs[i])) == |inputs[i]|
  {
    LimitsFitArena(inputs);
    OffsetMonotone(inputs, i + 1, 4);
    assert AsU32(LengthArgument(inputs[i])) == |inputs[i]|;
    assert AsU32(PointerArgument(range)) == range.start;
  }

  /**
    The limits of host and guest compose: allocation, checks and copies
    succeed, and the predicate runs on exactly the four original byte strings,
    empty ones included, with exactly their total length of the arena in use.
   */
  lemma GuestSeesTheInputs(base: nat, memory: Bytes, decide: Decision, inputs: seq<Bytes>)
    requires Layout(base, |memory|) && WithinLimits(inputs)
    ensures Exchange(ExampleModule(base, decide), memory, 0, inputs) ==
      ReadVerdict(Return(memory, 0, Verdict(decide(Arguments(inputs[0], inputs[1], inputs[2], inputs[3]),
        |inputs[0]| + |inputs[1]| + |inputs[2]| + |inputs[3]|))))
  {
    hide Allocate, CopyInputs, SliceContent, BumpRange, Offset, PointerArgument, LengthArgument;
    var m := ExampleModule(base, decide);
    var start := Allocation(memory, 0, [], []);
    LimitsFitArena(inputs);
    assert Offset(inputs, 0) == 0 by { OffsetZero(inputs); }
    BumpAllocates(base, decide, inputs, start);
    ExampleNeverShrinks(base, decide);
    PlacementIsSafe(m, memory, 0, inputs);
    var a := Allocate(m, inputs, start).value;
    var filled := CopyInputs(a.memory, inputs, a.ranges).value;
    SlicesAreInputs(base, inputs, filled, a.ranges[0], 0);
    SlicesAreInputs(base, inputs, filled, a.ranges[1], 1);
    SlicesAreInputs(base, inputs, filled, a.ranges[2], 2);
    SlicesAreInputs(base, inputs, filled, a.ranges[3], 3);
    var p := Received(PackArguments(inputs, a.ranges));
    assert Fetch(filled, base, Offset(inputs, 4), p) == Some(Arguments(inputs[0], inputs[1], inputs[2], inputs[3]));
  }

  lemma OffsetZero(inputs: seq<Bytes>)
    ensures Offset(inputs, 0) == 0
  {}

  // ---------------------------------------------------- end-to-end decisions

  function TemplateModule(base: nat, sha: Sha256): (m: Module<nat>)
  {
    ExampleModule(base, (a: Arguments, used: nat) => Template.Decide(sha, a, used))
  }

  function VaultModule(base: nat): (m: Module<nat>)
  {
    ExampleModule(base, (a: Arguments, used: nat) => Vault.Decide(a))
  }

  /**
    The byte-level pipeline approves exactly the transactions whose BIP-446
    hash is committed, whenever 32 + 2V + 4n bytes fit the arena; beyond that
    it refuses with an error and approves nothing.
   */
  lemma TemplatePipeline(base: nat, memory: Bytes, sha: Sha256, input: SigningInput, committed: Digest)
    requires Layout(base, |memory|)
    requires Encodable(V1, input) && input.inputIndex < |input.tx.inputs|
    ensures var view := ViewBytes(input);
      Exchange(TemplateModule(base, sha), memory, 0, [[], committed, view, []]) ==
      if 32 + 2 * |view| + 4 * |input.tx.inputs| > 1_245_184 then Err(BadVerdict)
      else Ok(Bip446.TemplateHash(sha, input.tx, input.inputIndex) == committed)
  {
    hide ViewBytes, Template.Decide, Exchange, ExampleModule;
    var view := ViewBytes(input);
    ViewSizeIsLength(V1, input);
    GuestSeesTheInputs(base, memory, (a: Arguments, used: nat) => Template.Decide(sha, a, used), [[], committed, view, []]);
    TemplateMeaning.DecidesTheTemplateHash(sha, input, committed, 32 + |view|);
  }

  /** The byte-level pipeline approves exactly the sweeps the plain rule allows, and always answers. */
  lemma VaultPipeline(base: nat, memory: Bytes, input: SigningInput, maxFee: U64, destination: Bytes)
    requires Layout(base, |memory|)
    requires Encodable(V1, input)
    requires 12 + |destination| <= MAX_PARAMETER_BYTES
    ensures Exchange(VaultModule(base), memory, 0, [[], Vault.Parameters(maxFee, destination), ViewBytes(input), []]) ==
      Ok(Vault.SweepAllowed(input, maxFee, destination))
  {
    hide ViewBytes, Vault.Decide, Exchange, ExampleModule;
    ViewSizeIsLength(V1, input);
    GuestSeesTheInputs(base, memory, (a: Arguments, used: nat) => Vault.Decide(a),
      [[], Vault.Parameters(maxFee, destination), ViewBytes(input), []]);
    Vault.DecidesTheSweepRule(input, maxFee, destination);
  }

  // ---------------------------------------------------------- later scratch

  /** The pointers a run of allocations returns. */
  function BumpRun(base: nat, used: nat, lengths: seq<U32>): (pointers: seq<U32>)
    requires base + INPUT_CAPACITY < USIZE && used <= INPUT_CAPACITY
    ensures |pointers| == |lengths|
    decreases lengths
  {
    if lengths == [] then []
    else var (pointer, now) := BumpAlloc(base, used, lengths[0]); [pointer] + BumpRun(base, now, lengths[1..])
  }

  lemma {:induction false} BumpRunStaysAbove(base: nat, used: nat, lengths: seq<U32>, i: nat)
    requires 0 < base && base + INPUT_CAPACITY < USIZE && used <= INPUT_CAPACITY && i < |lengths|
    ensures var p := BumpRun(base, used, lengths)[i];
      p != 0 ==> base + used <= p && p as int + lengths[i] <= base + INPUT_CAPACITY
    decreases lengths
  {
    if i > 0 {
      BumpRunStaysAbove(base, BumpAlloc(base, used, lengths[0]).1, lengths[1..], i - 1);
    }
  }

  /** Any later region, such as a predicate's scratch, starts at or after the end of every region granted before it. */
  lemma {:induction false} GrantedRegionsAreDisjoint(base: nat, used: nat, lengths: seq<U32>, i: nat, j: nat)
    requires 0 < base && base + INPUT_CAPACITY < USIZE && used <= INPUT_CAPACITY && i < j < |lengths|
    ensures var pointers := BumpRun(base, used, lengths);
      pointers[i] != 0 && pointers[j] != 0 ==> pointers[i] as int + lengths[i] <= pointers[j]
    decreases lengths
  {
    var now := BumpAlloc(base, used, lengths[0]).1;
    if i == 0 {
      BumpRunStaysAbove(base, now, lengths[1..], j - 1);
    } else {
      GrantedRegionsAreDisjoint(base, now, lengths[1..], i - 1, j - 1);
    }
  }
}
