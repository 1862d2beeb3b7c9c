/**
  The host side of one evaluation (src/evaluator.rs, `evaluate`): allocate a
  region per nonempty input with an untrusted guest allocator, check bounds and
  overlap, copy the inputs, call the guest. A guest is any pair of functions on
  its memory and globals, so every result holds for an arbitrary guest.
 */
module Host {
  import opened ByteStrings
  import opened Outcomes
  import opened Transactions
  import opened Guest

  datatype Call<G> = Trap | Return(memory: Bytes, globals: G, value: I32)

  /** Pointer/length pairs for program, parameters, signed view and witness. */
  datatype CallArguments = CallArguments(p0: I32, l0: I32, p1: I32, l1: I32, p2: I32, l2: I32, p3: I32, l3: I32)

  datatype Module<!G> = Module(
    allocate: (Bytes, G, I32) -> Call<G>,
    evaluate: (Bytes, G, CallArguments) -> Call<G>)

  datatype HostError = AllocationTrapped | OutsideMemory | Overlap | CopyFailed | EvaluationTrapped | BadVerdict

  datatype Range = Range(start: nat, end: nat)

  /** Linear memory may grow during a call but never shrinks. */
  ghost predicate NeverShrinks<G(!new)>(m: Module<G>)
  {
    forall memory, globals, length ::
      var call := m.allocate(memory, globals, length); call.Return? ==> |call.memory| >= |memory|
  }

  /** `len() as i32`. */
  function LengthArgument(bytes: Bytes): (n: I32)
  {
    AsI32(|bytes| % 0x1_0000_0000)
  }

  /** `start as i32`. */
  function PointerArgument(range: Range): (p: I32)
  {
    AsI32(range.start % 0x1_0000_0000)
  }

  predicate Clash(range: Range, previous: Range)
  {
    previous.start < previous.end && range.start < previous.end && previous.start < range.end
  }

  predicate ClashesWithAny(range: Range, ranges: seq<Range>)
  {
    exists i :: 0 <= i < |ranges| && Clash(range, ranges[i])
  }

  datatype Allocation<G> = Allocation(memory: Bytes, globals: G, ranges: seq<Range>, pointers: seq<I32>)

  /** The allocation loop from the inputs already handled on; an empty input keeps the empty range. */
  function Allocate<G>(m: Module<G>, inputs: seq<Bytes>, so: Allocation<G>): (r: Result<Allocation<G>, HostError>)
    requires |so.ranges| <= |inputs|
    ensures r.Ok? ==> |r.value.ranges| == |inputs|
    decreases |inputs| - |so.ranges|
  {
    if |so.ranges| == |inputs| then Ok(so) else
    var bytes := inputs[|so.ranges|];
    if bytes == [] then
      Allocate(m, inputs, so.(ranges := so.ranges + [Range(0, 0)], pointers := so.pointers + [0]))
    else
      match m.allocate(so.memory, so.globals, LengthArgument(bytes))
      case Trap => Err(AllocationTrapped)
      case Return(memory, globals, pointer) =>
        var range := Range(AsU32(pointer), AsU32(pointer) + |bytes|);
        if range.end > |memory| then Err(OutsideMemory)
        else if ClashesWithAny(range, so.ranges) then Err(Overlap)
        else Allocate(m, inputs, Allocation(memory, globals, so.ranges + [range], so.pointers + [pointer]))
  }

  /** The copy loop: all regions exist before the first byte is written. */
  function CopyInputs(memory: Bytes, inputs: seq<Bytes>, ranges: seq<Range>): (r: Option<Bytes>)
    requires |inputs| == |ranges|
    decreases inputs
  {
    if inputs == [] then Some(memory)
    else if ranges[0].start + |inputs[0]| > |memory| then None
    else CopyInputs(Write(memory, ranges[0].start, inputs[0]), inputs[1..], ranges[1..])
  }

  function PackArguments(inputs: seq<Bytes>, ranges: seq<Range>): (a: CallArguments)
    requires |inputs| == |ranges| == 4
  {
    CallArguments(PointerArgument(ranges[0]), LengthArgument(inputs[0]), PointerArgument(ranges[1]), LengthArgument(inputs[1]),
                  PointerArgument(ranges[2]), LengthArgument(inputs[2]), PointerArgument(ranges[3]), LengthArgument(inputs[3]))
  }

  function ReadVerdict<G>(call: Call<G>): (r: Result<bool, HostError>)
  {
    match call
    case Trap => Err(EvaluationTrapped)
    case Return(_, _, value) => if value == 0 then Ok(false) else if value == 1 then Ok(true) else Err(BadVerdict)
  }

  /** The whole exchange with the guest. */
  function Exchange<G>(m: Module<G>, memory: Bytes, globals: G, inputs: seq<Bytes>): (r: Result<bool, HostError>)
    requires |inputs| == 4
  {
    match Allocate(m, inputs, Allocation(memory, globals, [], []))
    case Err(e) => Err(e)
    case Ok(a) =>
      match CopyInputs(a.memory, inputs, a.ranges)
      case None => Err(CopyFailed)
      case Some(filled) => ReadVerdict(m.evaluate(filled, a.globals, PackArguments(inputs, a.ranges)))
  }

  // ------------------------------------------------------- the host's loops

  method Evaluate<G>(m: Module<G>, memory: Bytes, globals: G, inputs: seq<Bytes>) returns (r: Result<bool, HostError>)
    requires |inputs| == 4
    ensures r == Exchange(m, memory, globals, inputs)
  {
    hide ClashesWithAny, LengthArgument, PackArguments, ReadVerdict;
    var ranges := new Range[4](_ => Range(0, 0));
    var linear, state := memory, globals;
    ghost var pointers: seq<I32> := [];
    var index := 0;
    while index < 4
      invariant 0 <= index <= 4
      invariant forall i :: index <= i < 4 ==> ranges[i] == Range(0, 0)
      invariant Allocate(m, inputs, Allocation(memory, globals, [], []))
             == Allocate(m, inputs, Allocation(linear, state, ranges[..index], pointers))
    {
      var bytes := inputs[index];
      if bytes == [] {
        pointers := pointers + [0];
        assert ranges[..index + 1] == ranges[..index] + [Range(0, 0)];
        index := index + 1;
        continue;
      }
      var call := m.allocate(linear, state, LengthArgument(bytes));
      if call.Trap? { return Err(AllocationTrapped); }
      linear, state := call.memory, call.globals;
      var range := Range(AsU32(call.value), AsU32(call.value) + |bytes|);
      if range.end > |linear| { return Err(OutsideMemory); }
      if ClashesWithAny(range, ranges[..index]) { return Err(Overlap); }
      ghost var before := ranges[..index];
      ranges[index] := range;
      assert ranges[..index + 1] == before + [range];
      pointers := pointers + [call.value];
      index := index + 1;
    }
    assert ranges[..4] == ranges[..];
    ghost var placed := linear;
    index := 0;
    while index < 4
      invariant 0 <= index <= 4
      invariant CopyInputs(placed, inputs, ranges[..]) == CopyInputs(linear, inputs[index..], ranges[index..])
    {
      var start := ranges[index].start;
      if start + |inputs[index]| > |linear| { return Err(CopyFailed); }
      linear := linear[..start] + inputs[index] + linear[start + |inputs[index]|..];
      index := index + 1;
    }
    r := ReadVerdict(m.evaluate(linear, state, PackArguments(inputs, ranges[..])));
  }

  // -------------------------------------------- safety for an arbitrary guest

  /** The state of the allocation loop: checked ranges of exactly the handled inputs. */
  ghost predicate Checked<G>(inputs: seq<Bytes>, a: Allocation<G>)
  {
    && |a.ranges| == |a.pointers| <= |inputs|
    && (forall i :: 0 <= i < |a.ranges| ==> Fits(inputs[i], a.ranges[i], a.pointers[i], |a.memory|))
    && (forall i, j :: 0 <= i < j < |a.ranges| ==> Apart(a.ranges[i], a.ranges[j]))
  }

  /** An empty input has the empty range; any other lies in memory at the returned address. */
  predicate Fits(bytes: Bytes, range: Range, pointer: I32, size: nat)
  {
    if bytes == [] then range == Range(0, 0) && pointer == 0
    else range.start == AsU32(pointer) && range.end == range.start + |bytes| <= size
  }

  predicate Apart(a: Range, b: Range)
  {
    a.start == a.end || b.start == b.end || a.end <= b.start || b.end <= a.start
  }

  lemma {:induction false} AllocationIsChecked<G(!new)>(m: Module<G>, inputs: seq<Bytes>, so: Allocation<G>)
    requires NeverShrinks(m) && Checked(inputs, so)
    ensures var r := Allocate(m, inputs, so);
      r.Ok? ==> Checked(inputs, r.value) && |r.value.ranges| == |inputs|
    decreases |inputs| - |so.ranges|
  {
    if |so.ranges| < |inputs| {
      var bytes := inputs[|so.ranges|];
      if bytes == [] {
        AllocationIsChecked(m, inputs, so.(ranges := so.ranges + [Range(0, 0)], pointers := so.pointers + [0]));
      } else {
        var call := m.allocate(so.memory, so.globals, LengthArgument(bytes));
        if call.Return? {
          var range := Range(AsU32(call.value), AsU32(call.value) + |bytes|);
          if range.end <= |call.memory| && !ClashesWithAny(range, so.ranges) {
            var next := Allocation(call.memory, call.globals, so.ranges + [range], so.pointers + [call.value]);
            forall i | 0 <= i < |so.ranges| ensures Apart(so.ranges[i], range) {
              assert !Clash(range, so.ranges[i]);
            }
            AllocationIsChecked(m, inputs, next);
          }
        }
      }
    }
  }

  /** What the allocator did, call by call; an empty input makes no call. */
  datatype History<G> = History(memories: seq<Bytes>, globals: seq<G>, pointers: seq<I32>)

  ghost predicate Served<G(!new)>(m: Module<G>, inputs: seq<Bytes>, h: History<G>)
  {
    && |h.memories| == |h.globals| == |inputs| + 1 && |h.pointers| == |inputs|
    && forall i :: 0 <= i < |inputs| ==> ServedAt(m, inputs, h, i)
  }

  ghost predicate ServedAt<G(!new)>(m: Module<G>, inputs: seq<Bytes>, h: History<G>, i: nat)
    requires |h.memories| == |h.globals| == |inputs| + 1 && |h.pointers| == |inputs| && i < |inputs|
  {
    if inputs[i] == [] then h.memories[i + 1] == h.memories[i] && h.globals[i + 1] == h.globals[i] && h.pointers[i] == 0
    else m.allocate(h.memories[i], h.globals[i], LengthArgument(inputs[i]))
         == Return(h.memories[i + 1], h.globals[i + 1], h.pointers[i])
  }

  /** The region an input gets at a returned pointer. */
  function Region(bytes: Bytes, pointer: I32): (r: Range)
  {
    if bytes == [] then Range(0, 0) else Range(AsU32(pointer), AsU32(pointer) + |bytes|)
  }

  function Regions(inputs: seq<Bytes>, pointers: seq<I32>, k: nat): (r: seq<Range>)
    requires |inputs| == |pointers| && k <= |inputs|
    ensures |r| == k && forall i :: 0 <= i < k ==> r[i] == Region(inputs[i], pointers[i])
  {
    seq(k, i requires 0 <= i < k => Region(inputs[i], pointers[i]))
  }

  /** Every region is in the memory of its moment, and no two nonempty ones meet. */
  ghost predicate Placeable<G(!new)>(inputs: seq<Bytes>, h: History<G>)
    requires |h.memories| == |inputs| + 1 && |h.pointers| == |inputs|
  {
    && (forall i :: 0 <= i < |inputs| ==> inputs[i] == [] || Region(inputs[i], h.pointers[i]).end <= |h.memories[i + 1]|)
    && (forall i, j :: 0 <= i < j < |inputs| ==> Apart(Region(inputs[i], h.pointers[i]), Region(inputs[j], h.pointers[j])))
  }

  /**
    The host refuses nothing else: whenever the allocator answers every call
    and its regions are in bounds and apart, at any addresses, allocation
    succeeds with exactly those regions.
   */
  lemma {:induction false} GoodAllocatorIsAccepted<G(!new)>(m: Module<G>, inputs: seq<Bytes>, h: History<G>, k: nat)
    requires Served(m, inputs, h) && Placeable(inputs, h) && k <= |inputs|
    ensures Allocate(m, inputs, Allocation(h.memories[k], h.globals[k], Regions(inputs, h.pointers, k), h.pointers[..k]))
         == Ok(Allocation(h.memories[|inputs|], h.globals[|inputs|], Regions(inputs, h.pointers, |inputs|), h.pointers))
    decreases |inputs| - k
  {
    hide ClashesWithAny, LengthArgument, Apart, Regions;
    if k == |inputs| {
      assert h.pointers[..k] == h.pointers;
    } else {
      assert ServedAt(m, inputs, h, k);
      var ranges := Regions(inputs, h.pointers, k);
      var range := Region(inputs[k], h.pointers[k]);
      assert Regions(inputs, h.pointers, k + 1) == ranges + [range];
      assert h.pointers[..k + 1] == h.pointers[..k] + [h.pointers[k]];
      ApartNeverClashes(inputs, h, k);
      GoodAllocatorIsAccepted(m, inputs, h, k + 1);
    }
  }

  lemma ApartNeverClashes<G(!new)>(inputs: seq<Bytes>, h: History<G>, k: nat)
    requires |h.memories| == |inputs| + 1 && |h.pointers| == |inputs| && k < |inputs| && Placeable(inputs, h)
    ensures inputs[k] != [] ==> !ClashesWithAny(Region(inputs[k], h.pointers[k]), Regions(inputs, h.pointers, k))
  {
    if inputs[k] != [] {
      forall i | 0 <= i < k ensures !Clash(Region(inputs[k], h.pointers[k]), Regions(inputs, h.pointers, k)[i]) {
        assert Apart(Region(inputs[i], h.pointers[i]), Region(inputs[k], h.pointers[k]));
      }
    }
  }

  /** A range that meets none of the copied ones keeps its bytes. */
  lemma {:induction false} CopyFrames(memory: Bytes, inputs: seq<Bytes>, ranges: seq<Range>, lo: nat, hi: nat)
    requires |inputs| == |ranges| && lo <= hi <= |memory|
    requires forall i :: 0 <= i < |inputs| ==>
      ranges[i].end == ranges[i].start + |inputs[i]| <= |memory| && Apart(ranges[i], Range(lo, hi))
    ensures CopyInputs(memory, inputs, ranges).Some?
    ensures var filled := CopyInputs(memory, inputs, ranges).value; |filled| == |memory| && filled[lo..hi] == memory[lo..hi]
    decreases inputs
  {
    if inputs != [] {
      var next := Write(memory, ranges[0].start, inputs[0]);
      if inputs[0] == [] {
        assert next == memory;
      } else if lo < hi {
        WriteFrames(memory, ranges[0].start, inputs[0], lo, hi);
      }
      CopyFrames(next, inputs[1..], ranges[1..], lo, hi);
    }
  }

  lemma {:induction false} CopyFills(memory: Bytes, inputs: seq<Bytes>, ranges: seq<Range>, k: nat)
    requires |inputs| == |ranges| && k < |inputs|
    requires forall i :: 0 <= i < |inputs| ==> ranges[i].end == ranges[i].start + |inputs[i]| <= |memory|
    requires forall i, j :: 0 <= i < j < |inputs| ==> Apart(ranges[i], ranges[j])
    ensures CopyInputs(memory, inputs, ranges).Some?
    ensures var filled := CopyInputs(memory, inputs, ranges).value;
      |filled| == |memory| && filled[ranges[k].start..ranges[k].end] == inputs[k]
    decreases k
  {
    var next := Write(memory, ranges[0].start, inputs[0]);
    if k == 0 {
      WriteReadsBack(memory, ranges[0].start, inputs[0]);
      forall i | 0 <= i < |inputs[1..]| ensures Apart(ranges[1..][i], ranges[0]) {
        assert Apart(ranges[0], ranges[i + 1]);
      }
      CopyFrames(next, inputs[1..], ranges[1..], ranges[0].start, ranges[0].end);
    } else {
      CopyFills(next, inputs[1..], ranges[1..], k - 1);
    }
  }

  /**
    For any guest allocator whatever: once allocation succeeds the copies
    cannot fail, nonempty ranges are in bounds and pairwise disjoint, memory
    holds each input exactly, and each pointer argument is the i32 the
    allocator returned, so the guest sees the same u32.
   */
  lemma PlacementIsSafe<G(!new)>(m: Module<G>, memory: Bytes, globals: G, inputs: seq<Bytes>)
    requires NeverShrinks(m)
    requires Allocate(m, inputs, Allocation(memory, globals, [], [])).Ok?
    ensures var a := Allocate(m, inputs, Allocation(memory, globals, [], [])).value;
      && |a.ranges| == |a.pointers| == |inputs|
      && CopyInputs(a.memory, inputs, a.ranges).Some?
      && var filled := CopyInputs(a.memory, inputs, a.ranges).value;
      && |filled| == |a.memory|
      && (forall i :: 0 <= i < |inputs| ==>
            && a.ranges[i].start <= a.ranges[i].end <= |filled|
            && filled[a.ranges[i].start..a.ranges[i].end] == inputs[i]
            && PointerArgument(a.ranges[i]) == a.pointers[i]
            && AsU32(a.pointers[i]) == a.ranges[i].start)
      && (forall i, j :: 0 <= i < j < |inputs| && inputs[i] != [] && inputs[j] != [] ==>
            a.ranges[i].end <= a.ranges[j].start || a.ranges[j].end <= a.ranges[i].start)
  {
    AllocationIsChecked(m, inputs, Allocation(memory, globals, [], []));
    var a := Allocate(m, inputs, Allocation(memory, globals, [], [])).value;
    forall i | 0 <= i < |inputs|
      ensures a.ranges[i].end == a.ranges[i].start + |inputs[i]| <= |a.memory|
      ensures PointerArgument(a.ranges[i]) == a.pointers[i] && AsU32(a.pointers[i]) == a.ranges[i].start
    {
      assert Fits(inputs[i], a.ranges[i], a.pointers[i], |a.memory|);
    }
    CopyFrames(a.memory, inputs, a.ranges, 0, 0);
    forall i | 0 <= i < |inputs|
      ensures CopyInputs(a.memory, inputs, a.ranges).value[a.ranges[i].start..a.ranges[i].end] == inputs[i]
    {
      CopyFills(a.memory, inputs, a.ranges, i);
    }
    forall i, j | 0 <= i < j < |inputs| && inputs[i] != [] && inputs[j] != []
      ensures a.ranges[i].end <= a.ranges[j].start || a.ranges[j].end <= a.ranges[i].start
    {
      assert Apart(a.ranges[i], a.ranges[j]);
    }
  }
}
