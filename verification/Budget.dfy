/**
  The compilation budget check (src/evaluator.rs, `check_compilation_budget`)
  over a parsed stream of module payloads.
 */
module Budget {
  import opened ByteStrings
  import opened Outcomes
  import opened View

  const MAX_FUNCTION_SLOTS: nat := 65_536
  const CRYPTO_NAMESPACE := "sapio_crypto_v1"
  const CRYPTO_NAMESPACE_V2 := "sapio_crypto_v2"

  datatype ValType = I32Type | OtherType

  datatype FuncType = FuncType(params: seq<ValType>, results: seq<ValType>)

  datatype TypeRef = FuncRef(index: U32) | OtherRef

  datatype Import = Import(namespace: string, name: string, ty: TypeRef)

  /** An entry the parser could not decode is None. */
  datatype Payload =
    | TypeSection(types: seq<Option<FuncType>>)
    | ImportSection(imports: seq<Option<Import>>)
    | FunctionSection(indices: seq<Option<U32>>)
    | CodeSectionEntry(locals: seq<Option<U32>>)
    | StartSection
    | OtherPayload
    | Malformed

  datatype BudgetError = ParseError | BadImport | UnknownType | TooManySlots | HasStart

  // ----------------------------------------------- what the check is about

  /** The function types declared by the payloads, in order. */
  function TypesOf(payloads: seq<Payload>): (types: seq<FuncType>)
  {
    if payloads == [] then [] else
    TypesOf(payloads[..|payloads| - 1]) + NewTypes(payloads[|payloads| - 1])
  }

  function NewTypes(payload: Payload): (types: seq<FuncType>)
  {
    if payload.TypeSection? then Decoded(payload.types) else []
  }

  function Decoded<T>(entries: seq<Option<T>>): (values: seq<T>)
  {
    if entries == [] then [] else
    var last := entries[|entries| - 1];
    Decoded(entries[..|entries| - 1]) + (if last.Some? then [last.value] else [])
  }

  function ExpectedParams(version: WasmVersion, i: Import): (n: Option<nat>)
  {
    if i.namespace == CRYPTO_NAMESPACE && (i.name == "sha256" || i.name == "schnorr_verify") then Some(3)
    else if i.namespace == CRYPTO_NAMESPACE && i.name == "bip32_derive" then Some(4)
    else if i.namespace == CRYPTO_NAMESPACE_V2 && (i.name == "schnorr_verify" || i.name == "xonly_tweak_check")
            && version == V2 then Some(4)
    else None
  }

  predicate AllI32(types: seq<ValType>)
  {
    forall i :: 0 <= i < |types| ==> types[i] == I32Type
  }

  predicate GoodImport(version: WasmVersion, types: seq<FuncType>, entry: Option<Import>)
  {
    && entry.Some?
    && var expected := ExpectedParams(version, entry.value);
    && expected.Some?
    && entry.value.ty.FuncRef?
    && entry.value.ty.index < |types|
    && var ty := types[entry.value.ty.index];
    |ty.params| == expected.value && AllI32(ty.params) && ty.results == [I32Type]
  }

  predicate KnownType(types: seq<FuncType>, entry: Option<U32>)
  {
    entry.Some? && entry.value < |types|
  }

  /** A payload with no defect but possibly its slots, given the types declared before it. */
  predicate Sound(version: WasmVersion, types: seq<FuncType>, payload: Payload)
  {
    match payload
    case TypeSection(entries) => forall i :: 0 <= i < |entries| ==> entries[i].Some?
    case ImportSection(imports) => forall i :: 0 <= i < |imports| ==> GoodImport(version, types, imports[i])
    case FunctionSection(indices) => forall i :: 0 <= i < |indices| ==> KnownType(types, indices[i])
    case CodeSectionEntry(locals) => forall i :: 0 <= i < |locals| ==> locals[i].Some?
    case StartSection => false
    case Malformed => false
    case OtherPayload => true
  }

  predicate NoOtherDefect(version: WasmVersion, payloads: seq<Payload>)
  {
    forall k :: 0 <= k < |payloads| ==> Sound(version, TypesOf(payloads[..k]), payloads[k])
  }

  /** Parameters of the functions a section defines: a shared type counts once per function. */
  function ParameterSlots(types: seq<FuncType>, indices: seq<Option<U32>>): (n: nat)
  {
    if indices == [] then 0 else
    var last := indices[|indices| - 1];
    ParameterSlots(types, indices[..|indices| - 1]) + (if KnownType(types, last) then |types[last.value].params| else 0)
  }

  function LocalSlots(locals: seq<Option<U32>>): (n: nat)
  {
    if locals == [] then 0 else
    var last := locals[|locals| - 1];
    LocalSlots(locals[..|locals| - 1]) + (if last.Some? then last.value else 0)
  }

  function PayloadSlots(types: seq<FuncType>, payload: Payload): (n: nat)
  {
    match payload
    case FunctionSection(indices) => ParameterSlots(types, indices)
    case CodeSectionEntry(locals) => LocalSlots(locals)
    case _ => 0
  }

  /** The mathematical sum: no width, no cap, imports not counted. */
  function Slots(payloads: seq<Payload>): (n: nat)
  {
    if payloads == [] then 0 else
    var rest := payloads[..|payloads| - 1];
    Slots(rest) + PayloadSlots(TypesOf(rest), payloads[|payloads| - 1])
  }

  // ------------------------------------------------------------- the check

  /** `checked_add` on u32, then the cap. */
  function AddSlots(slots: U32, count: nat): (r: Option<U32>)
  {
    if count >= 0x1_0000_0000 || slots + count >= 0x1_0000_0000 || slots + count > MAX_FUNCTION_SLOTS then None
    else Some(slots + count)
  }

  lemma {:induction false} ParameterSlotsGrow(types: seq<FuncType>, indices: seq<Option<U32>>, k: nat)
    requires k <= |indices|
    ensures ParameterSlots(types, indices[..k]) <= ParameterSlots(types, indices)
    decreases |indices| - k
  {
    if k < |indices| {
      ParameterSlotsGrow(types, indices, k + 1);
      assert indices[..k + 1][..k] == indices[..k];
    } else {
      assert indices[..k] == indices;
    }
  }

  lemma {:induction false} LocalSlotsGrow(locals: seq<Option<U32>>, k: nat)
    requires k <= |locals|
    ensures LocalSlots(locals[..k]) <= LocalSlots(locals)
    decreases |locals| - k
  {
    if k < |locals| {
      LocalSlotsGrow(locals, k + 1);
      assert locals[..k + 1][..k] == locals[..k];
    } else {
      assert locals[..k] == locals;
    }
  }

  lemma {:induction false} SlotsGrow(payloads: seq<Payload>, k: nat)
    requires k <= |payloads|
    ensures Slots(payloads[..k]) <= Slots(payloads)
    decreases |payloads| - k
  {
    if k < |payloads| {
      SlotsGrow(payloads, k + 1);
      assert payloads[..k + 1][..k] == payloads[..k];
    } else {
      assert payloads[..k] == payloads;
    }
  }

  method AddFunctions(types: seq<FuncType>, indices: seq<Option<U32>>, start: U32) returns (r: Result<U32, BudgetError>)
    requires start <= MAX_FUNCTION_SLOTS
    ensures r.Ok? <==> Sound(V1, types, FunctionSection(indices)) && start + ParameterSlots(types, indices) <= MAX_FUNCTION_SLOTS
    ensures r.Ok? ==> r.value == start + ParameterSlots(types, indices)
  {
    var slots := start;
    for i := 0 to |indices|
      invariant forall j :: 0 <= j < i ==> KnownType(types, indices[j])
      invariant slots == start + ParameterSlots(types, indices[..i]) <= MAX_FUNCTION_SLOTS
    {
      ParameterSlotsGrow(types, indices, i + 1);
      assert indices[..i + 1][..i] == indices[..i];
      if indices[i].None? { return Err(ParseError); }
      if indices[i].value >= |types| { return Err(UnknownType); }
      var next := AddSlots(slots, |types[indices[i].value].params|);
      if next.None? { return Err(TooManySlots); }
      slots := next.value;
    }
    assert indices[..|indices|] == indices;
    r := Ok(slots);
  }

  method AddLocals(locals: seq<Option<U32>>, start: U32) returns (r: Result<U32, BudgetError>)
    requires start <= MAX_FUNCTION_SLOTS
    ensures r.Ok? <==> Sound(V1, [], CodeSectionEntry(locals)) && start + LocalSlots(locals) <= MAX_FUNCTION_SLOTS
    ensures r.Ok? ==> r.value == start + LocalSlots(locals)
  {
    var slots := start;
    for i := 0 to |locals|
      invariant forall j :: 0 <= j < i ==> locals[j].Some?
      invariant slots == start + LocalSlots(locals[..i]) <= MAX_FUNCTION_SLOTS
    {
      LocalSlotsGrow(locals, i + 1);
      assert locals[..i + 1][..i] == locals[..i];
      if locals[i].None? { return Err(ParseError); }
      var next := AddSlots(slots, locals[i].value);
      if next.None? { return Err(TooManySlots); }
      slots := next.value;
    }
    assert locals[..|locals|] == locals;
    r := Ok(slots);
  }

  method CollectTypes(entries: seq<Option<FuncType>>, known: seq<FuncType>) returns (r: Option<seq<FuncType>>)
    ensures r.Some? <==> forall i :: 0 <= i < |entries| ==> entries[i].Some?
    ensures r.Some? ==> r.value == known + Decoded(entries)
  {
    var types := known;
    for i := 0 to |entries|
      invariant forall j :: 0 <= j < i ==> entries[j].Some?
      invariant types == known + Decoded(entries[..i])
    {
      assert entries[..i + 1][..i] == entries[..i];
      if entries[i].None? { return None; }
      types := types + [entries[i].value];
    }
    assert entries[..|entries|] == entries;
    r := Some(types);
  }

  /** The match on namespace and name. */
  method CountParams(version: WasmVersion, namespace: string, name: string) returns (n: Option<nat>)
    ensures forall ty :: n == ExpectedParams(version, Import(namespace, name, ty))
  {
    if namespace == CRYPTO_NAMESPACE {
      if name == "sha256" || name == "schnorr_verify" { return Some(3); }
      if name == "bip32_derive" { return Some(4); }
    } else if namespace == CRYPTO_NAMESPACE_V2 && version == V2 {
      if name == "schnorr_verify" || name == "xonly_tweak_check" { return Some(4); }
    }
    n := None;
  }

  method CheckImports(version: WasmVersion, types: seq<FuncType>, imports: seq<Option<Import>>) returns (ok: bool)
    ensures ok <==> Sound(version, types, ImportSection(imports))
  {
    for i := 0 to |imports|
      invariant forall j :: 0 <= j < i ==> GoodImport(version, types, imports[j])
    {
      if imports[i].None? { return false; }
      var entry := imports[i].value;
      var expected := CountParams(version, entry.namespace, entry.name);
      if expected.None? { return false; }
      if !entry.ty.FuncRef? || entry.ty.index >= |types| { return false; }
      var ty := types[entry.ty.index];
      if |ty.params| != expected.value || (exists k :: 0 <= k < |ty.params| && ty.params[k] != I32Type) || ty.results != [I32Type] {
        return false;
      }
      assert GoodImport(version, types, imports[i]);
    }
    ok := true;
  }

  lemma NothingYet()
    ensures TypesOf([]) == [] && Slots([]) == 0
  {}

  lemma OnePayloadMore(payloads: seq<Payload>, k: nat)
    requires k < |payloads|
    ensures TypesOf(payloads[..k + 1]) == TypesOf(payloads[..k]) + NewTypes(payloads[k])
    ensures Slots(payloads[..k + 1]) == Slots(payloads[..k]) + PayloadSlots(TypesOf(payloads[..k]), payloads[k])
  {
    assert payloads[..k + 1][..k] == payloads[..k];
  }

  /** One payload of the loop. */
  method CheckPayload(version: WasmVersion, types: seq<FuncType>, slots: U32, payload: Payload)
    returns (r: Result<(seq<FuncType>, U32), BudgetError>)
    requires slots <= MAX_FUNCTION_SLOTS
    ensures r.Ok? <==> Sound(version, types, payload) && slots + PayloadSlots(types, payload) <= MAX_FUNCTION_SLOTS
    ensures r.Ok? ==> r.value == (types + NewTypes(payload), slots + PayloadSlots(types, payload))
  {
    hide LocalSlots, ParameterSlots, Decoded, GoodImport;
    assert types + [] == types;
    match payload
    case TypeSection(entries) =>
      var known := CollectTypes(entries, types);
      if known.None? { return Err(ParseError); }
      r := Ok((known.value, slots));
    case ImportSection(imports) =>
      var ok := CheckImports(version, types, imports);
      if !ok { return Err(BadImport); }
      r := Ok((types, slots));
    case FunctionSection(indices) =>
      var next := AddFunctions(types, indices, slots);
      if next.Err? { return Err(next.error); }
      r := Ok((types, next.value));
    case CodeSectionEntry(locals) =>
      var next := AddLocals(locals, slots);
      if next.Err? { return Err(next.error); }
      r := Ok((types, next.value));
    case StartSection => r := Err(HasStart);
    case OtherPayload => r := Ok((types, slots));
    case Malformed => r := Err(ParseError);
  }

  /**
    The check accepts exactly the streams with no other defect whose slots sum
    to at most the cap; its 32-bit counter is that mathematical sum throughout.
   */
  method CheckCompilationBudget(version: WasmVersion, payloads: seq<Payload>) returns (r: Result<U32, BudgetError>)
    ensures r.Ok? <==> NoOtherDefect(version, payloads) && Slots(payloads) <= 65_536
    ensures r.Ok? ==> r.value == Slots(payloads)
  {
    hide PayloadSlots, NewTypes, Sound, TypesOf, Slots;
    NothingYet();
    var functionTypes: seq<FuncType> := [];
    var slots: U32 := 0;
    for k := 0 to |payloads|
      invariant forall j :: 0 <= j < k ==> Sound(version, TypesOf(payloads[..j]), payloads[j])
      invariant functionTypes == TypesOf(payloads[..k])
      invariant slots == Slots(payloads[..k]) <= MAX_FUNCTION_SLOTS
    {
      OnePayloadMore(payloads, k);
      SlotsGrow(payloads, k + 1);
      var next := CheckPayload(version, functionTypes, slots, payloads[k]);
      if next.Err? { return Err(next.error); }
      functionTypes, slots := next.value.0, next.value.1;
    }
    assert payloads[..|payloads|] == payloads;
    r := Ok(slots);
  }
}
