/**
 * Converting host values to guest parameters and guest results back to host
 * values (runtime.go:401-435 and 522-604). toWASMValue narrows every integer
 * to what the engine passes; strings and byte slices are staged in guest
 * memory through the heap and passed as a pointer, optionally followed by a
 * size word. `StageAll` is the pure meaning of toWASMParameters' loop.
 */
module Conversion {
  import opened Base
  import opened MemoryView
  import opened Codec
  import opened Heap
  import opened Environment
  import Utf16

  // ---------------------------------------------------------------------
  // toWASMValue
  // ---------------------------------------------------------------------

  /** Go's %T of a value. */
  function TypeName(v: GoValue): string
  {
    match v
    case Nil => "<nil>"
    case Bool(_) => "bool"
    case Int8(_) => "int8"
    case Uint8(_) => "uint8"
    case Int16(_) => "int16"
    case Uint16(_) => "uint16"
    case Int32(_) => "int32"
    case Uint32(_) => "uint32"
    case Int64(_) => "int64"
    case Uint64(_) => "uint64"
    case Int(_) => "int"
    case Uint(_) => "uint"
    case Float32(_) => "float32"
    case Float64(_) => "float64"
    case Bytes(_) => "[]uint8"
    case Str(_) => "string"
    case AscBytes(_) => "wasm.AscBytes"
    case AscString(_) => "wasm.AscString"
    case Other(name) => name
  }

  predicate IsInteger(v: GoValue)
  {
    v.Int8? || v.Uint8? || v.Int16? || v.Uint16? || v.Int32? || v.Uint32? ||
    v.Int64? || v.Uint64? || v.Int? || v.Uint?
  }

  /** The mathematical value of an integer of any width. */
  function IntegerOf(v: GoValue): int
    requires IsInteger(v)
  {
    match v
    case Int8(x) => x
    case Uint8(x) => x
    case Int16(x) => x
    case Uint16(x) => x
    case Int32(x) => x
    case Uint32(x) => x
    case Int64(x) => x
    case Uint64(x) => x
    case Int(x) => x
    case Uint(x) => x
  }

  /** What toWASMValue accepts: every type of its switch. */
  predicate Accepted(v: GoValue)
  {
    !(v.Nil? || v.Other? || v.AscBytes? || v.AscString?)
  }

  /** What toWASMValue produces: engine values and the two stageable wrappers. */
  predicate IsWasmValue(v: GoValue)
  {
    v.Int32? || v.Int64? || v.Uint64? || v.Float32? || v.Float64? || v.AscBytes? || v.AscString?
  }

  /**
   * toWASMValue (runtime.go:564-604). Integers other than int64 and uint64
   * become int32 with Go's conversion, which keeps the low 32 bits: the value
   * is kept exactly when it fits. Any other type panics.
   */
  function ToWasmValue(v: GoValue): (r: Result<GoValue>)
    ensures r.Ok? <==> Accepted(v)
    ensures r.Err? ==> r.error == Panic(UnhandledType(TypeName(v)))
    ensures r.Ok? ==> IsWasmValue(r.value)
    ensures v.Bool? ==> r == Ok(Int32(if v.b then 1 else 0))
    ensures IsInteger(v) && !v.Int64? && !v.Uint64? ==> r == Ok(Int32(Wrap32(IntegerOf(v))))
    ensures v.Int64? || v.Uint64? || v.Float32? || v.Float64? ==> r == Ok(v)
    ensures v.Bytes? ==> r == Ok(AscBytes(v.bytes))
    ensures v.Str? ==> r == Ok(AscString(v.s))
  {
    match v
    case Bool(b) => Ok(Int32(if b then 1 else 0))
    case Int8(x) => Ok(Int32(x))
    case Uint8(x) => Ok(Int32(x))
    case Int16(x) => Ok(Int32(x))
    case Uint16(x) => Ok(Int32(x))
    case Int32(x) => Ok(Int32(x))
    case Uint32(x) => Ok(Int32(Wrap32(x)))
    case Int64(_) => Ok(v)
    case Uint64(_) => Ok(v)
    case Int(x) => Ok(Int32(Wrap32(x)))
    case Uint(x) => Ok(Int32(Wrap32(x)))
    case Float32(_) => Ok(v)
    case Float64(_) => Ok(v)
    case Bytes(b) => Ok(AscBytes(b))
    case Str(s) => Ok(AscString(s))
    case _ => Err(Panic(UnhandledType(TypeName(v))))
  }

  // ---------------------------------------------------------------------
  // The parameter words passed to the engine.
  // ---------------------------------------------------------------------

  /** A converted parameter: a value passed as is, or a staged value's pointer and size. */
  datatype WasmParam = Scalar(value: GoValue) | Pointer(ptr: int32, size: int32)

  /** The word that stands for a parameter. */
  function Head(p: WasmParam): GoValue
  {
    match p
    case Scalar(v) => v
    case Pointer(ptr, _) => Int32(ptr)
  }

  /** The words of one parameter: a pointer is followed by its size when sizes are passed. */
  function Words(p: WasmParam, withSize: bool): (w: seq<GoValue>)
  {
    if withSize && p.Pointer? then [Int32(p.ptr), Int32(p.size)] else [Head(p)]
  }

  /** The words of all parameters, in order. */
  function Flatten(ps: seq<WasmParam>, withSize: bool): seq<GoValue>
  {
    if ps == [] then [] else Flatten(ps[..|ps| - 1], withSize) + Words(ps[|ps| - 1], withSize)
  }

  lemma {:induction false} FlattenAppend(ps: seq<WasmParam>, qs: seq<WasmParam>, withSize: bool)
    ensures Flatten(ps + qs, withSize) == Flatten(ps, withSize) + Flatten(qs, withSize)
    decreases |qs|
  {
    if qs == [] {
      assert ps + qs == ps;
    } else {
      var last := |qs| - 1;
      assert (ps + qs)[..|ps + qs| - 1] == ps + qs[..last];
      FlattenAppend(ps, qs[..last], withSize);
    }
  }

  /** The number of words before parameter i. */
  function Position(ps: seq<WasmParam>, i: nat, withSize: bool): nat
    requires i <= |ps|
  {
    |Flatten(ps[..i], withSize)|
  }

  /**
   * The words keep the parameters' order: parameter i's word comes at its
   * position; with sizes a pointer's size comes right after it and the next
   * parameter after that; a scalar, and any parameter without sizes, is
   * followed directly by the next parameter.
   */
  lemma ParameterWords(ps: seq<WasmParam>, i: nat, withSize: bool)
    requires i < |ps|
    ensures var k := Position(ps, i, withSize);
      var out := Flatten(ps, withSize);
      && k < |out| && out[k] == Head(ps[i])
      && (withSize && ps[i].Pointer? ==>
            Position(ps, i + 1, withSize) == k + 2 && k + 1 < |out| && out[k + 1] == Int32(ps[i].size))
      && (!(withSize && ps[i].Pointer?) ==> Position(ps, i + 1, withSize) == k + 1)
  {
    var upTo := ps[..i + 1];
    assert upTo[..i] == ps[..i] && upTo[i] == ps[i];
    assert ps == upTo + ps[i + 1..];
    FlattenAppend(upTo, ps[i + 1..], withSize);
    var before, words := Flatten(ps[..i], withSize), Words(ps[i], withSize);
    assert Flatten(upTo, withSize) == before + words;
    assert Flatten(ps, withSize) == before + words + Flatten(ps[i + 1..], withSize);
  }

  /** Without sizes there is exactly one word per parameter. */
  lemma {:induction false} FlattenWithoutSizes(ps: seq<WasmParam>)
    ensures |Flatten(ps, false)| == |ps|
    ensures forall i :: 0 <= i < |ps| ==> Flatten(ps, false)[i] == Head(ps[i])
  {
    if ps != [] {
      var init := ps[..|ps| - 1];
      FlattenWithoutSizes(init);
      assert forall i :: 0 <= i < |init| ==> init[i] == ps[i];
    }
  }

  // ---------------------------------------------------------------------
  // The MaxInt32 size sentinel of toWASMParameters as written.
  // ---------------------------------------------------------------------

  /** The size toWASMParameters keeps for a parameter: MaxInt32 stands for "no size". */
  function SizeOrSentinel(p: WasmParam): int32
  {
    if p.Pointer? then p.size else MaxInt32
  }

  /** toWASMParameters' words as written: the size word is skipped whenever it equals MaxInt32. */
  function FlattenAsWritten(ps: seq<WasmParam>, withSize: bool): seq<GoValue>
  {
    if ps == [] then []
    else
      var p := ps[|ps| - 1];
      FlattenAsWritten(ps[..|ps| - 1], withSize) + [Head(p)] +
        (if withSize && SizeOrSentinel(p) != MaxInt32 then [Int32(SizeOrSentinel(p))] else [])
  }

  /** The sentinel test and the parameter's kind agree unless a pointer's size is MaxInt32. */
  lemma {:induction false} AsWrittenAgrees(ps: seq<WasmParam>, withSize: bool)
    requires forall i :: 0 <= i < |ps| && ps[i].Pointer? ==> ps[i].size != MaxInt32
    ensures FlattenAsWritten(ps, withSize) == Flatten(ps, withSize)
  {
    if ps != [] {
      AsWrittenAgrees(ps[..|ps| - 1], withSize);
    }
  }

  /** int32 of an even number is even, so never the odd MaxInt32. */
  lemma EvenNeverSentinel(k: int)
    ensures Wrap32(2 * k) != MaxInt32
  {
    var q := (2 * k + 0x8000_0000) / 0x1_0000_0000;
    assert Wrap32(2 * k) == 2 * (k - q * 0x8000_0000);
  }

  /** A staged string's size 4 + 2 * len(h) is even, so it never equals the sentinel. */
  lemma StringSizeNeverSentinel(h: string)
    ensures Wrap32(|StringLayoutAsWritten(h)|) != MaxInt32
  {
    var k := 2 + Utf16.Utf8Length(h);
    assert |StringLayoutAsWritten(h)| == 2 * k;
    EvenNeverSentinel(k);
  }

  /**
   * A byte slice of 2^31 - 5 bytes is staged with size int32(4 + len) ==
   * MaxInt32, and toWASMParameters as written then drops its size word.
   */
  lemma SentinelDropsBytesSize(ptr: int32, h: seq<uint8>)
    requires |h| == MaxInt32 - 4
    ensures var p := Pointer(ptr, Wrap32(|BytesLayout(h)|));
      && FlattenAsWritten([p], true) == [Int32(ptr)]
      && Flatten([p], true) == [Int32(ptr), Int32(MaxInt32)]
  {
    var p := Pointer(ptr, Wrap32(|BytesLayout(h)|));
    assert [p][..0] == [];
  }

  // ---------------------------------------------------------------------
  // toWASMParameters
  // ---------------------------------------------------------------------

  /** The outcome of converting a parameter, with the arena and memory after it. */
  datatype StageStep = StageStep(result: Result<WasmParam>, arena: Arena, memory: seq<uint8>)

  /** The bytes a converted value is staged as, if any. */
  function Layout(w: GoValue): seq<uint8>
    requires w.AscString? || w.AscBytes?
  {
    if w.AscString? then StringLayoutAsWritten(w.text) else BytesLayout(w.ab)
  }

  /**
   * One iteration of toWASMParameters (runtime.go:542-546): convert, and
   * stage a string or byte slice with the heap's Write, the size being
   * int32 of the staged length.
   */
  function StageParameter(allocator: Option<Allocator>, arena: Arena, mem: seq<uint8>, parameter: GoValue): StageStep
  {
    match ToWasmValue(parameter)
    case Err(e) => StageStep(Err(e), arena, mem)
    case Ok(w) =>
      if w.AscString? || w.AscBytes? then
        var layout := Layout(w);
        var step := WriteOutcome(allocator, arena, mem, layout);
        match step.result
        case Err(e) => StageStep(Err(e), step.arena, step.memory)
        case Ok(ptr) => StageStep(Ok(Pointer(ptr, Wrap32(|layout|))), step.arena, step.memory)
      else StageStep(Ok(Scalar(w)), arena, mem)
  }

  /** The converted parameters, or the first failure, with the arena and memory after them. */
  datatype Staging = Staging(result: Result<seq<WasmParam>>, arena: Arena, memory: seq<uint8>)

  /** All parameters converted left to right; the first failure stops the conversion. */
  function StageAll(allocator: Option<Allocator>, arena: Arena, mem: seq<uint8>, params: seq<GoValue>): Staging
  {
    if params == [] then Staging(Ok([]), arena, mem)
    else
      var prior := StageAll(allocator, arena, mem, params[..|params| - 1]);
      if prior.result.Err? then prior
      else
        var step := StageParameter(allocator, prior.arena, prior.memory, params[|params| - 1]);
        match step.result
        case Err(e) => Staging(Err(e), step.arena, step.memory)
        case Ok(p) => Staging(Ok(prior.result.value + [p]), step.arena, step.memory)
  }

  /** Once a prefix of the parameters fails, every longer prefix fails the same way. */
  lemma {:induction false} FailureStops(allocator: Option<Allocator>, arena: Arena, mem: seq<uint8>,
                                        params: seq<GoValue>, j: nat, k: nat)
    requires j <= k <= |params|
    requires StageAll(allocator, arena, mem, params[..j]).result.Err?
    ensures StageAll(allocator, arena, mem, params[..k]) == StageAll(allocator, arena, mem, params[..j])
    decreases k - j
  {
    if j < k {
      assert params[..j + 1][..j] == params[..j];
      FailureStops(allocator, arena, mem, params, j + 1, k);
    }
  }

  /**
   * A successful conversion has one parameter per argument, in order: a
   * string or byte slice becomes a pointer whose size is int32 of its staged
   * layout, anything else the value toWASMValue gives.
   */
  lemma {:induction false} StagedShape(allocator: Option<Allocator>, arena: Arena, mem: seq<uint8>, params: seq<GoValue>)
    requires StageAll(allocator, arena, mem, params).result.Ok?
    ensures var staged := StageAll(allocator, arena, mem, params).result.value;
      && |staged| == |params|
      && forall i :: 0 <= i < |params| ==>
        && ToWasmValue(params[i]).Ok?
        && var w := ToWasmValue(params[i]).value;
          if w.AscString? || w.AscBytes? then staged[i].Pointer? && staged[i].size == Wrap32(|Layout(w)|)
          else staged[i] == Scalar(w)
  {
    if params != [] {
      var init := params[..|params| - 1];
      StagedShape(allocator, arena, mem, init);
      assert forall i :: 0 <= i < |init| ==> init[i] == params[i];
    }
  }

  /**
   * When no staged layout's int32 size is the sentinel (a string's never is,
   * by StringSizeNeverSentinel), the words toWASMParameters passes are the
   * corrected flattening: a size word after every pointer.
   */
  lemma StagedWordsAgree(allocator: Option<Allocator>, arena: Arena, mem: seq<uint8>, params: seq<GoValue>, withSize: bool)
    requires StageAll(allocator, arena, mem, params).result.Ok?
    requires forall i :: 0 <= i < |params| ==> Wrap32(StagedSize(params[i])) != MaxInt32
    ensures var staged := StageAll(allocator, arena, mem, params).result.value;
      FlattenAsWritten(staged, withSize) == Flatten(staged, withSize)
  {
    var staged := StageAll(allocator, arena, mem, params).result.value;
    StagedShape(allocator, arena, mem, params);
    forall i | 0 <= i < |staged| && staged[i].Pointer?
      ensures staged[i].size != MaxInt32
    {
      assert Wrap32(StagedSize(params[i])) != MaxInt32;
    }
    AsWrittenAgrees(staged, withSize);
  }

  /** A parameter of a type toWASMValue rejects makes the whole conversion fail. */
  lemma {:induction false} RejectedParameterFails(allocator: Option<Allocator>, arena: Arena, mem: seq<uint8>,
                                                  params: seq<GoValue>, i: nat)
    requires i < |params| && !Accepted(params[i])
    ensures StageAll(allocator, arena, mem, params).result.Err?
  {
    if i < |params| - 1 {
      var init := params[..|params| - 1];
      assert init[i] == params[i];
      RejectedParameterFails(allocator, arena, mem, init, i);
    }
  }

  /** The bytes one parameter puts in the arena: its layout if it is staged, else none. */
  function StagedSize(v: GoValue): nat
  {
    var w := ToWasmValue(v);
    if w.Ok? && (w.value.AscString? || w.value.AscBytes?) then |Layout(w.value)| else 0
  }

  /** The bytes the parameters put in the arena. */
  function StagedBytes(params: seq<GoValue>): nat
  {
    if params == [] then 0 else StagedBytes(params[..|params| - 1]) + StagedSize(params[|params| - 1])
  }

  /** An accepted parameter that fits the free region is staged at the cursor, which advances past it. */
  lemma StageInCapacity(allocator: Option<Allocator>, arena: Arena, mem: seq<uint8>, v: GoValue)
    requires |mem| <= MaxInt32 && InMemory(arena, |mem|)
    requires Accepted(v) && StagedSize(v) <= arena.free
    ensures var step := StageParameter(allocator, arena, mem, v);
      && step.result.Ok?
      && step.arena == Arena(arena.start + StagedSize(v), arena.free - StagedSize(v))
      && |step.memory| == |mem|
      && (step.result.value.Pointer? ==> step.result.value.ptr == arena.start)
  {
    var w := ToWasmValue(v).value;
    if w.AscString? || w.AscBytes? {
      InCapacityWrite(allocator, arena, mem, Layout(w));
    }
  }

  /**
   * When every parameter is accepted and all staged values fit the free
   * region, conversion succeeds without the allocator: each pointer is the
   * cursor advanced by the values staged before it, and the cursor ends
   * advanced by all of them.
   */
  lemma {:induction false} StagedAdjacent(allocator: Option<Allocator>, arena: Arena, mem: seq<uint8>, params: seq<GoValue>)
    requires |mem| <= MaxInt32 && InMemory(arena, |mem|)
    requires forall i :: 0 <= i < |params| ==> Accepted(params[i])
    requires StagedBytes(params) <= arena.free
    ensures var s := StageAll(allocator, arena, mem, params);
      && s.result.Ok? && |s.result.value| == |params|
      && s.arena == Arena(arena.start + StagedBytes(params), arena.free - StagedBytes(params))
      && |s.memory| == |mem|
      && forall i :: 0 <= i < |params| && s.result.value[i].Pointer? ==>
           s.result.value[i].ptr == arena.start + StagedBytes(params[..i])
  {
    if params != [] {
      var n := |params| - 1;
      var init := params[..n];
      assert forall i :: 0 <= i < |init| ==> init[i] == params[i];
      StagedAdjacent(allocator, arena, mem, init);
      var prior := StageAll(allocator, arena, mem, init);
      assert InMemory(prior.arena, |prior.memory|);
      StageInCapacity(allocator, prior.arena, prior.memory, params[n]);
      var step := StageParameter(allocator, prior.arena, prior.memory, params[n]);
      var s := StageAll(allocator, arena, mem, params);
      assert s == Staging(Ok(prior.result.value + [step.result.value]), step.arena, step.memory);
      PointersAfterStep(arena.start, params, prior.result.value, step.result.value);
    }
  }

  /** The pointer invariant of StagedAdjacent carries over to one more staged parameter. */
  lemma PointersAfterStep(start: int, params: seq<GoValue>, prior: seq<WasmParam>, last: WasmParam)
    requires |params| == |prior| + 1
    requires forall i :: 0 <= i < |prior| && prior[i].Pointer? ==>
      prior[i].ptr == start + StagedBytes(params[..|prior|][..i])
    requires last.Pointer? ==> last.ptr == start + StagedBytes(params[..|prior|])
    ensures forall i :: 0 <= i < |params| && (prior + [last])[i].Pointer? ==>
      (prior + [last])[i].ptr == start + StagedBytes(params[..i])
  {
    var all := prior + [last];
    forall i | 0 <= i < |params| && all[i].Pointer?
      ensures all[i].ptr == start + StagedBytes(params[..i])
    {
      if i < |prior| {
        assert params[..|prior|][..i] == params[..i];
        assert all[i] == prior[i];
      }
    }
  }

  /**
   * toWASMParameters (runtime.go:540-562), with each panic an error: the
   * parameters converted one by one, each staged value written to the heap
   * as it comes. When sizes are passed, a word is followed by its size
   * unless that size is the MaxInt32 sentinel every non-pointer carries. The
   * arena and the memory afterwards are those of StageAll, the words its
   * parameters flattened as written.
   */
  method ToWasmParameters(heap: AscHeap, parameters: seq<GoValue>, withSize: bool) returns (r: Result<seq<GoValue>>)
    modifies heap, heap.memory
    ensures var s := StageAll(heap.allocator, old(heap.State()), old(heap.memory[..]), parameters);
      && heap.State() == s.arena && heap.memory[..] == s.memory
      && r == (if s.result.Ok? then Ok(FlattenAsWritten(s.result.value, withSize)) else Err(s.result.error))
  {
    ghost var arena := heap.State();
    ghost var mem := heap.memory[..];
    ghost var staged: seq<WasmParam> := [];
    var out: seq<GoValue> := [];
    for i := 0 to |parameters|
      invariant StageAll(heap.allocator, arena, mem, parameters[..i]) == Staging(Ok(staged), heap.State(), heap.memory[..])
      invariant out == FlattenAsWritten(staged, withSize)
    {
      assert parameters[..i + 1][..i] == parameters[..i];
      var p := StageOne(heap, parameters[i]);
      if p.Err? {
        FailureStops(heap.allocator, arena, mem, parameters, i + 1, |parameters|);
        assert parameters[..|parameters|] == parameters;
        return Err(p.error);
      }
      var size := MaxInt32;
      if p.value.Pointer? {
        size := p.value.size;
      }
      out := out + [Head(p.value)];
      if withSize && size != MaxInt32 {
        out := out + [Int32(size)];
      }
      assert (staged + [p.value])[..|staged|] == staged;
      staged := staged + [p.value];
    }
    assert parameters[..|parameters|] == parameters;
    r := Ok(out);
  }

  /** The body of toWASMParameters' loop (runtime.go:542-546): one parameter converted and staged. */
  method StageOne(heap: AscHeap, parameter: GoValue) returns (r: Result<WasmParam>)
    modifies heap, heap.memory
    ensures var step := StageParameter(heap.allocator, old(heap.State()), old(heap.memory[..]), parameter);
      r == step.result && heap.State() == step.arena && heap.memory[..] == step.memory
  {
    var wasmValue := ToWasmValue(parameter);
    if wasmValue.Err? {
      return Err(wasmValue.error);
    }
    if wasmValue.value.AscString? || wasmValue.value.AscBytes? {
      var s: Result<Staged>;
      if wasmValue.value.AscString? {
        s := StringToPtr(heap, wasmValue.value.text);
      } else {
        s := BytesToPtr(heap, wasmValue.value.ab);
      }
      if s.Err? {
        return Err(s.error);
      }
      r := Ok(Pointer(s.value.ptr, s.value.size));
    } else {
      r := Ok(Scalar(wasmValue.value));
    }
  }

  // ---------------------------------------------------------------------
  // toGoValue
  // ---------------------------------------------------------------------

  predicate IsIntegerKind(k: Kind)
  {
    k.IntKind? || k.Int8Kind? || k.Int16Kind? || k.Int32Kind? || k.Int64Kind? ||
    k.UintKind? || k.Uint8Kind? || k.Uint16Kind? || k.Uint32Kind? || k.Uint64Kind?
  }

  /** The return kinds toGoValue handles: integers, []byte and string. */
  predicate Handled(k: Kind)
  {
    IsIntegerKind(k) || k == SliceKind(Uint8Kind) || k.StringKind?
  }

  /**
   * toGoValue (runtime.go:401-435): the result the engine returned, read
   * back through the environment according to the expected return kind.
   * Integers are passed through, a []byte or a string is read at the
   * returned pointer (its length argument 0), anything else is an error. A
   * result that is not an int32 fails the type assertion and panics.
   */
  function ToGoValue(wasmValue: GoValue, expected: Option<Kind>, env: MemoryReader): (r: Result<GoValue>)
    ensures expected.None? || IsIntegerKind(expected.value) ==> r == Ok(wasmValue)
    ensures expected.Some? && !Handled(expected.value) ==> r == Err(UnhandledReturnKind(expected.value))
    ensures expected.Some? && (expected.value.StringKind? || expected.value == SliceKind(Uint8Kind)) && !wasmValue.Int32? ==>
      r == Err(Panic(FailedTypeAssertion))
    ensures r.Ok? && expected == Some(StringKind) ==>
      wasmValue.Int32? && env.ReadString(wasmValue.i32, 0).Ok? && r == Ok(Str(env.ReadString(wasmValue.i32, 0).value))
    ensures r.Ok? && expected == Some(SliceKind(Uint8Kind)) ==>
      wasmValue.Int32? && env.ReadBytes(wasmValue.i32).Ok? && r == Ok(Bytes(env.ReadBytes(wasmValue.i32).value))
  {
    match expected
    case None => Ok(wasmValue)
    case Some(kind) =>
      if IsIntegerKind(kind) then Ok(wasmValue)
      else if kind.SliceKind? then
        if kind.elem.Uint8Kind? then
          if !wasmValue.Int32? then Err(Panic(FailedTypeAssertion))
          else
            match env.ReadBytes(wasmValue.i32)
            case Err(e) => Err(Context("read bytes", e))
            case Ok(out) => Ok(Bytes(out))
        else Err(UnhandledReturnKind(kind))
      else if kind.StringKind? then
        if !wasmValue.Int32? then Err(Panic(FailedTypeAssertion))
        else
          match env.ReadString(wasmValue.i32, 0)
          case Err(e) => Err(Context("read string", e))
          case Ok(out) => Ok(Str(out))
      else Err(UnhandledReturnKind(kind))
  }

  /**
   * A string result the guest laid out at p, as a count of UTF-16 units
   * and then the units, comes back as that string through the default
   * environment.
   */
  lemma StringResultRoundTrip(mem: seq<uint8>, p: int32, h: string)
    requires |mem| <= MaxInt32 && 0 <= p && p + 4 < |mem|
    requires |Utf16.Encode(h)| < 0x4000_0000
    requires p + |StringLayout(h)| <= |mem| && mem[p..p + |StringLayout(h)|] == StringLayout(h)
    ensures ToGoValue(Int32(p), Some(StringKind), MemoryReader(false, Some(mem))) == Ok(Str(h))
  {
    StringRoundTrip(mem, p, h);
  }

  /**
   * A []byte result whose 3-word header at p points at data inside memory
   * comes back as exactly that data; a read failure is reported with the
   * "read bytes" context.
   */
  lemma BytesResultRoundTrip(mem: seq<uint8>, p: int32, arrayOffset: uint32, dataStart: uint32, data: seq<uint8>)
    requires |mem| <= MaxInt32 && Fits(mem, p, 12)
    requires arrayOffset + dataStart < |mem| && arrayOffset + dataStart + |data| <= |mem|
    requires mem[p..p + 12] == BytesHeader(arrayOffset, dataStart, |data|)
    requires mem[arrayOffset + dataStart..arrayOffset + dataStart + |data|] == data
    ensures ToGoValue(Int32(p), Some(SliceKind(Uint8Kind)), MemoryReader(false, Some(mem))) == Ok(Bytes(data))
  {
    BytesAtHeader(mem, p, arrayOffset, dataStart, |data|);
  }

  /** A failed read of a string or []byte result is wrapped with its context, unless it panicked. */
  lemma ReadFailureWrapped(wasmValue: GoValue, kind: Kind, env: MemoryReader)
    requires wasmValue.Int32? && (kind.StringKind? || kind == SliceKind(Uint8Kind))
    ensures var read := if kind.StringKind? then env.ReadString(wasmValue.i32, 0).Err?
                        else env.ReadBytes(wasmValue.i32).Err?;
      ToGoValue(wasmValue, Some(kind), env).Err? <==> read
    ensures kind.StringKind? && env.ReadString(wasmValue.i32, 0).Err? ==>
      ToGoValue(wasmValue, Some(kind), env) == Err(Context("read string", env.ReadString(wasmValue.i32, 0).error))
    ensures kind == SliceKind(Uint8Kind) && env.ReadBytes(wasmValue.i32).Err? ==>
      ToGoValue(wasmValue, Some(kind), env) == Err(Context("read bytes", env.ReadBytes(wasmValue.i32).error))
  {
  }
}
