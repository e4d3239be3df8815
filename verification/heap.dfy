/**
 * The bump arena that stages host values in guest memory (AscHeap,
 * runtime.go:437-520). `WriteOutcome` is the pure meaning of one write; the
 * class's Write method is proved to produce it, and the lemmas say what it
 * means: in-capacity writes land at the cursor and advance it, an exhausted
 * arena is replaced by a fresh allocation, successive writes are adjacent.
 */
module Heap {
  import opened Base
  import opened MemoryView
  import opened Codec
  import Utf16

  /** MIN_ARENA_SIZE (runtime.go:444): the least amount the arena asks the allocator for. */
  const MinArenaSize: nat := 10000

  /** The guest allocator: called with an int32 size, it returns a Go value or an error. */
  type Allocator = int32 -> Result<GoValue>

  /** The free region: the cursor arenaStartPtr and the count arenaFreeSize. */
  datatype Arena = Arena(start: int32, free: int)

  /** The free region lies inside a memory of `size` bytes. */
  predicate InMemory(arena: Arena, size: int)
  {
    0 <= arena.start && 0 <= arena.free && arena.start + arena.free <= size
  }

  /** An allocator that only ever hands out blocks inside a memory of `size` bytes. */
  ghost predicate AllocatesWithin(allocator: Allocator, size: int)
  {
    forall n: int32 :: 0 <= n && allocator(n).Ok? && allocator(n).value.Int32? ==>
      0 <= allocator(n).value.i32 && allocator(n).value.i32 + n <= size
  }

  function Min(a: int, b: int): int
  {
    if a <= b then a else b
  }

  /**
   * copy(mem[ptr:], bytes): byte i of the result is bytes[i - ptr] inside the
   * copied run, which stops at the end of memory, and mem[i] elsewhere.
   */
  function Copied(mem: seq<uint8>, ptr: nat, bytes: seq<uint8>): (r: seq<uint8>)
    requires ptr <= |mem|
    ensures |r| == |mem|
    ensures forall i :: 0 <= i < |mem| ==>
      r[i] == if ptr <= i < ptr + |bytes| then bytes[i - ptr] else mem[i]
  {
    var n := Min(|mem| - ptr, |bytes|);
    mem[..ptr] + bytes[..n] + mem[ptr + n..]
  }

  /**
   * The allocation step of Write (runtime.go:447-463): a write that does not
   * fit asks for max(size, MIN_ARENA_SIZE) bytes and makes the returned block
   * the whole arena. A nil allocator, an allocator error and a result that is
   * not an int32 all panic.
   */
  function Reserve(allocator: Option<Allocator>, arena: Arena, size: nat): (r: Result<Arena>)
    ensures size <= arena.free ==> r == Ok(arena)
    ensures r.Ok? ==> size <= r.value.free
    ensures size > arena.free ==>
      var newSize := if size < MinArenaSize then MinArenaSize else size;
      && (allocator.None? ==> r == Err(Panic(NilFunctionCall)))
      && (allocator.Some? && allocator.value(Wrap32(newSize)).Err? ==>
            r == Err(Panic(Raised(Wrapped("unable to allocate memory", allocator.value(Wrap32(newSize)).error)))))
      && (r.Ok? <==> allocator.Some? && allocator.value(Wrap32(newSize)).Ok? && allocator.value(Wrap32(newSize)).value.Int32?)
      && (r.Ok? ==> r.value == Arena(allocator.value(Wrap32(newSize)).value.i32, newSize))
  {
    if size <= arena.free then Ok(arena)
    else
      var newSize := if size < MinArenaSize then MinArenaSize else size;
      match allocator
      case None => Err(Panic(NilFunctionCall))
      case Some(allocate) =>
        match allocate(Wrap32(newSize))
        case Err(e) => Err(Panic(Raised(Wrapped("unable to allocate memory", e))))
        case Ok(Int32(ptr)) => Ok(Arena(ptr, newSize))
        case Ok(_) => Err(Panic(FailedTypeAssertion))
  }

  /** The result of a write, the arena after it and the memory after it. */
  datatype WriteStep = WriteStep(result: Result<int32>, arena: Arena, memory: seq<uint8>)

  /**
   * AscHeap.Write (runtime.go:446-477) as a function of the arena and the
   * memory: reserve, copy at the cursor, advance the cursor by int32(size)
   * and shrink the free count. A cursor outside memory makes the copy's
   * slice expression panic after the allocation has been recorded.
   */
  function WriteOutcome(allocator: Option<Allocator>, arena: Arena, mem: seq<uint8>, bytes: seq<uint8>): WriteStep
  {
    match Reserve(allocator, arena, |bytes|)
    case Err(e) => WriteStep(Err(e), arena, mem)
    case Ok(reserved) =>
      var ptr := reserved.start;
      if ptr < 0 || ptr > |mem| then WriteStep(Err(Panic(SliceBounds(ptr, |mem|))), reserved, mem)
      else
        WriteStep(Ok(ptr), Arena(Wrap32(ptr + Wrap32(|bytes|)), reserved.free - |bytes|), Copied(mem, ptr, bytes))
  }

  /**
   * A write that fits the free region returns the cursor, puts the bytes
   * there, changes no other byte, advances the cursor by the size and
   * shrinks the free count by it; the region stays inside memory.
   */
  lemma InCapacityWrite(allocator: Option<Allocator>, arena: Arena, mem: seq<uint8>, bytes: seq<uint8>)
    requires |mem| <= MaxInt32 && InMemory(arena, |mem|) && |bytes| <= arena.free
    ensures var step := WriteOutcome(allocator, arena, mem, bytes);
      && step.result == Ok(arena.start)
      && step.arena == Arena(arena.start + |bytes|, arena.free - |bytes|)
      && InMemory(step.arena, |mem|)
      && |step.memory| == |mem|
      && step.memory[arena.start..arena.start + |bytes|] == bytes
      && (forall i :: 0 <= i < |mem| && !(arena.start <= i < arena.start + |bytes|) ==> step.memory[i] == mem[i])
  {
    var step := WriteOutcome(allocator, arena, mem, bytes);
    assert step.memory == Copied(mem, arena.start, bytes);
    assert step.memory[arena.start..arena.start + |bytes|] == bytes by {
      forall k | 0 <= k < |bytes|
        ensures step.memory[arena.start..arena.start + |bytes|][k] == bytes[k]
      {
        assert step.memory[arena.start + k] == bytes[k];
      }
    }
  }

  /**
   * A write that does not fit allocates max(size, MIN_ARENA_SIZE) bytes and
   * writes at the start of the new block, whose remaining free count is the
   * block size less the write; an allocator failure leaves arena and memory
   * as they were.
   */
  lemma AllocatingWrite(allocate: Allocator, arena: Arena, mem: seq<uint8>, bytes: seq<uint8>)
    requires |mem| <= MaxInt32 && |bytes| > arena.free
    ensures var newSize := if |bytes| < MinArenaSize then MinArenaSize else |bytes|;
      var step := WriteOutcome(Some(allocate), arena, mem, bytes);
      && (allocate(Wrap32(newSize)).Err? ==>
            step == WriteStep(Err(Panic(Raised(Wrapped("unable to allocate memory", allocate(Wrap32(newSize)).error)))), arena, mem))
      && (var result := allocate(Wrap32(newSize));
          result.Ok? && result.value.Int32? && 0 <= result.value.i32 && result.value.i32 + newSize <= |mem| ==>
            && step.result == Ok(result.value.i32)
            && step.arena == Arena(result.value.i32 + |bytes|, newSize - |bytes|)
            && step.memory[result.value.i32..result.value.i32 + |bytes|] == bytes)
  {
    var newSize := if |bytes| < MinArenaSize then MinArenaSize else |bytes|;
    var result := allocate(Wrap32(newSize));
    if result.Ok? && result.value.Int32? {
      var ptr := result.value.i32;
      if 0 <= ptr && ptr + newSize <= |mem| {
        var block := Arena(ptr, newSize);
        assert Reserve(Some(allocate), arena, |bytes|) == Ok(block);
        assert Reserve(Some(allocate), block, |bytes|) == Ok(block);
        assert WriteOutcome(Some(allocate), arena, mem, bytes) == WriteOutcome(Some(allocate), block, mem, bytes);
        InCapacityWrite(Some(allocate), block, mem, bytes);
      }
    }
  }

  /**
   * Whatever the write, a region inside memory stays inside memory, provided
   * the allocator hands out blocks inside memory.
   */
  lemma WriteKeepsArenaInMemory(allocate: Allocator, arena: Arena, mem: seq<uint8>, bytes: seq<uint8>)
    requires |mem| <= MaxInt32 && InMemory(arena, |mem|) && AllocatesWithin(allocate, |mem|)
    requires |bytes| <= MaxInt32
    ensures InMemory(WriteOutcome(Some(allocate), arena, mem, bytes).arena, |mem|)
  {
    if |bytes| <= arena.free {
      InCapacityWrite(Some(allocate), arena, mem, bytes);
    } else {
      var newSize := if |bytes| < MinArenaSize then MinArenaSize else |bytes|;
      var result := allocate(Wrap32(newSize));
      if result.Ok? && result.value.Int32? {
        assert 0 <= result.value.i32 && result.value.i32 + newSize <= |mem|;
        InCapacityWrite(Some(allocate), Arena(result.value.i32, newSize), mem, bytes);
      }
    }
  }

  /**
   * Two successive writes that both fit occupy adjacent regions: the second
   * starts where the first ends, both byte runs are in memory afterwards and
   * nothing outside them changed.
   */
  lemma SuccessiveWritesAdjacent(allocator: Option<Allocator>, arena: Arena, mem: seq<uint8>, a: seq<uint8>, b: seq<uint8>)
    requires |mem| <= MaxInt32 && InMemory(arena, |mem|) && |a| + |b| <= arena.free
    ensures var first := WriteOutcome(allocator, arena, mem, a);
      var second := WriteOutcome(allocator, first.arena, first.memory, b);
      && first.result == Ok(arena.start)
      && second.result == Ok(arena.start + |a|)
      && second.arena == Arena(arena.start + |a| + |b|, arena.free - |a| - |b|)
      && second.memory[arena.start..arena.start + |a|] == a
      && second.memory[arena.start + |a|..arena.start + |a| + |b|] == b
      && (forall i :: 0 <= i < |mem| && !(arena.start <= i < arena.start + |a| + |b|) ==> second.memory[i] == mem[i])
  {
    var first := WriteOutcome(allocator, arena, mem, a);
    InCapacityWrite(allocator, arena, mem, a);
    InCapacityWrite(allocator, first.arena, first.memory, b);
    var second := WriteOutcome(allocator, first.arena, first.memory, b);
    var p := arena.start;
    assert second.memory[p..p + |a|] == a by {
      forall k | 0 <= k < |a| ensures second.memory[p..p + |a|][k] == a[k] {
        assert second.memory[p + k] == first.memory[p + k];
        assert first.memory[p..p + |a|][k] == a[k];
      }
    }
  }

  /** Go's copy(memory[ptr:], bytes), byte by byte in place. */
  method CopyInto(memory: array<uint8>, ptr: nat, bytes: seq<uint8>)
    requires ptr <= memory.Length
    modifies memory
    ensures memory[..] == Copied(old(memory[..]), ptr, bytes)
  {
    var n := Min(memory.Length - ptr, |bytes|);
    for k := 0 to n
      invariant forall i :: 0 <= i < memory.Length ==>
        memory[i] == if ptr <= i < ptr + k then bytes[i - ptr] else old(memory[i])
    {
      memory[ptr + k] := bytes[k];
    }
  }

  class AscHeap {
    const memory: array<uint8>
    const allocator: Option<Allocator>
    var arenaStartPtr: int32
    var arenaFreeSize: int

    /** The heap Execute builds (runtime.go:371-377): the arena starts as all of memory from address 0. */
    constructor(memory: array<uint8>, allocator: Option<Allocator>)
      ensures this.memory == memory && this.allocator == allocator
      ensures arenaStartPtr == 0 && arenaFreeSize == memory.Length
    {
      this.memory := memory;
      this.allocator := allocator;
      arenaStartPtr := 0;
      arenaFreeSize := memory.Length;
    }

    function State(): Arena
      reads this
    {
      Arena(arenaStartPtr, arenaFreeSize)
    }

    /** The arena lies in a memory that int32 offsets can address. */
    predicate Valid()
      reads this
    {
      memory.Length <= MaxInt32 && InMemory(State(), memory.Length)
    }

    /**
     * Write (runtime.go:446-477): the arena and the memory afterwards are
     * those of WriteOutcome; memory is changed by a copy loop in place. The
     * arena stays valid when the allocator hands out blocks inside memory.
     */
    method Write(bytes: seq<uint8>) returns (r: Result<int32>)
      modifies this, memory
      ensures var step := WriteOutcome(allocator, old(State()), old(memory[..]), bytes);
        r == step.result && State() == step.arena && memory[..] == step.memory
      ensures old(Valid()) && |bytes| <= MaxInt32 && allocator.Some? && AllocatesWithin(allocator.value, memory.Length) ==>
        Valid()
    {
      ghost var before := memory[..];
      ghost var arena := State();
      var size := |bytes|;
      var reserved := Grow(size);
      if reserved.Err? {
        return Err(reserved.error);
      }
      var ptr := arenaStartPtr;
      if ptr < 0 || ptr > memory.Length {
        return Err(Panic(SliceBounds(ptr, memory.Length)));
      }
      CopyInto(memory, ptr, bytes);
      arenaStartPtr := Wrap32(ptr + Wrap32(size));
      arenaFreeSize := arenaFreeSize - size;
      r := Ok(ptr);
      if old(Valid()) && size <= MaxInt32 && allocator.Some? && AllocatesWithin(allocator.value, memory.Length) {
        WriteKeepsArenaInMemory(allocator.value, arena, before, bytes);
      }
    }

    /**
     * The allocation step of Write (runtime.go:447-463) in place: the arena
     * becomes the reserved one, and stays as it was when the reservation fails.
     */
    method Grow(size: nat) returns (r: Result<Arena>)
      modifies this
      ensures r == Reserve(allocator, old(State()), size)
      ensures State() == if r.Ok? then r.value else old(State())
    {
      if size > arenaFreeSize {
        var newSize := if size < MinArenaSize then MinArenaSize else size;
        if allocator.None? {
          return Err(Panic(NilFunctionCall));
        }
        var result := allocator.value(Wrap32(newSize));
        if result.Err? {
          return Err(Panic(Raised(Wrapped("unable to allocate memory", result.error))));
        }
        if !result.value.Int32? {
          return Err(Panic(FailedTypeAssertion));
        }
        arenaStartPtr := result.value.i32;
        arenaFreeSize := newSize;
      }
      r := Ok(State());
    }
  }

  /** Where a staged value landed and the size reported for it. */
  datatype Staged = Staged(ptr: int32, size: int32)

  /** Bytes holding each unit's low then high byte are that unit sequence's bytes. */
  lemma UnitPairs(b: seq<uint8>, units: seq<uint16>)
    requires |b| == 2 * |units|
    requires forall k :: 0 <= k < |units| ==> b[2 * k] == Low(units[k])
    requires forall k :: 0 <= k < |units| ==> b[2 * k + 1] == High(units[k])
    ensures b == UnitBytes(units)
  {
    forall j | 0 <= j < |b| ensures b[j] == UnitBytes(units)[j] {
      var k := j / 2;
      assert j == 2 * k || j == 2 * k + 1;
    }
  }

  /**
   * The buffer AscString.ToPtr fills (runtime.go:486-499), as written: a
   * zeroed buffer of 4 + 2 * len(h) bytes (len counting UTF-8 bytes), the
   * header uint32(len(h)), then each UTF-16 unit low byte first; the bytes
   * past the last unit keep their zeros.
   */
  method StringBuffer(h: string) returns (bytes: array<uint8>)
    ensures fresh(bytes) && bytes[..] == StringLayoutAsWritten(h)
  {
    var units := Utf16.Encode(h);
    var n := Utf16.Utf8Length(h);
    Utf16.Utf16NoLongerThanUtf8(h);
    var size := 4 + n * 2;
    bytes := new uint8[size](_ => 0);
    ghost var zeroed := bytes[..];
    assert zeroed[4 + 2 * |units|..] == Zeros(size - 4 - 2 * |units|);
    PutHeader(bytes, PutUint32(n % 0x1_0000_0000));
    PutUnits(bytes, units);
    PaddedLayout(bytes[..], h);
  }

  /** encoding.PutUint32 into the first four bytes of a buffer; the rest is untouched. */
  method PutHeader(bytes: array<uint8>, header: seq<uint8>)
    requires |header| == 4 <= bytes.Length
    modifies bytes
    ensures bytes[..4] == header && bytes[4..] == old(bytes[4..])
  {
    bytes[0], bytes[1], bytes[2], bytes[3] := header[0], header[1], header[2], header[3];
  }

  /** A buffer holding the as-written header, the units and then zeros is the as-written layout. */
  lemma PaddedLayout(b: seq<uint8>, h: string)
    requires |b| == 4 + 2 * Utf16.Utf8Length(h) && 2 * |Utf16.Encode(h)| <= 2 * Utf16.Utf8Length(h)
    requires b[..4] == PutUint32(Utf16.Utf8Length(h) % 0x1_0000_0000)
    requires b[4..4 + 2 * |Utf16.Encode(h)|] == UnitBytes(Utf16.Encode(h))
    requires b[4 + 2 * |Utf16.Encode(h)|..] == Zeros(2 * (Utf16.Utf8Length(h) - |Utf16.Encode(h)|))
    ensures b == StringLayoutAsWritten(h)
  {
    var u := 4 + 2 * |Utf16.Encode(h)|;
    assert b == b[..4] + b[4..u] + b[u..];
  }

  /**
   * The loop of AscString.ToPtr (runtime.go:493-498): unit i at bytes 4 + 2i
   * and 4 + 2i + 1; the header and the bytes after the last unit are untouched.
   */
  method PutUnits(bytes: array<uint8>, units: seq<uint16>)
    requires 4 + 2 * |units| <= bytes.Length
    modifies bytes
    ensures bytes[..4] == old(bytes[..4])
    ensures bytes[4..4 + 2 * |units|] == UnitBytes(units)
    ensures bytes[4 + 2 * |units|..] == old(bytes[4 + 2 * |units|..])
  {
    for i := 0 to |units|
      invariant bytes[..4] == old(bytes[..4])
      invariant bytes[4 + 2 * |units|..] == old(bytes[4 + 2 * |units|..])
      invariant forall k :: 0 <= k < i ==> bytes[4 + 2 * k] == Low(units[k])
      invariant forall k :: 0 <= k < i ==> bytes[4 + 2 * k + 1] == High(units[k])
    {
      bytes[4 + 2 * i] := Low(units[i]);
      bytes[4 + 2 * i + 1] := High(units[i]);
    }
    UnitPairs(bytes[4..4 + 2 * |units|], units);
  }

  /**
   * AscString.ToPtr (runtime.go:485-502) as written: the buffer written to
   * the heap, and int32 of its length as the size. Staged where it fits, the
   * string reads back followed by one NUL per UTF-8 byte beyond its UTF-16
   * units, and so reads back unchanged exactly when it is ASCII.
   */
  method StringToPtr(heap: AscHeap, h: string) returns (r: Result<Staged>)
    modifies heap, heap.memory
    ensures var step := WriteOutcome(heap.allocator, old(heap.State()), old(heap.memory[..]), StringLayoutAsWritten(h));
      && heap.State() == step.arena && heap.memory[..] == step.memory
      && r == (if step.result.Ok? then Ok(Staged(step.result.value, Wrap32(|StringLayoutAsWritten(h)|))) else Err(step.result.error))
    ensures (old(heap.Valid()) && |StringLayoutAsWritten(h)| <= old(heap.arenaFreeSize) &&
             old(heap.arenaStartPtr) + |StringLayoutAsWritten(h)| < heap.memory.Length) ==>
      && r.Ok?
      && StringAt(heap.memory[..], r.value.ptr) == Ok(h + seq(Utf16.Utf8Length(h) - |Utf16.Encode(h)|, _ => 0 as char))
      && (StringAt(heap.memory[..], r.value.ptr) == Ok(h) <==> Utf16.IsAscii(h))
  {
    var bytes := StringBuffer(h);
    ghost var arena := heap.State();
    ghost var before := heap.memory[..];
    var written := heap.Write(bytes[..]);
    if written.Ok? {
      r := Ok(Staged(written.value, Wrap32(bytes.Length)));
    } else {
      r := Err(written.error);
    }
    if old(heap.Valid()) && |StringLayoutAsWritten(h)| <= arena.free && arena.start + |StringLayoutAsWritten(h)| < heap.memory.Length {
      InCapacityWrite(heap.allocator, arena, before, StringLayoutAsWritten(h));
      AsWrittenDecodesWithTrailingNuls(heap.memory[..], arena.start, h);
    }
  }

  /** The buffer AscBytes.ToPtr fills (runtime.go:507-515): uint32(len(h)), then the bytes. */
  method BytesBuffer(h: seq<uint8>) returns (bytes: array<uint8>)
    ensures fresh(bytes) && bytes[..] == BytesLayout(h)
  {
    var size := 4 + |h|;
    bytes := new uint8[size];
    var header := PutUint32(|h| % 0x1_0000_0000);
    bytes[0], bytes[1], bytes[2], bytes[3] := header[0], header[1], header[2], header[3];
    for i := 0 to |h|
      invariant bytes[..4] == header
      invariant forall j :: 0 <= j < i ==> bytes[4 + j] == h[j]
    {
      bytes[4 + i] := h[i];
    }
    assert bytes[4..] == h;
    assert bytes[..] == bytes[..4] + bytes[4..];
  }

  /** AscBytes.ToPtr (runtime.go:506-520): the buffer written to the heap, and int32(4 + len(h)). */
  method BytesToPtr(heap: AscHeap, h: seq<uint8>) returns (r: Result<Staged>)
    modifies heap, heap.memory
    ensures var step := WriteOutcome(heap.allocator, old(heap.State()), old(heap.memory[..]), BytesLayout(h));
      && heap.State() == step.arena && heap.memory[..] == step.memory
      && r == (if step.result.Ok? then Ok(Staged(step.result.value, Wrap32(4 + |h|))) else Err(step.result.error))
  {
    var bytes := BytesBuffer(h);
    var written := heap.Write(bytes[..]);
    if written.Ok? {
      r := Ok(Staged(written.value, Wrap32(bytes.Length)));
    } else {
      r := Err(written.error);
    }
  }
}
