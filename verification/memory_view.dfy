/**
 * The bounds-checked view over guest linear memory (runtime.go:59-88 and
 * 228-272, environment.go:94-123 and 263-307). `mem` is the live contents of
 * the memory buffer at the time of the read; every read is a pure function of
 * it, so no read changes memory.
 */
module MemoryView {
  import opened Base

  /**
   * The bytes [offset, offset + length) lie in memory and their end is below
   * 2^31, so that the int32 sum offset + length does not wrap.
   */
  predicate Fits(mem: seq<uint8>, offset: int, length: int)
  {
    0 <= offset && 0 <= length && offset + length <= |mem| && offset + length <= MaxInt32
  }

  /**
   * segment(offset, length): the `length` bytes at `offset`. The three checks
   * are the source's. The end is an int32 sum and wraps; a negative length, or
   * an end that wrapped below the offset, passes the checks and then makes the
   * slice expression panic.
   */
  function Segment(mem: seq<uint8>, offset: int32, length: int32): (r: Result<seq<uint8>>)
    ensures r.Ok? <==> offset < |mem| && Fits(mem, offset, length)
    ensures r.Ok? ==> |r.value| == length && r.value == mem[offset..offset + length]
    ensures offset < 0 ==> r == Err(NegativeOffset(offset))
    ensures 0 <= offset && |mem| <= offset ==> r == Err(OffsetOutOfBounds(offset, |mem|))
    ensures 0 <= offset < |mem| && 0 <= length && |mem| < offset + length <= MaxInt32 ==>
      r == Err(EndOutOfBounds(offset + length, |mem|))
  {
    if offset < 0 then Err(NegativeOffset(offset))
    else if offset >= |mem| then Err(OffsetOutOfBounds(offset, |mem|))
    else
      var end := Wrap32(offset + length);
      if end > |mem| then Err(EndOutOfBounds(end, |mem|))
      else if end < offset then Err(Panic(SliceBounds(offset, end)))
      else Ok(mem[offset..end])
  }

  /** dataAt(offset): the suffix of memory from `offset`; `offset == len(mem)` gives the empty suffix. */
  function DataAt(mem: seq<uint8>, offset: int32): (r: Result<seq<uint8>>)
    ensures r.Ok? <==> 0 <= offset <= |mem|
    ensures r.Ok? ==> |r.value| == |mem| - offset && mem == mem[..offset] + r.value
    ensures offset == |mem| ==> r == Ok([])
  {
    if offset < 0 then Err(NegativeOffset(offset))
    else if offset > |mem| then Err(OffsetOutOfBounds(offset, |mem|))
    else Ok(mem[offset..])
  }

  /** encoding/binary's LittleEndian.Uint32. */
  function LeUint32(b: seq<uint8>): uint32
    requires |b| == 4
  {
    b[0] as int + b[1] as int * 0x100 + b[2] as int * 0x1_0000 + b[3] as int * 0x100_0000
  }

  /** encoding/binary's LittleEndian.Uint64. */
  function LeUint64(b: seq<uint8>): uint64
    requires |b| == 8
  {
    LeUint32(b[..4]) + LeUint32(b[4..]) * 0x1_0000_0000
  }

  /** encoding/binary's LittleEndian.PutUint32 into a fresh 4-byte buffer. */
  function PutUint32(n: uint32): (b: seq<uint8>)
    ensures |b| == 4
  {
    [n % 0x100, n / 0x100 % 0x100, n / 0x1_0000 % 0x100, n / 0x100_0000]
  }

  lemma MulAtLeast(k: int, d: int)
    requires 1 <= k && 0 < d
    ensures k * d >= d
  {
  }

  /** Euclidean division is unique: a quotient and remainder in range are x / d and x % d. */
  lemma DivMod(x: int, d: int, q: int, r: int)
    requires 0 < d && 0 <= r < d && x == q * d + r
    ensures x / d == q && x % d == r
  {
    var q', r' := x / d, x % d;
    assert q' * d + r' == x;
    if q' < q {
      assert (q - q') * d == r' - r;
      MulAtLeast(q - q', d);
    } else if q < q' {
      assert (q' - q) * d == r - r';
      MulAtLeast(q' - q, d);
    }
  }

  /** Reading back what PutUint32 wrote gives the number, and every 4 bytes are some number's encoding. */
  lemma LittleEndianRoundTrip(n: uint32, b: seq<uint8>)
    requires |b| == 4
    ensures LeUint32(PutUint32(n)) == n
    ensures PutUint32(LeUint32(b)) == b
  {
    var m := LeUint32(b);
    var b0, b1, b2, b3 := b[0] as int, b[1] as int, b[2] as int, b[3] as int;
    DivMod(m, 0x100, b1 + b2 * 0x100 + b3 * 0x1_0000, b0);
    DivMod(m / 0x100, 0x100, b2 + b3 * 0x100, b1);
    DivMod(m, 0x1_0000, b2 + b3 * 0x100, b0 + b1 * 0x100);
    DivMod(m / 0x1_0000, 0x100, b3, b2);
    DivMod(m, 0x100_0000, b3, b0 + b1 * 0x100 + b2 * 0x1_0000);
    assert PutUint32(m) == [b0, b1, b2, b3];
    var c0, c1, c2, c3 := n % 0x100, n / 0x100 % 0x100, n / 0x1_0000 % 0x100, n / 0x100_0000;
    DivMod(n, 0x100_0000, c3, n % 0x100_0000);
    DivMod(n % 0x100_0000, 0x1_0000, c2, n % 0x1_0000);
    assert LeUint32(PutUint32(n)) == c0 + c1 * 0x100 + c2 * 0x1_0000 + c3 * 0x100_0000;
  }

  /** readU32: the little-endian u32 at `offset`. */
  function ReadU32(mem: seq<uint8>, offset: int32): (r: Result<uint32>)
    ensures r.Ok? <==> Fits(mem, offset, 4)
    ensures r.Ok? ==> r.value == LeUint32(mem[offset..offset + 4])
    ensures r.Err? ==> r.error == Segment(mem, offset, 4).error
  {
    var bytes :- Segment(mem, offset, 4);
    Ok(LeUint32(bytes))
  }

  /** readI32: int32(LittleEndian.Uint32(segment(offset, 4))), the two's-complement reading of readU32. */
  function ReadI32(mem: seq<uint8>, offset: int32): (r: Result<int32>)
    ensures r.Ok? <==> ReadU32(mem, offset).Ok?
    ensures r.Err? ==> r.error == ReadU32(mem, offset).error
    ensures r.Ok? ==>
      var u := ReadU32(mem, offset).value;
      r.value == if u < 0x8000_0000 then u else u - 0x1_0000_0000
  {
    var u :- ReadU32(mem, offset);
    Ok(Wrap32(u))
  }

  /** readI64: int64(LittleEndian.Uint64(segment(offset, 8))). */
  function ReadI64(mem: seq<uint8>, offset: int32): (r: Result<int64>)
    ensures r.Ok? <==> Fits(mem, offset, 8)
    ensures r.Ok? ==> r.value == Wrap64(LeUint64(mem[offset..offset + 8]))
    ensures r.Err? ==> r.error == Segment(mem, offset, 8).error
  {
    var bytes :- Segment(mem, offset, 8);
    Ok(Wrap64(LeUint64(bytes)))
  }

  /** A u32 stored little-endian at `offset` reads back as itself. */
  lemma ReadStoredU32(mem: seq<uint8>, offset: int32, n: uint32)
    requires Fits(mem, offset, 4)
    requires mem[offset..offset + 4] == PutUint32(n)
    ensures ReadU32(mem, offset) == Ok(n)
    ensures n < 0x8000_0000 ==> ReadI32(mem, offset) == Ok(n)
  {
    LittleEndianRoundTrip(n, PutUint32(n));
  }
}
