/**
 * The on-heap layouts of strings, byte arrays and typed arrays, as pure
 * functions of the memory contents. The environment's read methods are proved
 * equal to these functions; the encoders give the bytes the heap stages.
 */
module Codec {
  import opened Base
  import opened MemoryView
  import Utf16

  /** Code unit i of a byte string is bytes[2i] | bytes[2i+1] << 8; a trailing odd byte is ignored. */
  function UnitsOf(bytes: seq<uint8>): (u: seq<uint16>)
    ensures |u| == |bytes| / 2
  {
    seq(|bytes| / 2, i requires 0 <= i < |bytes| / 2 => bytes[2 * i] as int + 0x100 * bytes[2 * i + 1] as int)
  }

  /** The low byte of a code unit, b & 0x00FF. */
  function Low(u: uint16): uint8
  {
    u % 0x100
  }

  /** The high byte of a code unit, (b & 0xFF00) >> 8. */
  function High(u: uint16): uint8
  {
    u / 0x100
  }

  /** Each code unit stored low byte first, then high byte. */
  function UnitBytes(units: seq<uint16>): (b: seq<uint8>)
    ensures |b| == 2 * |units|
  {
    seq(2 * |units|, j requires 0 <= j < 2 * |units| =>
      if j % 2 == 0 then Low(units[j / 2]) else High(units[j / 2]))
  }

  lemma UnitsOfUnitBytes(units: seq<uint16>)
    ensures UnitsOf(UnitBytes(units)) == units
  {
    var b := UnitBytes(units);
    forall i | 0 <= i < |units| ensures UnitsOf(b)[i] == units[i] {
      assert (2 * i) % 2 == 0 && (2 * i) / 2 == i;
      assert (2 * i + 1) % 2 == 1 && (2 * i + 1) / 2 == i;
    }
  }

  /** A block stored at p: any part of it is the same part of memory. */
  lemma SliceWithin(mem: seq<uint8>, p: int, block: seq<uint8>, a: int, b: int)
    requires 0 <= p && p + |block| <= |mem| && mem[p..p + |block|] == block
    requires 0 <= a <= b <= |block|
    ensures mem[p + a..p + b] == block[a..b]
  {
    forall k | 0 <= k < b - a ensures mem[p + a..p + b][k] == block[a..b][k] {
      assert mem[p + a..p + b][k] == mem[p + a + k] == mem[p..p + |block|][a + k];
    }
  }

  /** Zero bytes after the units are the bytes of as many zero units. */
  lemma UnitBytesPadded(units: seq<uint16>, pad: nat)
    ensures UnitBytes(units) + Zeros(2 * pad) == UnitBytes(units + seq(pad, _ => 0))
  {
    var zeros: seq<uint16> := seq(pad, _ => 0);
    var a, b := UnitBytes(units) + Zeros(2 * pad), UnitBytes(units + zeros);
    forall j | 0 <= j < |a| ensures a[j] == b[j] {
      if j >= 2 * |units| {
        assert (units + zeros)[j / 2] == 0;
      }
    }
  }

  function Zeros(n: nat): (z: seq<uint8>)
    ensures |z| == n
  {
    seq(n, _ => 0)
  }

  // ---------------------------------------------------------------------
  // Strings: a u32 count of UTF-16 code units, then the units little-endian.
  // ---------------------------------------------------------------------

  /**
   * ReadString(offset, _) of the default environment (environment.go:125-150,
   * runtime.go:90-115): the count at `offset`, then 2*count bytes at offset+4.
   * The int32 product 2*count wraps as in Go; a negative count that survives
   * the segment read makes `make` panic.
   */
  function StringAt(mem: seq<uint8>, offset: int32): Result<string>
  {
    match ReadI32(mem, offset)
    case Err(e) => Err(Context("read length", e))
    case Ok(count) =>
      match Segment(mem, Wrap32(offset + 4), Wrap32(count as int * 2))
      case Err(e) => Err(Context("read content", e))
      case Ok(bytes) =>
        if count < 0 then Err(Panic(NegativeMakeLength(count)))
        else Ok(Utf16.Decode(UnitsOf(bytes)))
  }

  /**
   * A string decodes exactly when its count is readable and non-negative and
   * its 2*count bytes lie in memory starting strictly inside it; it is then the
   * UTF-16 decoding of those units.
   */
  lemma StringAtSucceeds(mem: seq<uint8>, offset: int32)
    requires |mem| <= MaxInt32
    ensures StringAt(mem, offset).Ok? <==>
      && ReadI32(mem, offset).Ok?
      && var count := ReadI32(mem, offset).value;
         0 <= count && offset + 4 < |mem| && offset + 4 + 2 * count <= |mem|
    ensures StringAt(mem, offset).Ok? ==>
      var count := ReadI32(mem, offset).value;
      StringAt(mem, offset).value == Utf16.Decode(UnitsOf(mem[offset + 4..offset + 4 + 2 * count]))
  {
    if ReadI32(mem, offset).Ok? {
      var count := ReadI32(mem, offset).value;
      if 0 <= count && count as int * 2 < 0x8000_0000 {
        assert Wrap32(count as int * 2) == count * 2;
      } else if count >= 0 {
        assert Wrap32(count as int * 2) < 0;
      }
    }
  }

  /** The string layout, with the count of UTF-16 code units as its header. */
  function StringLayout(h: string): (b: seq<uint8>)
    ensures |b| == 4 + 2 * |Utf16.Encode(h)|
  {
    var units := Utf16.Encode(h);
    PutUint32(|units| % 0x1_0000_0000) + UnitBytes(units)
  }

  /**
   * A string layout whose count is n, stored at p, reads back as the decoding
   * of its 2n content bytes.
   */
  lemma ReadStoredString(mem: seq<uint8>, p: int32, layout: seq<uint8>, n: nat, content: seq<uint8>)
    requires |mem| <= MaxInt32 && 0 <= p && p + |layout| <= |mem| && p + 4 < |mem|
    requires mem[p..p + |layout|] == layout
    requires n < 0x4000_0000 && layout == PutUint32(n) + content && |content| == 2 * n
    ensures StringAt(mem, p) == Ok(Utf16.Decode(UnitsOf(content)))
  {
    SliceWithin(mem, p, layout, 0, 4);
    assert layout[0..4] == PutUint32(n);
    ReadStoredU32(mem, p, n);
    SliceWithin(mem, p, layout, 4, 4 + 2 * n);
    assert layout[4..4 + 2 * n] == content;
    assert Segment(mem, p + 4, 2 * n) == Ok(content);
  }

  /** The corrected layout is the 32-bit unit count followed by the units' bytes. */
  lemma StringShape(h: string)
    requires |Utf16.Encode(h)| < 0x4000_0000
    ensures StringLayout(h) == PutUint32(|Utf16.Encode(h)|) + UnitBytes(Utf16.Encode(h))
  {
    assert |Utf16.Encode(h)| % 0x1_0000_0000 == |Utf16.Encode(h)|;
  }

  /** Decoding a string stored with StringLayout gives the string back, for every string. */
  lemma StringRoundTrip(mem: seq<uint8>, p: int32, h: string)
    requires |mem| <= MaxInt32 && 0 <= p && p + 4 < |mem|
    requires |Utf16.Encode(h)| < 0x4000_0000
    requires p + |StringLayout(h)| <= |mem|
    requires mem[p..p + |StringLayout(h)|] == StringLayout(h)
    ensures StringAt(mem, p) == Ok(h)
  {
    var units := Utf16.Encode(h);
    StringShape(h);
    ReadStoredString(mem, p, StringLayout(h), |units|, UnitBytes(units));
    UnitsOfUnitBytes(units);
    Utf16.DecodeEncode(h);
  }

  /**
   * The layout AscString.ToPtr builds (runtime.go:485-502): the header and the
   * buffer size use len(h), the UTF-8 byte length, while only the UTF-16 units
   * are written; the rest of the zeroed buffer stays zero.
   */
  function StringLayoutAsWritten(h: string): (b: seq<uint8>)
    ensures |b| == 4 + 2 * Utf16.Utf8Length(h)
  {
    var units := Utf16.Encode(h);
    Utf16.Utf16NoLongerThanUtf8(h);
    PutUint32(Utf16.Utf8Length(h) % 0x1_0000_0000) + UnitBytes(units)
      + Zeros(2 * (Utf16.Utf8Length(h) - |units|))
  }

  /** On ASCII text the source's layout is the intended one. */
  lemma AsWrittenAgreesOnAscii(h: string)
    requires Utf16.IsAscii(h)
    ensures StringLayoutAsWritten(h) == StringLayout(h)
  {
    Utf16.AsciiLengths(h);
    assert Zeros(0) == [];
  }

  /** The source's layout is a count of UTF-8 bytes followed by as many units, padded with zero units. */
  lemma AsWrittenShape(h: string)
    requires Utf16.Utf8Length(h) < 0x4000_0000
    ensures Utf16.Utf8Length(h) >= |Utf16.Encode(h)|
    ensures StringLayoutAsWritten(h) == PutUint32(Utf16.Utf8Length(h))
      + UnitBytes(Utf16.Encode(h) + seq(Utf16.Utf8Length(h) - |Utf16.Encode(h)|, _ => 0))
  {
    var n := Utf16.Utf8Length(h);
    var units := Utf16.Encode(h);
    Utf16.Utf16NoLongerThanUtf8(h);
    var pad := n - |units|;
    UnitBytesPadded(units, pad);
    assert n % 0x1_0000_0000 == n;
    var header := PutUint32(n);
    calc {
      StringLayoutAsWritten(h);
      header + UnitBytes(units) + Zeros(2 * pad);
      header + (UnitBytes(units) + Zeros(2 * pad));
      header + UnitBytes(units + seq(pad, _ => 0));
    }
  }

  /** Decoding the source's layout gives h followed by one NUL per surplus UTF-8 byte. */
  lemma AsWrittenStringAt(mem: seq<uint8>, p: int32, h: string)
    requires |mem| <= MaxInt32 && 0 <= p && p + 4 < |mem|
    requires Utf16.Utf8Length(h) < 0x4000_0000
    requires p + |StringLayoutAsWritten(h)| <= |mem|
    requires mem[p..p + |StringLayoutAsWritten(h)|] == StringLayoutAsWritten(h)
    ensures StringAt(mem, p) == Ok(h + seq(Utf16.Utf8Length(h) - |Utf16.Encode(h)|, _ => 0 as char))
  {
    var n := Utf16.Utf8Length(h);
    AsWrittenShape(h);
    var padded := Utf16.Encode(h) + seq(n - |Utf16.Encode(h)|, _ => 0);
    ReadStoredString(mem, p, StringLayoutAsWritten(h), n, UnitBytes(padded));
    PaddedUnitsDecode(h, n - |Utf16.Encode(h)|);
  }

  /**
   * Decoding the source's layout gives h followed by one NUL per surplus UTF-8
   * byte: the round trip holds exactly for ASCII text.
   */
  lemma AsWrittenDecodesWithTrailingNuls(mem: seq<uint8>, p: int32, h: string)
    requires |mem| <= MaxInt32 && 0 <= p && p + 4 < |mem|
    requires Utf16.Utf8Length(h) < 0x4000_0000
    requires p + |StringLayoutAsWritten(h)| <= |mem|
    requires mem[p..p + |StringLayoutAsWritten(h)|] == StringLayoutAsWritten(h)
    ensures StringAt(mem, p) == Ok(h + seq(Utf16.Utf8Length(h) - |Utf16.Encode(h)|, _ => 0 as char))
    ensures StringAt(mem, p) == Ok(h) <==> Utf16.IsAscii(h)
  {
    AsWrittenStringAt(mem, p, h);
    var pad := Utf16.Utf8Length(h) - |Utf16.Encode(h)|;
    if Utf16.IsAscii(h) {
      Utf16.AsciiLengths(h);
      assert h + seq(pad, _ => 0 as char) == h;
    } else {
      Utf16.NonAsciiLengths(h);
      assert |h + seq(pad, _ => 0 as char)| > |h|;
    }
  }

  /**
   * The string "é" (U+00E9): two UTF-8 bytes but one UTF-16 unit. The source
   * writes the count 2 and the bytes E9 00 00 00, which read back as "é"
   * followed by a NUL.
   */
  lemma AsWrittenEAcute(mem: seq<uint8>, p: int32)
    requires |mem| <= MaxInt32 && 0 <= p && p + 8 <= |mem|
    requires mem[p..p + 8] == [2, 0, 0, 0, 0xE9, 0, 0, 0]
    ensures StringLayoutAsWritten("\U{E9}") == [2, 0, 0, 0, 0xE9, 0, 0, 0]
    ensures StringAt(mem, p) == Ok("\U{E9}\U{0}")
  {
    var h := "\U{E9}";
    assert Utf16.Encode(h) == [0xE9] by {
      assert h[1..] == [];
    }
    assert Utf16.Utf8Length(h) == 2 by {
      assert h[1..] == [];
    }
    assert UnitBytes([0xE9]) == [0xE9, 0];
    assert StringLayoutAsWritten(h) == [2, 0, 0, 0, 0xE9, 0, 0, 0];
    AsWrittenDecodesWithTrailingNuls(mem, p, h);
    assert h + seq(1, _ => 0 as char) == "\U{E9}\U{0}";
  }

  /** The units of h followed by zero units decode to h followed by NULs. */
  lemma PaddedUnitsDecode(h: string, pad: nat)
    ensures Utf16.Decode(UnitsOf(UnitBytes(Utf16.Encode(h) + seq(pad, _ => 0)))) == h + seq(pad, _ => 0 as char)
  {
    var zeros: seq<uint16> := seq(pad, _ => 0);
    UnitsOfUnitBytes(Utf16.Encode(h) + zeros);
    Utf16.DecodeEncodeThen(h, zeros);
    Utf16.DecodeZeros(pad);
  }

  /** The length-prefixed byte layout AscBytes.ToPtr builds (runtime.go:506-520). */
  function BytesLayout(h: seq<uint8>): (b: seq<uint8>)
    ensures |b| == 4 + |h|
  {
    PutUint32(|h| % 0x1_0000_0000) + h
  }

  /**
   * Reading the length-prefixed layout back as the guest does: a u32 count,
   * then that many bytes. No host function reads this layout; it is the
   * reference meaning of BytesLayout.
   */
  function LengthPrefixedBytesAt(mem: seq<uint8>, offset: int32): Result<seq<uint8>>
  {
    var n :- ReadU32(mem, offset);
    Segment(mem, Wrap32(offset + 4), Wrap32(n))
  }

  lemma BytesRoundTrip(mem: seq<uint8>, p: int32, h: seq<uint8>)
    requires |mem| <= MaxInt32 && 0 <= p && p + 4 < |mem|
    requires p + |BytesLayout(h)| <= |mem|
    requires mem[p..p + |BytesLayout(h)|] == BytesLayout(h)
    ensures LengthPrefixedBytesAt(mem, p) == Ok(h)
  {
    var layout := BytesLayout(h);
    assert |h| % 0x1_0000_0000 == |h|;
    assert layout == PutUint32(|h|) + h;
    SliceWithin(mem, p, layout, 0, 4);
    assert layout[0..4] == PutUint32(|h|);
    ReadStoredU32(mem, p, |h|);
    SliceWithin(mem, p, layout, 4, 4 + |h|);
    assert layout[4..4 + |h|] == h;
    assert Segment(mem, p + 4, |h|) == Ok(h);
  }

  // ---------------------------------------------------------------------
  // Byte arrays behind a 3-word header (ReadBytes).
  // ---------------------------------------------------------------------

  /**
   * ReadBytes (environment.go:174-194, runtime.go:139-159): u32 words
   * bufferOffset, dataStart and dataSize at offset, offset+4 and offset+8; the
   * data is the dataSize bytes at bufferOffset+dataStart. That sum is a uint32
   * sum, which wraps, and both values are then converted to int32.
   */
  function BytesAt(mem: seq<uint8>, offset: int32): Result<seq<uint8>>
  {
    var arrayOffset :- ReadU32(mem, offset);
    var dataStart :- ReadU32(mem, Wrap32(offset + 4));
    var dataSize :- ReadU32(mem, Wrap32(offset + 8));
    Segment(mem, Wrap32(AddU32(arrayOffset, dataStart)), Wrap32(dataSize))
  }

  /** The 12-byte header that BytesAt reads. */
  function BytesHeader(arrayOffset: uint32, dataStart: uint32, dataSize: uint32): (b: seq<uint8>)
    ensures |b| == 12
  {
    PutUint32(arrayOffset) + PutUint32(dataStart) + PutUint32(dataSize)
  }

  lemma ReadHeader(mem: seq<uint8>, offset: int32, arrayOffset: uint32, dataStart: uint32, dataSize: uint32)
    requires Fits(mem, offset, 12)
    requires mem[offset..offset + 12] == BytesHeader(arrayOffset, dataStart, dataSize)
    ensures ReadU32(mem, offset) == Ok(arrayOffset)
    ensures ReadU32(mem, offset + 4) == Ok(dataStart)
    ensures ReadU32(mem, offset + 8) == Ok(dataSize)
  {
    var header := BytesHeader(arrayOffset, dataStart, dataSize);
    SliceWithin(mem, offset, header, 0, 4);
    SliceWithin(mem, offset, header, 4, 8);
    SliceWithin(mem, offset, header, 8, 12);
    assert header[0..4] == PutUint32(arrayOffset);
    assert header[4..8] == PutUint32(dataStart);
    assert header[8..12] == PutUint32(dataSize);
    ReadStoredU32(mem, offset, arrayOffset);
    ReadStoredU32(mem, offset + 4, dataStart);
    ReadStoredU32(mem, offset + 8, dataSize);
  }

  /**
   * With a header in place whose data region lies in memory, ReadBytes gives
   * exactly that region; a region that does not fit is an error.
   */
  lemma BytesAtHeader(mem: seq<uint8>, offset: int32, arrayOffset: uint32, dataStart: uint32, dataSize: uint32)
    requires |mem| <= MaxInt32
    requires Fits(mem, offset, 12)
    requires mem[offset..offset + 12] == BytesHeader(arrayOffset, dataStart, dataSize)
    requires arrayOffset + dataStart < 0x8000_0000 && dataSize < 0x8000_0000
    ensures var start := arrayOffset + dataStart;
      BytesAt(mem, offset) ==
        if start < |mem| && start + dataSize <= |mem| then Ok(mem[start..start + dataSize])
        else Segment(mem, start, dataSize)
    ensures var start := arrayOffset + dataStart;
      BytesAt(mem, offset).Ok? <==> start < |mem| && start + dataSize <= |mem|
  {
    ReadHeader(mem, offset, arrayOffset, dataStart, dataSize);
  }

  /**
   * A data offset past 2^32 wraps around: a header whose bufferOffset and
   * dataStart sum to 2^32 + k reads the data at k.
   */
  lemma BytesAtWrapsDataOffset(mem: seq<uint8>, offset: int32, arrayOffset: uint32, dataStart: uint32, dataSize: uint32)
    requires Fits(mem, offset, 12)
    requires mem[offset..offset + 12] == BytesHeader(arrayOffset, dataStart, dataSize)
    requires 0x1_0000_0000 <= arrayOffset + dataStart < 0x1_0000_0000 + 0x8000_0000
    requires dataSize < 0x8000_0000
    ensures BytesAt(mem, offset) == Segment(mem, arrayOffset + dataStart - 0x1_0000_0000, dataSize)
  {
    ReadHeader(mem, offset, arrayOffset, dataStart, dataSize);
  }

  // ---------------------------------------------------------------------
  // Reading the elements of an array one after the other.
  // ---------------------------------------------------------------------

  /**
   * The loop `for i := 0; i < n; i++ { out[i], err = read(i); if err != nil
   * { return nil, err } }`: elements in index order, the first failing read
   * ending the whole read with its error.
   */
  function ReadEach<T>(read: nat -> Result<T>, n: nat): Result<seq<T>>
  {
    if n == 0 then Ok([])
    else
      match ReadEach(read, n - 1)
      case Err(e) => Err(e)
      case Ok(xs) =>
        match read(n - 1)
        case Err(e) => Err(e)
        case Ok(x) => Ok(xs + [x])
  }

  /** Reading n elements succeeds exactly when every read does; result i is then read(i). */
  lemma {:induction false} ReadEachOk<T>(read: nat -> Result<T>, n: nat)
    ensures ReadEach(read, n).Ok? <==> forall i: nat :: i < n ==> read(i).Ok?
    ensures ReadEach(read, n).Ok? ==>
      |ReadEach(read, n).value| == n &&
      forall i :: 0 <= i < n ==> read(i) == Ok(ReadEach(read, n).value[i])
  {
    if n > 0 {
      ReadEachOk(read, n - 1);
      var prev := ReadEach(read, n - 1);
      if prev.Ok? && read(n - 1).Ok? {
        var xs := prev.value + [read(n - 1).value];
        assert ReadEach(read, n) == Ok(xs);
        forall i | 0 <= i < n ensures read(i) == Ok(xs[i]) {
          if i < n - 1 {
            assert xs[i] == prev.value[i];
          }
        }
      }
    }
  }

  /** Once the first j reads fail, reading more elements fails the same way. */
  lemma {:induction false} ReadEachStops<T>(read: nat -> Result<T>, j: nat, n: nat)
    requires j <= n && ReadEach(read, j).Err?
    ensures ReadEach(read, n) == ReadEach(read, j)
    decreases n - j
  {
    if j < n {
      ReadEachStops(read, j, n - 1);
    }
  }

  /** One more successful read appends its value. */
  lemma ReadEachExtend<T>(read: nat -> Result<T>, i: nat, xs: seq<T>, x: T)
    requires ReadEach(read, i) == Ok(xs) && read(i) == Ok(x)
    ensures ReadEach(read, i + 1) == Ok(xs + [x])
  {
  }

  /** A failing read after successful ones is the error of the whole read. */
  lemma ReadEachFails<T>(read: nat -> Result<T>, i: nat, n: nat)
    requires i < n && ReadEach(read, i).Ok? && read(i).Err?
    ensures ReadEach(read, n) == Err(read(i).error)
  {
    ReadEachStops(read, i + 1, n);
  }

  /** Otherwise the error is that of the first read that fails. */
  lemma {:induction false} ReadEachFirstError<T>(read: nat -> Result<T>, n: nat, j: nat)
    requires j < n && read(j).Err?
    requires forall i: nat :: i < j ==> read(i).Ok?
    ensures ReadEach(read, n) == Err(read(j).error)
  {
    if j == n - 1 {
      ReadEachOk(read, n - 1);
    } else {
      ReadEachFirstError(read, n - 1, j);
    }
  }

  // ---------------------------------------------------------------------
  // Typed arrays: an i32 pointer and an i32 length; the elements are 4-byte
  // words after an 8-byte field at the pointer.
  // ---------------------------------------------------------------------

  /** Where element i lives: arrayOffset + 8 + 4*i in int32 arithmetic. */
  function ElementOffset(arrayOffset: int32, i: int): (r: int32)
    ensures 0 <= arrayOffset && arrayOffset + 8 + 4 * i < 0x8000_0000 && 0 <= i ==>
      r == arrayOffset + 8 + 4 * i
  {
    Wrap32(Wrap32(arrayOffset + 8) + Wrap32(i * 4))
  }

  /**
   * ReadI32s (environment.go:196-225, runtime.go:161-190). The 8-byte field at
   * arrayOffset is read and its error discarded; only a panic inside that read
   * (a wrapped end) would surface.
   */
  function I32sAt(mem: seq<uint8>, offset: int32): Result<seq<int32>>
  {
    match ReadI32(mem, offset)
    case Err(e) => Err(Context("read i32 array offset", e))
    case Ok(arrayOffset) =>
      match ReadI32(mem, Wrap32(offset + 4))
      case Err(e) => Err(Context("read i32 array length", e))
      case Ok(length) =>
        if ReadI64(mem, arrayOffset).Err? && ReadI64(mem, arrayOffset).error.Panic? then
          Err(ReadI64(mem, arrayOffset).error)
        else if length < 0 then Err(Panic(NegativeMakeLength(length)))
        else ReadEach((i: nat) => I32Element(mem, arrayOffset, i), length)
  }

  /** Element i: the i32 at element i's offset. */
  function I32Element(mem: seq<uint8>, arrayOffset: int32, i: int): Result<int32>
  {
    match ReadI32(mem, ElementOffset(arrayOffset, i))
    case Err(e) => Err(ContextAt("read i32 array index #%d", i, e))
    case Ok(x) => Ok(x)
  }

  // ---------------------------------------------------------------------
  // String arrays: the same header; each element is a pointer to a string.
  // ---------------------------------------------------------------------

  /** ReadStrings(offset, _) of the default environment (environment.go:227-261). */
  function StringsAt(mem: seq<uint8>, offset: int32): Result<seq<string>>
  {
    match ReadI32(mem, offset)
    case Err(e) => Err(Context("read string array offset", e))
    case Ok(arrayOffset) =>
      match ReadI32(mem, Wrap32(offset + 4))
      case Err(e) => Err(Context("read string array length", e))
      case Ok(length) =>
        if ReadI64(mem, arrayOffset).Err? && ReadI64(mem, arrayOffset).error.Panic? then
          Err(ReadI64(mem, arrayOffset).error)
        else if length < 0 then Err(Panic(NegativeMakeLength(length)))
        else ReadEach((i: nat) => StringElement(mem, arrayOffset, i), length)
  }

  /** String i: read its pointer at element i's offset, then decode the string there. */
  function StringElement(mem: seq<uint8>, arrayOffset: int32, i: int): Result<string>
  {
    match ReadI32(mem, ElementOffset(arrayOffset, i))
    case Err(e) => Err(ContextAt("read string array index #%d offset", i, e))
    case Ok(stringOffset) =>
      match StringAt(mem, stringOffset)
      case Err(e) => Err(ContextAt("read string array index #%d", i, e))
      case Ok(s) => Ok(s)
  }

  /**
   * What ReadI32s returns once its header reads: unless the discarded read of
   * the 8-byte field panics, it succeeds exactly when the length is
   * non-negative and every element reads, and then element i is the i32 at
   * element i's offset.
   */
  lemma I32sAtElements(mem: seq<uint8>, offset: int32)
    requires ReadI32(mem, offset).Ok? && ReadI32(mem, Wrap32(offset + 4)).Ok?
    ensures var arrayOffset := ReadI32(mem, offset).value;
      var field := ReadI64(mem, arrayOffset);
      field.Err? && field.error.Panic? ==> I32sAt(mem, offset) == Err(field.error)
    ensures var arrayOffset := ReadI32(mem, offset).value;
      var length := ReadI32(mem, Wrap32(offset + 4)).value;
      var field := ReadI64(mem, arrayOffset);
      var r := I32sAt(mem, offset);
      (field.Ok? || !field.error.Panic?) ==>
        && (r.Ok? <==> 0 <= length && forall i :: 0 <= i < length ==> ReadI32(mem, ElementOffset(arrayOffset, i)).Ok?)
        && (r.Ok? ==>
              && |r.value| == length
              && forall i :: 0 <= i < length ==> r.value[i] == ReadI32(mem, ElementOffset(arrayOffset, i)).value)
  {
    var arrayOffset := ReadI32(mem, offset).value;
    var length := ReadI32(mem, Wrap32(offset + 4)).value;
    var field := ReadI64(mem, arrayOffset);
    if (field.Ok? || !field.error.Panic?) && 0 <= length {
      var read := (k: nat) => I32Element(mem, arrayOffset, k);
      assert I32sAt(mem, offset) == ReadEach(read, length);
      ReadEachOk(read, length);
      forall i | 0 <= i < length
        ensures read(i).Ok? <==> ReadI32(mem, ElementOffset(arrayOffset, i)).Ok?
      {
      }
      var r := I32sAt(mem, offset);
      if r.Ok? {
        forall i | 0 <= i < length
          ensures r.value[i] == ReadI32(mem, ElementOffset(arrayOffset, i)).value
        {
          assert read(i) == Ok(r.value[i]);
        }
      }
    }
  }

  /**
   * What ReadStrings returns once its header reads: unless the discarded
   * read of the 8-byte field panics, it succeeds exactly when the length is
   * non-negative and every slot and the string it points to read, and then
   * element i is the string at slot i's pointer.
   */
  lemma StringsAtElements(mem: seq<uint8>, offset: int32)
    requires ReadI32(mem, offset).Ok? && ReadI32(mem, Wrap32(offset + 4)).Ok?
    ensures var arrayOffset := ReadI32(mem, offset).value;
      var field := ReadI64(mem, arrayOffset);
      field.Err? && field.error.Panic? ==> StringsAt(mem, offset) == Err(field.error)
    ensures var arrayOffset := ReadI32(mem, offset).value;
      var length := ReadI32(mem, Wrap32(offset + 4)).value;
      var field := ReadI64(mem, arrayOffset);
      var r := StringsAt(mem, offset);
      (field.Ok? || !field.error.Panic?) ==>
        && (r.Ok? <==> 0 <= length && forall i :: 0 <= i < length ==>
              var slot := ReadI32(mem, ElementOffset(arrayOffset, i));
              slot.Ok? && StringAt(mem, slot.value).Ok?)
        && (r.Ok? ==>
              && |r.value| == length
              && forall i :: 0 <= i < length ==>
                   r.value[i] == StringAt(mem, ReadI32(mem, ElementOffset(arrayOffset, i)).value).value)
  {
    var arrayOffset := ReadI32(mem, offset).value;
    var length := ReadI32(mem, Wrap32(offset + 4)).value;
    var field := ReadI64(mem, arrayOffset);
    if (field.Ok? || !field.error.Panic?) && 0 <= length {
      var read := (k: nat) => StringElement(mem, arrayOffset, k);
      var r := StringsAt(mem, offset);
      assert r == ReadEach(read, length);
      ReadEachOk(read, length);
      forall i | 0 <= i < length
        ensures read(i).Ok? <==>
          var slot := ReadI32(mem, ElementOffset(arrayOffset, i));
          slot.Ok? && StringAt(mem, slot.value).Ok?
      {
        StringElementReads(mem, arrayOffset, i);
      }
      if r.Ok? {
        forall i | 0 <= i < length
          ensures r.value[i] == StringAt(mem, ReadI32(mem, ElementOffset(arrayOffset, i)).value).value
        {
          assert read(i) == Ok(r.value[i]);
          StringElementReads(mem, arrayOffset, i);
        }
      }
    }
  }

  /** String i reads when its slot and the string the slot points to read, and is that string. */
  lemma StringElementReads(mem: seq<uint8>, arrayOffset: int32, i: int)
    ensures var slot := ReadI32(mem, ElementOffset(arrayOffset, i));
      && (StringElement(mem, arrayOffset, i).Ok? <==> slot.Ok? && StringAt(mem, slot.value).Ok?)
      && (StringElement(mem, arrayOffset, i).Ok? ==>
            StringElement(mem, arrayOffset, i).value == StringAt(mem, slot.value).value)
  {
  }

  // ---------------------------------------------------------------------
  // The explicit-length reader of RustEnvironment.
  // ---------------------------------------------------------------------

  /**
   * RustEnvironment.ReadString(offset, len) (environment.go:49-68): it fetches
   * only `len` bytes but its loop reads bytes[2i] and bytes[2i+1] for i < len,
   * so for any len >= 1 the loop indexes past the slice, first at
   * 2*(len/2)+1, and panics.
   */
  function RustStringAt(mem: seq<uint8>, offset: int32, len: int32): Result<string>
  {
    match Segment(mem, offset, len)
    case Err(e) => Err(Context("read content", e))
    case Ok(bytes) =>
      if len == 0 then Ok(Utf16.Decode([]))
      else Err(Panic(IndexOutOfRange(2 * (len / 2) + 1, len)))
  }

  /** The explicit-length reader succeeds only for the empty string. */
  lemma RustStringOnlyEmpty(mem: seq<uint8>, offset: int32, len: int32)
    ensures RustStringAt(mem, offset, len).Ok? <==> len == 0 && 0 <= offset < |mem|
    ensures RustStringAt(mem, offset, len).Ok? ==> RustStringAt(mem, offset, len).value == ""
  {
  }
}
