/**
 * The environments the host functions read guest memory through
 * (environment.go): the default one, which decodes the AssemblyScript
 * layouts, and the Rust one, which forwards to an inner default environment
 * except for strings. The memory is null until SetMemory installs it, and a
 * read through a null memory panics as Go's nil *wasmer.Memory does.
 */
module Environment {
  import opened Base
  import opened MemoryView
  import opened Codec
  import Utf16

  /** One recorded host call: module, function, parameters and return value. */
  datatype Call = Call(moduleName: string, name: string, params: seq<GoValue>, returnValue: GoValue)

  /** The call recorder the test harnesses install: an append-only log. */
  class CallRecorder {
    var calls: seq<Call>

    constructor()
      ensures calls == []
    {
      calls := [];
    }

    method Record(moduleName: string, name: string, params: seq<GoValue>, returnValue: GoValue)
      modifies this
      ensures calls == old(calls) + [Call(moduleName, name, params, returnValue)]
    {
      calls := calls + [Call(moduleName, name, params, returnValue)];
    }
  }

  /**
   * What a read sees of an environment: whether it is the Rust one, and the
   * memory contents when a memory is installed. The Environment interface's
   * reads, as functions of that.
   */
  datatype MemoryReader = MemoryReader(rust: bool, memory: Option<seq<uint8>>)
  {
    function ReadString(offset: int32, len: int32): Result<string>
    {
      match memory
      case None => Err(Panic(NilDereference))
      case Some(mem) => if rust then RustStringAt(mem, offset, len) else StringAt(mem, offset)
    }

    function ReadBytes(offset: int32): Result<seq<uint8>>
    {
      match memory
      case None => Err(Panic(NilDereference))
      case Some(mem) => BytesAt(mem, offset)
    }

    function ReadI32s(offset: int32): Result<seq<int32>>
    {
      match memory
      case None => Err(Panic(NilDereference))
      case Some(mem) => I32sAt(mem, offset)
    }

    function ReadStrings(offset: int32, len: int32): Result<seq<string>>
    {
      if rust then Err(Panic(NotImplemented))
      else
        match memory
        case None => Err(Panic(NilDereference))
        case Some(mem) => StringsAt(mem, offset)
    }
  }

  class DefaultEnvironment {
    var callRecorder: CallRecorder?
    var memory: array?<uint8>

    constructor(recorder: CallRecorder?)
      ensures callRecorder == recorder && memory == null
    {
      callRecorder := recorder;
      memory := null;
    }

    function Contents(): Option<seq<uint8>>
      reads this, memory
    {
      if memory == null then None else Some(memory[..])
    }

    function Reader(): MemoryReader
      reads this, memory
    {
      MemoryReader(false, Contents())
    }

    /** SetMemory (environment.go:90-92): installs the memory and nothing else. */
    method SetMemory(m: array<uint8>)
      modifies this
      ensures memory == m && callRecorder == old(callRecorder)
    {
      memory := m;
    }

    /**
     * ReadString(offset, _) (environment.go:125-150): the count, the content
     * bytes, then one code unit per two bytes, filled in index order.
     */
    method ReadString(offset: int32, len: int32) returns (r: Result<string>)
      ensures r == Reader().ReadString(offset, len)
    {
      if memory == null {
        return Err(Panic(NilDereference));
      }
      var mem := memory[..];
      var count := ReadI32(mem, offset);
      if count.Err? {
        return Err(Context("read length", count.error));
      }
      var n := count.value;
      var content := Segment(mem, Wrap32(offset + 4), Wrap32(n as int * 2));
      if content.Err? {
        return Err(Context("read content", content.error));
      }
      if n < 0 {
        return Err(Panic(NegativeMakeLength(n)));
      }
      var bytes := content.value;
      Wrap32NonNegative(n as int * 2);
      var characters := new uint16[n](_ => 0);
      var i := 0;
      while i < n
        invariant 0 <= i <= n
        invariant characters[..i] == UnitsOf(bytes)[..i]
      {
        characters[i] := bytes[2 * i] as int + 0x100 * bytes[2 * i + 1] as int;
        i := i + 1;
      }
      assert characters[..] == UnitsOf(bytes);
      r := Ok(Utf16.Decode(characters[..]));
    }

    /** ReadBytes (environment.go:174-194). */
    method ReadBytes(offset: int32) returns (r: Result<seq<uint8>>)
      ensures r == Reader().ReadBytes(offset)
    {
      if memory == null {
        return Err(Panic(NilDereference));
      }
      r := BytesAt(memory[..], offset);
    }

    /** ReadI32s (environment.go:196-225): the elements read into `out` in index order. */
    method ReadI32s(offset: int32) returns (r: Result<seq<int32>>)
      ensures r == Reader().ReadI32s(offset)
    {
      if memory == null {
        return Err(Panic(NilDereference));
      }
      var mem := memory[..];
      var header := ReadI32(mem, offset);
      if header.Err? {
        return Err(Context("read i32 array offset", header.error));
      }
      var arrayOffset := header.value;
      var count := ReadI32(mem, Wrap32(offset + 4));
      if count.Err? {
        return Err(Context("read i32 array length", count.error));
      }
      var length := count.value;
      var field := ReadI64(mem, arrayOffset);
      if field.Err? && field.error.Panic? {
        return Err(field.error);
      }
      if length < 0 {
        return Err(Panic(NegativeMakeLength(length)));
      }
      r := ReadI32Elements(mem, arrayOffset, length);
    }

    /**
     * The element loop of ReadI32s (environment.go:212-222): Go fills a slice
     * of `length` zeros in index order; here the filled prefix is `out`.
     */
    method ReadI32Elements(mem: seq<uint8>, arrayOffset: int32, length: nat) returns (r: Result<seq<int32>>)
      ensures r == ReadEach((k: nat) => I32Element(mem, arrayOffset, k), length)
    {
      var read := (k: nat) => I32Element(mem, arrayOffset, k);
      var out: seq<int32> := [];
      for i := 0 to length
        invariant ReadEach(read, i) == Ok(out)
      {
        var x := ReadI32Element(mem, arrayOffset, i);
        if x.Err? {
          r := Err(x.error);
          ReadEachFails(read, i, length);
          return;
        }
        ReadEachExtend(read, i, out, x.value);
        out := out + [x.value];
      }
      r := Ok(out);
    }

    /** One iteration of that loop: the i32 at element i's offset, an error with its index. */
    method ReadI32Element(mem: seq<uint8>, arrayOffset: int32, i: nat) returns (r: Result<int32>)
      ensures r == I32Element(mem, arrayOffset, i)
    {
      var x := ReadI32(mem, ElementOffset(arrayOffset, i));
      if x.Err? {
        return Err(ContextAt("read i32 array index #%d", i, x.error));
      }
      r := Ok(x.value);
    }

    method ReadStrings(offset: int32, len: int32) returns (r: Result<seq<string>>)
      ensures r == Reader().ReadStrings(offset, len)
    {
      if memory == null {
        return Err(Panic(NilDereference));
      }
      var mem := memory[..];
      var header := ReadI32(mem, offset);
      if header.Err? {
        return Err(Context("read string array offset", header.error));
      }
      var arrayOffset := header.value;
      var count := ReadI32(mem, Wrap32(offset + 4));
      if count.Err? {
        return Err(Context("read string array length", count.error));
      }
      var length := count.value;
      var field := ReadI64(mem, arrayOffset);
      if field.Err? && field.error.Panic? {
        return Err(field.error);
      }
      if length < 0 {
        return Err(Panic(NegativeMakeLength(length)));
      }
      r := ReadStringElements(mem, arrayOffset, length);
    }

    /**
     * The element loop of ReadStrings (environment.go:243-258): each slot,
     * then this environment's ReadString at it, into `out` in index order.
     */
    method ReadStringElements(mem: seq<uint8>, arrayOffset: int32, length: nat) returns (r: Result<seq<string>>)
      requires memory != null && mem == memory[..]
      ensures r == ReadEach((k: nat) => StringElement(mem, arrayOffset, k), length)
    {
      var read := (k: nat) => StringElement(mem, arrayOffset, k);
      var out: seq<string> := [];
      for i := 0 to length
        invariant ReadEach(read, i) == Ok(out)
      {
        var element := ReadStringElement(mem, arrayOffset, i);
        if element.Err? {
          r := Err(element.error);
          ReadEachFails(read, i, length);
          return;
        }
        ReadEachExtend(read, i, out, element.value);
        out := out + [element.value];
      }
      r := Ok(out);
    }

    /** One iteration of that loop: the slot, then ReadString at it, each error with its index. */
    method ReadStringElement(mem: seq<uint8>, arrayOffset: int32, i: nat) returns (r: Result<string>)
      requires memory != null && mem == memory[..]
      ensures r == StringElement(mem, arrayOffset, i)
    {
      var slot := ReadI32(mem, ElementOffset(arrayOffset, i));
      if slot.Err? {
        return Err(ContextAt("read string array index #%d offset", i, slot.error));
      }
      var s := ReadString(slot.value, 0);
      if s.Err? {
        return Err(ContextAt("read string array index #%d", i, s.error));
      }
      r := Ok(s.value);
    }

    /** RecordCall (environment.go:309-313): one call appended when a recorder is set, else nothing. */
    method RecordCall(moduleName: string, name: string, params: seq<GoValue>, returnValue: GoValue)
      modifies callRecorder
      ensures callRecorder != null ==>
        callRecorder.calls == old(callRecorder.calls) + [Call(moduleName, name, params, returnValue)]
    {
      if callRecorder != null {
        callRecorder.Record(moduleName, name, params, returnValue);
      }
    }
  }

  /** RustEnvironment (environment.go:37-85): a default environment inside. */
  class RustEnvironment {
    const d: DefaultEnvironment

    constructor(recorder: CallRecorder?)
      ensures fresh(d) && d.callRecorder == recorder && d.memory == null
    {
      d := new DefaultEnvironment(recorder);
    }

    function Reader(): MemoryReader
      reads d, d.memory
    {
      MemoryReader(true, d.Contents())
    }

    method SetMemory(m: array<uint8>)
      modifies d
      ensures d.memory == m && d.callRecorder == old(d.callRecorder)
    {
      d.SetMemory(m);
    }

    method ReadBytes(offset: int32) returns (r: Result<seq<uint8>>)
      ensures r == d.Reader().ReadBytes(offset)
    {
      r := d.ReadBytes(offset);
    }

    /**
     * ReadString(offset, len) (environment.go:49-68): `len` bytes, then a loop
     * over `len` code units that indexes two bytes per unit and so runs past
     * the slice as soon as len >= 1.
     */
    method ReadString(offset: int32, len: int32) returns (r: Result<string>)
      ensures r == Reader().ReadString(offset, len)
    {
      if d.memory == null {
        return Err(Panic(NilDereference));
      }
      var content := Segment(d.memory[..], offset, len);
      if content.Err? {
        return Err(Context("read content", content.error));
      }
      var bytes := content.value;
      var characters := new uint16[len](_ => 0);
      var i := 0;
      while i < len
        invariant 0 <= 2 * i <= len && 2 * i <= |bytes|
        invariant characters[..i] == UnitsOf(bytes[..2 * i])
      {
        if 2 * i + 1 >= |bytes| {
          return Err(Panic(IndexOutOfRange(2 * i + 1, |bytes|)));
        }
        characters[i] := bytes[2 * i] as int + 0x100 * bytes[2 * i + 1] as int;
        i := i + 1;
      }
      r := Ok(Utf16.Decode(characters[..]));
    }

    method ReadI32s(offset: int32) returns (r: Result<seq<int32>>)
      ensures r == d.Reader().ReadI32s(offset)
    {
      r := d.ReadI32s(offset);
    }

    /** ReadStrings (environment.go:74-77): panics unconditionally. */
    method ReadStrings(offset: int32, len: int32) returns (r: Result<seq<string>>)
      ensures r == Err(Panic(NotImplemented))
    {
      r := Err(Panic(NotImplemented));
    }

    method RecordCall(moduleName: string, name: string, params: seq<GoValue>, returnValue: GoValue)
      modifies d.callRecorder
      ensures d.callRecorder != null ==>
        d.callRecorder.calls == old(d.callRecorder.calls) + [Call(moduleName, name, params, returnValue)]
    {
      d.RecordCall(moduleName, name, params, returnValue);
    }
  }

  /** An Environment value: one of the two implementations. */
  datatype Env = Default(env: DefaultEnvironment) | Rust(rustEnv: RustEnvironment)
  {
    /** The default environment that holds the memory and the recorder. */
    function Inner(): DefaultEnvironment
    {
      if Default? then env else rustEnv.d
    }

    function Reader(): MemoryReader
      reads Inner(), Inner().memory
    {
      MemoryReader(Rust?, Inner().Contents())
    }

    method ReadString(offset: int32, len: int32) returns (r: Result<string>)
      ensures r == Reader().ReadString(offset, len)
    {
      if Default? {
        r := env.ReadString(offset, len);
      } else {
        r := rustEnv.ReadString(offset, len);
      }
    }

    method ReadBytes(offset: int32) returns (r: Result<seq<uint8>>)
      ensures r == Reader().ReadBytes(offset)
    {
      if Default? {
        r := env.ReadBytes(offset);
      } else {
        r := rustEnv.ReadBytes(offset);
      }
    }

    method RecordCall(moduleName: string, name: string, params: seq<GoValue>, returnValue: GoValue)
      modifies Inner().callRecorder
      ensures Inner().callRecorder != null ==>
        Inner().callRecorder.calls == old(Inner().callRecorder.calls) + [Call(moduleName, name, params, returnValue)]
    {
      if Default? {
        env.RecordCall(moduleName, name, params, returnValue);
      } else {
        rustEnv.RecordCall(moduleName, name, params, returnValue);
      }
    }
  }
}
