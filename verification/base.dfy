/**
 * Machine integer types, the error values of the runtime and the Go values
 * that cross the host/guest boundary.
 */
module Base {

  type uint8 = x: int | 0 <= x < 0x100
  type uint16 = x: int | 0 <= x < 0x1_0000
  type int8 = x: int | -0x80 <= x < 0x80
  type int16 = x: int | -0x8000 <= x < 0x8000
  type uint32 = x: int | 0 <= x < 0x1_0000_0000
  type int32 = x: int | -0x8000_0000 <= x < 0x8000_0000
  type uint64 = x: int | 0 <= x < 0x1_0000_0000_0000_0000
  type int64 = x: int | -0x8000_0000_0000_0000 <= x < 0x8000_0000_0000_0000

  const MaxInt32: int32 := 0x7FFF_FFFF

  /** Go's int32(x) conversion: keep the low 32 bits, read them as two's complement. */
  function Wrap32(x: int): (r: int32)
    ensures (r - x) % 0x1_0000_0000 == 0
    ensures -0x8000_0000 <= x < 0x8000_0000 ==> r == x
  {
    (x + 0x8000_0000) % 0x1_0000_0000 - 0x8000_0000
  }

  /** A conversion to int32 that gave a non-negative value of a number below 2^32 changed nothing. */
  lemma Wrap32NonNegative(x: int)
    requires 0 <= x < 0x1_0000_0000 && Wrap32(x) >= 0
    ensures Wrap32(x) == x
  {
  }

  /** Go's int64(x) conversion for any integer x. */
  function Wrap64(x: int): (r: int64)
    ensures (r - x) % 0x1_0000_0000_0000_0000 == 0
    ensures -0x8000_0000_0000_0000 <= x < 0x8000_0000_0000_0000 ==> r == x
  {
    (x + 0x8000_0000_0000_0000) % 0x1_0000_0000_0000_0000 - 0x8000_0000_0000_0000
  }

  /** Go's uint32 + uint32, which wraps modulo 2^32. */
  function AddU32(a: uint32, b: uint32): (r: uint32)
    ensures a + b < 0x1_0000_0000 ==> r == a + b
    ensures a + b >= 0x1_0000_0000 ==> r == a + b - 0x1_0000_0000
  {
    (a + b) % 0x1_0000_0000
  }

  /** Why a Go panic unwound: these are turned into error values by the model. */
  datatype PanicReason =
    | SliceBounds(low: int, high: int)          // s[low:high] with high < low
    | IndexOutOfRange(index: int, length: int)  // s[index] with index >= len(s)
    | NegativeMakeLength(length: int)           // make([]T, length) with length < 0
    | NilFunctionCall                           // calling a nil function value
    | NilDereference                            // a method of a nil *wasmer.Memory
    | NotImplemented                            // panic("implement me")
    | UnhandledType(typeName: string)           // panic("unhandled type %T to WASM")
    | FailedTypeAssertion                       // v.(int32) on a value of another type
    | Raised(err: Error)                        // panic(err) of an error value

  datatype Error =
    | NegativeOffset(offset: int)                          // "offset %d must be positive"
    | OffsetOutOfBounds(offset: int, size: int)            // "offset %d out of memory bounds ending at %d"
    | EndOutOfBounds(end: int, size: int)                  // "end %d out of memory bounds ending at %d"
    | Wrapped(context: string, cause: Error)               // fmt.Errorf("<context>: %w", cause)
    | WrappedAt(context: string, index: int, cause: Error) // fmt.Errorf("<context> #%d: %w", index, cause)
    | EngineError(message: string)                         // an error the engine returned
    | UnhandledReturnKind(kind: Kind)                      // "unhandled return kind ..."
    | Aborted(message: string, filename: string, lineNumber: int, columnNumber: int) // *abortError
    | Panic(reason: PanicReason)

  /** Wrap an error with context as fmt.Errorf("%w") does; a panic unwinds past the wrapping. */
  function Context(context: string, e: Error): (r: Error)
    ensures r.Panic? <==> e.Panic?
    ensures !e.Panic? ==> r.Wrapped? && r.cause == e
  {
    if e.Panic? then e else Wrapped(context, e)
  }

  function ContextAt(context: string, index: int, e: Error): (r: Error)
    ensures r.Panic? <==> e.Panic?
    ensures !e.Panic? ==> r.WrappedAt? && r.cause == e && r.index == index
  {
    if e.Panic? then e else WrappedAt(context, index, e)
  }

  datatype Result<+T> = Ok(value: T) | Err(error: Error) {
    predicate IsFailure() { Err? }
    function PropagateFailure<U>(): Result<U>
      requires Err?
    {
      Err(error)
    }
    function Extract(): T
      requires Ok?
    {
      value
    }
  }

  datatype Option<+T> = None | Some(value: T)

  /** The kinds of Go's reflect package that the conversions inspect. */
  datatype Kind =
    | BoolKind | IntKind | Int8Kind | Int16Kind | Int32Kind | Int64Kind
    | UintKind | Uint8Kind | Uint16Kind | Uint32Kind | Uint64Kind
    | Float32Kind | Float64Kind | StringKind | SliceKind(elem: Kind) | OtherKind(name: string)

  /**
   * A Go `interface{}` value of one of the types the runtime handles.
   * Floats are carried as opaque bit patterns; `Int` and `Uint` are Go's
   * 64-bit `int` and `uint`. `AscBytes` and `AscString` are the runtime's
   * own named types that mark a value to be staged in guest memory.
   */
  datatype GoValue =
    | Nil
    | Bool(b: bool)
    | Int8(i8: int8) | Uint8(u8: uint8) | Int16(i16: int16) | Uint16(u16: uint16)
    | Int32(i32: int32) | Uint32(u32: uint32) | Int64(i64: int64) | Uint64(u64: uint64)
    | Int(i: int64) | Uint(u: uint64)
    | Float32(bits32: uint32) | Float64(bits64: uint64)
    | Bytes(bytes: seq<uint8>)
    | Str(s: string)
    | AscBytes(ab: seq<uint8>)
    | AscString(text: string)
    | Other(typeName: string)
}
