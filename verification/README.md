# Value marshalling of the Go WebAssembly runner

This project models the host side of a Go runner that executes
WebAssembly guests (AssemblyScript and Rust) through wasmer, and proves
properties of that model. Values cross the boundary between host and guest
in three ways:

- **Environments** (`environment.go`) read guest linear memory.
  - The default environment decodes the AssemblyScript layouts:
    - a string is a 32-bit unit count followed by UTF-16LE code units;
    - a byte array is a 12-byte header (array offset, data start, data size) pointing at its data;
    - an i32 or string array is an array pointer and a length, with 4-byte elements after an 8-byte field.
  - The Rust environment forwards to an inner default environment, except for strings.
- **The heap** (`AscHeap`, `runtime.go`) is a bump arena in guest memory.
  - Host values are written into it, and it asks the guest's allocator for a new arena when the free space runs out.
  - `toWASMValue` and `toWASMParameters` turn Go parameters into wasm words, staging strings and byte slices in the arena.
  - `toGoValue` turns a result back into a Go value.
- **Host functions** (`intrinsics.go`): `newImports` groups the `functions` table by module into one namespace per module.
  - The `index` namespace is seeded with fixed stubs.
  - The handlers are `env.abort`, `index.typeConversion.bytesToHex`, `index.log.log` and `env.println`.
  - `env.abort` produces the `abortError`, whose rendering is modelled and shown to be readable back.

Go panics become an `Error.Panic(reason)` result. Error wrapping (`fmt.Errorf` with `%w`) becomes
`Context`/`ContextAt`, which never wraps a panic, since a panic unwinds past the
error handling. Go's integer conversions that can wrap (`int32(...)`,
`int64(uint64)`, `uint32` sums) are written out as `Wrap32`, `Wrap64` and `AddU32`.

Where a Go operation updates state, the model is imperative:

- `AscHeap` is a class over an `array<uint8>` memory;
- the environments are classes whose memory `SetMemory` installs;
- the call recorder is a class whose log grows;
- the loops that decode strings and arrays and that stage parameters are `while`/`for` loops.

Each method is proved equal to a pure function: `WriteOutcome`, `StageAll`, `StringAt`, `ReadEach`,
`Namespace` or `Outcome`. The lemmas state the properties of those functions:

- round trips (a staged byte slice reads back as itself; a staged string reads back followed by NULs, and as itself exactly when it is ASCII);
- the error paths;
- adjacency of successive writes;
- which names a namespace holds;
- that every import returns values of its declared result kinds.

Files: `base.dfy` (integers, errors, Go values), `utf16.dfy`, `memory_view.dfy`
(bounds-checked segments and little-endian words), `codec.dfy` (the memory
layouts), `environment.dfy`, `heap.dfy`, `conversion.dfy`, `abort.dfy`,
`imports.dfy`.

## Model

| member | source | states |
|---|---|---|
| Base.Wrap32 | runtime.go:588-593 | Go's `int32(x)`: congruent to x modulo 2^32, and x itself when x fits in 32 bits |
| Base.Wrap64 | environment.go:293-307 | Go's `int64(uint64)`: congruent modulo 2^64, identity when the value fits |
| Base.AddU32 | environment.go:193 | the sum of two uint32 wraps modulo 2^32 exactly when it reaches 2^32 |
| Base.Context | environment.go:128-131 | `fmt.Errorf("...: %w")`: the cause is kept inside the wrapper; a panic is not wrapped and stays a panic |
| Base.ContextAt | environment.go:218-221 | the same for the indexed messages ("index #%d"), keeping the index |
| Base.Wrap32NonNegative | environment.go:134 | a doubled count below 2^32 whose int32 conversion is non-negative converts to itself |
| Utf16.EncodeRune | runtime.go:493 | a character below U+10000 is one unit equal to it; any other is a high surrogate followed by a low surrogate |
| Utf16.Encode | runtime.go:493 | `utf16.Encode([]rune(h))` yields at least one unit per character |
| Utf16.Decode | environment.go:149 | `utf16.Decode` yields at most one character per unit |
| Utf16.DecodeRune | environment.go:149 | decoding one character's units followed by anything yields that character, then the decoding of the rest |
| Utf16.DecodeEncodeThen | environment.go:149 | decoding the encoding of s followed by any units yields s followed by the decoding of those units |
| Utf16.DecodeEncode | environment.go:149 | decoding the encoding of any string gives the string back |
| Utf16.DecodeZeros | environment.go:149 | zero units decode to NUL characters, one each |
| Utf16.Utf8RuneLength | runtime.go:487 | a character takes 1 to 4 UTF-8 bytes, and 1 exactly when it is ASCII |
| Utf16.Utf16NoLongerThanUtf8 | runtime.go:487-493 | a string never has more UTF-16 units than UTF-8 bytes (`len(h)`) |
| Utf16.AsciiLengths | runtime.go:487-493 | an ASCII string has as many units as bytes as characters, each unit the character's code |
| Utf16.NonAsciiLengths | runtime.go:487-493 | a string with a non-ASCII character has strictly fewer UTF-16 units than UTF-8 bytes |
| MemoryView.Segment | environment.go:107-123 | `segment` succeeds iff the offset is inside memory and the range fits, returning exactly that range; a negative offset, an offset past the end and a range past the end give their distinct errors |
| MemoryView.DataAt | environment.go:94-105 | `dataAt` succeeds iff 0 <= offset <= len(memory), returning the rest of the memory from the offset |
| MemoryView.LittleEndianRoundTrip | environment.go:279-291 | `PutUint32` and `LittleEndian.Uint32` are inverse on 32-bit values and on 4-byte words |
| MemoryView.ReadU32 | environment.go:279-291 | `readU32` succeeds iff four bytes fit at the offset, and then is their little-endian value; otherwise the segment's error |
| MemoryView.ReadI32 | environment.go:263-277 | `readI32` succeeds exactly when `readU32` does, with the two's-complement reading of the word and the same error |
| MemoryView.ReadI64 | environment.go:293-307 | `readI64` succeeds iff eight bytes fit, and then is their little-endian value converted to int64 |
| MemoryView.ReadStoredU32 | environment.go:279-291 | a word written with `PutUint32` at an in-bounds offset reads back as the value written |
| Codec.UnitsOf | environment.go:143-147 | pairing the content bytes into units gives half as many units as bytes |
| Codec.UnitBytes | runtime.go:494-499 | writing units low byte first gives two bytes per unit |
| Codec.UnitsOfUnitBytes | runtime.go:494-499 | reading back the bytes `ToPtr` writes for some units gives those units (the inverse of environment.go:143-147) |
| Codec.UnitBytesPadded | runtime.go:487-499 | zero bytes after the units are the bytes of zero units |
| Codec.StringAtSucceeds | environment.go:125-150 | `ReadString` succeeds iff the count reads, is non-negative, and the 2*count content bytes fit after the header; then it is the UTF-16 decoding of those bytes |
| Codec.StringLayout | runtime.go:485-502 | the corrected string layout is 4 header bytes plus two bytes per UTF-16 unit |
| Codec.ReadStoredString | environment.go:125-150 | a header holding n followed by 2n content bytes at p reads back as the decoding of that content |
| Codec.StringShape | runtime.go:485-502 | the corrected layout is the unit count as a little-endian word followed by the units' bytes |
| Codec.StringRoundTrip | runtime.go:485-502 | a string staged with the corrected layout reads back through `ReadString` as the same string |
| Codec.StringLayoutAsWritten | runtime.go:485-502 | as written, the buffer is 4 + 2*len(h) bytes, len(h) being the UTF-8 byte count |
| Codec.AsWrittenAgreesOnAscii | runtime.go:485-502 | for an ASCII string the as-written layout equals the corrected one |
| Codec.AsWrittenShape | runtime.go:485-502 | as written, the header holds len(h) and the units are followed by len(h) minus the unit count zero units |
| Codec.AsWrittenStringAt | runtime.go:485-502 | a string staged as written reads back as itself followed by one NUL per missing unit |
| Codec.AsWrittenDecodesWithTrailingNuls | runtime.go:485-502 | the same, and the read-back equals the original iff the string is ASCII |
| Codec.AsWrittenEAcute | runtime.go:490 | "é" is staged as written as [2,0,0,0,0xE9,0,0,0] and reads back as "é\0" |
| Codec.PaddedUnitsDecode | environment.go:143-149 | a string's units padded with zero units decode to the string followed by as many NULs |
| Codec.BytesLayout | runtime.go:506-520 | the byte-slice buffer is 4 header bytes plus the data |
| Codec.BytesRoundTrip | runtime.go:506-520 | the length-prefixed buffer `AscBytes.ToPtr` writes reads back, as a count followed by that many bytes, as the original slice |
| Codec.BytesHeader | environment.go:174-194 | the 12-byte header that `ReadBytes` reads: array offset, data start, data size |
| Codec.ReadHeader | environment.go:174-188 | the three header words read back as the values laid out |
| Codec.BytesAtHeader | environment.go:174-194 | `ReadBytes` succeeds iff the data range (array offset plus data start, size) lies in memory, and then returns exactly that range; otherwise the segment's error |
| Codec.BytesAtWrapsDataOffset | environment.go:193 | when array offset plus data start reaches 2^32 the uint32 sum wraps, and the data is read at the wrapped offset |
| Codec.ReadEachOk | environment.go:217-222 | the element loop succeeds iff every element reads, and then returns all n elements in index order |
| Codec.ReadEachStops | environment.go:217-222 | once an element fails, later iterations do not change the loop's outcome |
| Codec.ReadEachExtend | environment.go:217-222 | a successful iteration appends its element to the elements read so far |
| Codec.ReadEachFails | environment.go:217-222 | the first failing element's error is the loop's result |
| Codec.ReadEachFirstError | environment.go:217-222 | with every element before j reading and element j failing, the loop returns j's error |
| Codec.ElementOffset | environment.go:214-218 | element i lives at arrayOffset + 8 + 4i whenever that does not wrap int32 |
| Codec.I32sAtElements | environment.go:196-225 | once the header reads, `ReadI32s` returns the field read's panic if that read panics. Otherwise it succeeds iff the length is non-negative and every element reads, and then returns length elements, element i being the i32 at arrayOffset + 8 + 4i |
| Codec.StringsAtElements | environment.go:227-261 | once the header reads, `ReadStrings` returns the field read's panic if that read panics. Otherwise it succeeds iff the length is non-negative and every slot and the string it points to read, and then element i is the string at slot i's pointer |
| Codec.RustStringOnlyEmpty | environment.go:49-68 | the Rust `ReadString` succeeds iff len is 0 and the offset is inside memory, and then gives "" |
| Environment.CallRecorder.constructor | environment.go:26-28 | a fresh recorder holds no calls |
| Environment.CallRecorder.Record | environment.go:26-28 | `Record` appends exactly one call and keeps the earlier ones |
| Environment.DefaultEnvironment.constructor | environment.go:32-35 | a new environment holds the given recorder and no memory |
| Environment.DefaultEnvironment.SetMemory | environment.go:90-92 | installs the memory and leaves the recorder alone |
| Environment.DefaultEnvironment.ReadString | environment.go:125-150 | the loop that fills the code units computes `StringAt` on the memory (a nil memory panics) |
| Environment.DefaultEnvironment.ReadBytes | environment.go:174-194 | computes `BytesAt` on the memory |
| Environment.DefaultEnvironment.ReadI32s | environment.go:196-225 | the header reads, the discarded 8-byte field read and the element loop compute `I32sAt` |
| Environment.DefaultEnvironment.ReadI32Elements | environment.go:214-222 | the element loop computes `ReadEach` of the element reads, stopping at the first error |
| Environment.DefaultEnvironment.ReadI32Element | environment.go:218-221 | one element: the i32 at its offset, or the error tagged with its index |
| Environment.DefaultEnvironment.ReadStrings | environment.go:227-261 | computes `StringsAt` on the memory |
| Environment.DefaultEnvironment.ReadStringElements | environment.go:245-258 | the element loop computes `ReadEach` of the string reads, stopping at the first error |
| Environment.DefaultEnvironment.ReadStringElement | environment.go:249-257 | one element: the slot, then the string it points to, each error tagged with the index |
| Environment.DefaultEnvironment.RecordCall | environment.go:309-313 | with a recorder, exactly one call is appended; without one, nothing happens |
| Environment.RustEnvironment.constructor | environment.go:37-39 | a new Rust environment wraps a fresh default environment with the recorder and no memory |
| Environment.RustEnvironment.SetMemory | environment.go:41-43 | installs the memory in the inner environment |
| Environment.RustEnvironment.ReadBytes | environment.go:45-47 | forwards to the inner environment |
| Environment.RustEnvironment.ReadString | environment.go:49-68 | the Rust decoding loop computes `RustStringAt`: the segment's error, or a panic at the first index past the fetched bytes; the units stored so far are the pairs of bytes read so far |
| Environment.RustEnvironment.ReadI32s | environment.go:70-72 | forwards to the inner environment |
| Environment.RustEnvironment.ReadStrings | environment.go:74-77 | always panics |
| Environment.RustEnvironment.RecordCall | environment.go:83-85 | forwards to the inner environment's recorder |
| Environment.Env.ReadString | environment.go:12-24 | a read through the interface is the implementation's read |
| Environment.Env.ReadBytes | environment.go:12-24 | a read through the interface is the implementation's read |
| Environment.Env.RecordCall | environment.go:12-24 | recording through the interface appends one call to the implementation's recorder |
| Heap.Copied | runtime.go:466-467 | `copy(memoryData[ptr:], bytes)`: memory keeps its length, holds the bytes from ptr on (cut at the end) and is unchanged elsewhere |
| Heap.Reserve | runtime.go:448-463 | the arena is kept when the bytes fit; otherwise the allocator is asked for max(size, 10000) bytes (`MIN_ARENA_SIZE`), a missing allocator panics, an allocator error panics wrapped, and the new arena starts at the returned pointer |
| Heap.InCapacityWrite | runtime.go:446-477 | a write that fits returns the arena start, lays the bytes there, advances the cursor by their length and changes no other byte |
| Heap.AllocatingWrite | runtime.go:448-470 | a write that does not fit either panics with the allocator's error wrapped, or writes at the pointer the allocator returned |
| Heap.WriteKeepsArenaInMemory | runtime.go:446-477 | with an allocator that returns arenas inside memory, the arena stays inside memory after any write |
| Heap.SuccessiveWritesAdjacent | runtime.go:465-470 | two writes that fit land next to each other, the second right after the first, and nothing else changes |
| Heap.CopyInto | runtime.go:466-467 | the copy loop leaves memory equal to `Copied` |
| Heap.AscHeap.constructor | runtime.go:371-377 | the heap starts with its arena at 0 spanning the whole memory |
| Heap.AscHeap.Write | runtime.go:446-477 | the new pointer, arena and memory are those of `WriteOutcome`; with an allocator whose arenas lie inside memory, the arena stays inside memory |
| Heap.AscHeap.Grow | runtime.go:448-463 | the arena becomes `Reserve`'s result, or is unchanged on error |
| Heap.UnitPairs | runtime.go:494-499 | bytes filled pairwise with each unit's low and high byte are `UnitBytes` of the units |
| Heap.StringBuffer | runtime.go:486-499 | the buffer built is exactly the as-written layout: 4 + 2*len(h) zeroed bytes, the header uint32(len(h)), then the UTF-16 units low byte first |
| Heap.PutHeader | runtime.go:490 | `PutUint32` fills the first four bytes with the header and leaves the rest alone |
| Heap.PaddedLayout | runtime.go:486-499 | a buffer of the as-written header, the units' bytes and then zeros is the as-written layout |
| Heap.PutUnits | runtime.go:494-499 | the loop writes the units' bytes after the header and leaves the header and the bytes after the last unit alone |
| Heap.StringToPtr | runtime.go:485-502 | stages the as-written layout with `Write` and returns its pointer and int32(4 + 2*len(h)); when it fits in the arena, the string reads back from the pointer followed by one NUL per UTF-8 byte beyond its unit count, so unchanged exactly when it is ASCII |
| Heap.BytesBuffer | runtime.go:507-515 | the buffer built is exactly the length-prefixed byte layout |
| Heap.BytesToPtr | runtime.go:506-520 | stages the layout with `Write` and returns its pointer and 4+len(h) |
| Conversion.ToWasmValue | runtime.go:564-604 | `toWASMValue` accepts exactly the listed Go types, panicking with the type's name otherwise. A bool becomes 1 or 0; 8-, 16- and 32-bit integers, int and uint become int32 with wrap-around; 64-bit integers and floats pass unchanged; byte slices and strings become heap values |
| Conversion.FlattenAppend | runtime.go:540-562 | the output for two parameter lists is the concatenation of their outputs |
| Conversion.ParameterWords | runtime.go:552-558 | each parameter's word is at its position; with sizes, a pointer is followed by its size |
| Conversion.FlattenWithoutSizes | runtime.go:552-558 | without sizes there is exactly one word per parameter, in order |
| Conversion.AsWrittenAgrees | runtime.go:543-558 | the sentinel test agrees with "is a pointer" whenever no pointer's size is MaxInt32 |
| Conversion.StringSizeNeverSentinel | runtime.go:485-502 | a staged string's size, int32(4 + 2*len(h)), is never MaxInt32 (it is even) |
| Conversion.SentinelDropsBytesSize | runtime.go:554-557 | as written, a byte slice of length MaxInt32 - 4 loses its size word, unlike the corrected flattening |
| Conversion.StagedWordsAgree | runtime.go:541-558 | when no staged layout's int32 size is MaxInt32, the words passed as written are the corrected flattening |
| Conversion.FailureStops | runtime.go:541-546 | once staging a parameter fails, the later parameters change nothing |
| Conversion.StagedShape | runtime.go:541-546 | staging that succeeds gives one entry per parameter: a pointer with its layout's size for strings and byte slices, the converted scalar otherwise |
| Conversion.RejectedParameterFails | runtime.go:542 | any unsupported parameter makes the whole conversion fail |
| Conversion.StageInCapacity | runtime.go:542-546 | a parameter that fits in the arena stages at the arena start and advances the cursor by its size |
| Conversion.StagedAdjacent | runtime.go:541-546 | parameters that fit together are staged back to back: each pointer is the arena start plus the sizes of the parameters before it |
| Conversion.PointersAfterStep | runtime.go:541-546 | the back-to-back placement extends by one parameter |
| Conversion.ToWasmParameters | runtime.go:540-562 | the loop's heap, memory and output are those of staging every parameter then flattening as written (a size word only where the size is not the MaxInt32 sentinel), or staging's error |
| Conversion.StageOne | runtime.go:542-546 | one iteration: converting and staging one parameter, as `StageParameter` |
| Conversion.ToGoValue | runtime.go:401-435 | no type or integer kinds return the value unchanged; other kinds are refused; a non-int32 result for a string or byte slice fails its type assertion; a string or byte-slice result is the environment's read at the returned pointer |
| Conversion.StringResultRoundTrip | runtime.go:425-431 | a string the guest laid out as a unit count and its units comes back from `toGoValue` as that string |
| Conversion.BytesResultRoundTrip | runtime.go:412-420 | a byte array laid out in memory comes back from `toGoValue` as that slice |
| Conversion.ReadFailureWrapped | runtime.go:412-431 | `toGoValue` fails iff the environment's read fails, with the read error wrapped in "read string" or "read bytes" |
| Abort.Digit | runtime.go:24 | a decimal digit character with the digit's value |
| Abort.FormatNat | runtime.go:24 | `%d` of a natural number: digits only, no leading zero |
| Abort.FormatInt | runtime.go:24 | `%d` of an integer: never empty and no colon; a leading minus iff negative |
| Abort.ParseFormatNat | runtime.go:24 | the digits `%d` writes denote the number |
| Abort.ParseFormatInt | runtime.go:24 | reading back a number formatted with `%d` gives the number |
| Abort.Find | runtime.go:24 | the index of the first occurrence of a character, or the text's length when there is none |
| Abort.AbortMessage | runtime.go:23-25 | the rendered abort starts with "wasm execution aborted at " and ends with the message |
| Abort.FindAfter | runtime.go:24 | after a colon-free field, the first colon is the separator the format writes |
| Abort.ParseColumnRendered | runtime.go:24 | the column and message read back from the rendered tail |
| Abort.ParseLineRendered | runtime.go:24 | the line number reads back from the rendered text |
| Abort.ParseRendered | runtime.go:24 | the filename, when it holds no colon, runs up to the first colon after the prefix |
| Abort.AbortMessageRoundTrip | runtime.go:16-25 | when the filename holds no colon, the filename, line, column and message read back from the rendered text |
| Abort.AbortMessageInjective | runtime.go:16-25 | two aborts with colon-free filenames render the same only if they are the same abort |
| Imports.Intrinsics | intrinsics.go:67-69 | an entry carries the parameter and result kinds it is declared with |
| Imports.Alias | intrinsics.go:71-73 | an alias is placed in the given module under the given name |
| Imports.AliasKeepsFunction | intrinsics.go:71-73 | an alias keeps the signature and the body; aliasing back to the old place restores the entry |
| Imports.StubsConform | intrinsics.go:151-197 | every seeded `index` stub returns values of its declared result kinds |
| Imports.Group | intrinsics.go:15-18 | a module's group holds only entries of the table in that module |
| Imports.ModulesSnoc | intrinsics.go:15-18 | appending an entry adds its module to the set of modules |
| Imports.GroupSnoc | intrinsics.go:15-18 | appending an entry appends it to its own module's group and to no other |
| Imports.GroupByModule | intrinsics.go:15-18 | the grouping loop builds one key per module of the table, mapped to that module's entries in table order |
| Imports.GroupedSnoc | intrinsics.go:16-17 | one append to the grouping map keeps it the grouping of the entries seen so far |
| Imports.BuildNamespace | intrinsics.go:21-54 | a module's namespace is its seed (the stubs for `index`, nothing otherwise) with the group's entries registered in order |
| Imports.NewImports | intrinsics.go:12-58 | the import object holds exactly the table's modules, each mapped to its namespace |
| Imports.GroupOfAbsent | intrinsics.go:15-18 | a module with no entries in the table has an empty group |
| Imports.RegisterKeys | intrinsics.go:35-52 | registering adds exactly the entries' names to the seed's names |
| Imports.LastRegisteredWins | intrinsics.go:49 | a name registered twice holds the last entry registered under it |
| Imports.SeedKept | intrinsics.go:22-33 | a seeded name that no entry overrides keeps its stub |
| Imports.ConcreteModules | intrinsics.go:75-147 | the table's modules are `env` and `index` |
| Imports.ConcreteGroups | intrinsics.go:75-147 | `env` groups abort and println, `index` groups bytesToHex and log.log, in table order |
| Imports.ConcreteGroup | intrinsics.go:15-18 | the group of a four-entry table is each entry in that module, in order |
| Imports.ConcreteImports | intrinsics.go:12-147 | `env` holds exactly abort and println; `index` is the stubs with bytesToHex and log.log added |
| Imports.RegisterTwo | intrinsics.go:35-52 | registering two entries is two map updates in order |
| Imports.EntryOrigin | intrinsics.go:20-54 | every name in a namespace is either a seeded stub or an entry of the table |
| Imports.ArgI32 | intrinsics.go:83-84 | `args[i].I32()` succeeds iff the argument exists and is an i32, giving its value |
| Imports.AbortCall | intrinsics.go:78-100 | `env.abort` always fails: with the message or filename read error wrapped, or with the abort of the two strings, line and column |
| Imports.BytesToHexCall | intrinsics.go:102-114 | `bytesToHex` returns the single i32 0 iff its bytes read, and otherwise the read error wrapped |
| Imports.PrintlnCall | intrinsics.go:132-146 | `env.println` reads the message with its explicit length and returns no values, or the read error wrapped |
| Imports.LogLogRecord | intrinsics.go:116-130 | `log.log` records ("index", "log.log", [level, message], nil) iff the message reads, and otherwise gives the read error wrapped |
| Imports.Recorded | intrinsics.go:127 | an import records at most one call |
| Imports.LogLog | intrinsics.go:116-130 | `log.log` against an environment returns no values and appends its one call when the message reads, and gives the error otherwise |
| Imports.Invoke | intrinsics.go:38-51 | a call through the import object has its handler's outcome and records what the handler records; tracing passes results and errors through |
| Imports.ResultsConform | intrinsics.go:12-197 | whatever an import returns on arguments of its parameter kinds has its declared result kinds |
| Imports.ExternResultsConform | intrinsics.go:151-197 | the same for any stub or table entry |
| Imports.HostResultsConform | intrinsics.go:75-147 | the same for the table's handlers: bytesToHex returns one i32, the others nothing |

## Left out

- `Runtime.Execute`, `Simulate`, `NewRuntime` and `callFunction` (runtime.go:291-399, 522-538): engine plumbing. Loading a module, instantiating it and calling the entry point go through wasmer, which is not part of this model.
- Logging and tracing: `LogSegment`, `Debug`, the zlog calls, `hexBytes`, `typedField`, `valueSet` and `value.String`. They only write logs. The tracing wrapper of `newImports` is kept as a flag on each import, which passes results and errors through unchanged.
- `utils.go`, the tests and the Rust guests: they are not part of this model.
- Memory growth: the allocator is a function parameter returning a pointer. Whether the memory it hands out is in bounds is a hypothesis (`AllocatesWithin`) of the lemmas that need it.
- Memories of 2 GiB or more: every reader is stated for memories of at most MaxInt32 bytes, where Go's `int32(len(...))` bounds checks are exact.
- Go strings that are not valid UTF-8 are not representable: a string is a sequence of Unicode scalar values.
- `env.println` writes its message to standard output. The model keeps the read and its error, not the output.
- wasmer checks the argument kinds against each import's signature before calling it. The handlers' contracts assume arguments of the declared kinds; `ArgI32` models the handlers' own accessors.
- runtime.go repeats `DefaultEnvironment` with a one-argument `ReadString` (runtime.go:47-285). The two-argument form of environment.go is modelled; `toGoValue` passes 0 as the length, which the default environment ignores.
- Floats are opaque bit patterns: conversion passes them through, so no arithmetic is modelled.
- The 8-byte field read before an array's elements (environment.go:212, 243) has its error discarded by Go. The model keeps it only when it would be a panic.
- The Rust environment's `ReadString` is modelled as written: it succeeds only for len == 0 (see `Codec.RustStringOnlyEmpty`). Whether the guest meant UTF-8 or UTF-16 content is undecidable from the code, so no corrected reader is given.

## Findings

| source | as written | input that shows it | evidently intended | confidence | as-written member | corrected member |
|---|---|---|---|---|---|---|
| runtime.go:487-490 | `AscString.ToPtr` sizes the buffer and writes the header from `len(h)`, the UTF-8 byte count, but writes only the UTF-16 code units | "é" (U+00E9): header 2, units [0xE9]; `ReadString` returns "é\u0000" | header and size from the number of UTF-16 units, so that any string reads back as itself | not executed | Codec.AsWrittenDecodesWithTrailingNuls | Codec.StringRoundTrip |
| runtime.go:543-557 | `toWASMParameters` uses MaxInt32 as "no size", so a pointer whose size is MaxInt32 loses its size word | a byte slice of length 2^31 - 5 staged with sizes: its size 4 + len is MaxInt32, and the output is [ptr] instead of [ptr, size] | a size word after every pointer, decided by whether the value was staged | not executed; low (needs a 2 GiB slice) | Conversion.SentinelDropsBytesSize | Conversion.ParameterWords |

The staging code (`Heap.StringToPtr`, `Conversion.ToWasmParameters`) is modelled as written. The corrected definitions (`Codec.StringLayout`, `Conversion.Flatten`) sit beside it. `Codec.AsWrittenAgreesOnAscii` and `Conversion.StagedWordsAgree` say where the two coincide.
