/**
 * The host functions the guest imports (intrinsics.go): the `functions`
 * table of handlers with their engine signatures, the old-style `index`
 * stubs, and newImports, which groups the table by module into one
 * namespace per module. The engine's import object is a map from module
 * name to namespace; a namespace maps function names to what the guest
 * calls.
 */
module Imports {
  import opened Base
  import opened Environment

  /** wasmer.ValueKind. */
  datatype ValueKind = I32Kind | I64Kind | F32Kind | F64Kind

  /** wasmer.Value; floats are opaque bit patterns. */
  datatype Value = I32(i32: int32) | I64(i64: int64) | F32(bits32: uint32) | F64(bits64: uint64)

  function KindOf(v: Value): ValueKind
  {
    match v
    case I32(_) => I32Kind
    case I64(_) => I64Kind
    case F32(_) => F32Kind
    case F64(_) => F64Kind
  }

  /** Values of the kinds a signature lists, in order. */
  predicate Conforms(values: seq<Value>, kinds: seq<ValueKind>)
  {
    |values| == |kinds| && forall i :: 0 <= i < |values| ==> KindOf(values[i]) == kinds[i]
  }

  /** wasmer.FunctionType. */
  datatype FunctionType = FunctionType(params: seq<ValueKind>, results: seq<ValueKind>)

  /** The bodies of the entries of the `functions` table. */
  datatype Handler = AbortHandler | BytesToHexHandler | LogLogHandler | PrintlnHandler

  /** impl (intrinsics.go:60-65): where a host function is imported from, its type and its body. */
  datatype Impl = Impl(moduleName: string, name: string, functionDef: FunctionType, handler: Handler)

  /** intrinsics(module, name, params, results, f) (intrinsics.go:67-69). */
  function Intrinsics(moduleName: string, name: string, params: seq<ValueKind>, results: seq<ValueKind>, f: Handler): (i: Impl)
    ensures i.functionDef.params == params && i.functionDef.results == results
  {
    Impl(moduleName, name, FunctionType(params, results), f)
  }

  /** impl.alias (intrinsics.go:71-73): the same function under another module and name. */
  function Alias(i: Impl, moduleName: string, name: string): (r: Impl)
    ensures r.moduleName == moduleName && r.name == name
  {
    Impl(moduleName, name, i.functionDef, i.handler)
  }

  /** Aliasing keeps type and body: aliasing back to the old names gives the original. */
  lemma AliasKeepsFunction(i: Impl, moduleName: string, name: string)
    ensures Alias(i, moduleName, name).functionDef == i.functionDef
    ensures Alias(i, moduleName, name).handler == i.handler
    ensures Alias(Alias(i, moduleName, name), i.moduleName, i.name) == i
  {
  }

  /** The `functions` table (intrinsics.go:75-147). */
  const Functions: seq<Impl> := [
    Intrinsics("env", "abort", [I32Kind, I32Kind, I32Kind, I32Kind], [], AbortHandler),
    Intrinsics("index", "typeConversion.bytesToHex", [I32Kind], [I32Kind], BytesToHexHandler),
    Intrinsics("index", "log.log", [I32Kind, I32Kind], [], LogLogHandler),
    Intrinsics("env", "println", [I32Kind, I32Kind], [], PrintlnHandler)
  ]

  /** An old-style host function: a fixed type, and results that ignore the arguments. */
  datatype Stub = Stub(functionDef: FunctionType, results: seq<Value>)

  /** The seven stubs the `index` namespace starts with (intrinsics.go:24-32, 151-197). */
  const IndexStubs: map<string, Stub> := map[
    "bigDecimal.fromString" := Stub(FunctionType([I32Kind], [I32Kind]), [I32(0)]),
    "typeConversion.stringToH160" := Stub(FunctionType([I32Kind], [I32Kind]), [I32(0)]),
    "store.get" := Stub(FunctionType([I32Kind, I32Kind], [I32Kind]), [I32(0)]),
    "store.set" := Stub(FunctionType([I32Kind, I32Kind, I32Kind], []), []),
    "ethereum.call" := Stub(FunctionType([I32Kind], [I32Kind]), [I32(0)]),
    "typeConversion.bytesToString" := Stub(FunctionType([I32Kind], [I32Kind]), [I32(0)]),
    "dataSource.create" := Stub(FunctionType([I32Kind, I32Kind], []), [])
  ]

  /** Every stub's results have the kinds its type declares. */
  lemma StubsConform()
    ensures forall name :: name in IndexStubs ==>
      Conforms(IndexStubs[name].results, IndexStubs[name].functionDef.results)
  {
  }

  /** What a namespace entry is: a stub, or a table entry (wrapped for tracing or not). */
  datatype Extern = StubExtern(stub: Stub) | Host(impl: Impl, traced: bool)

  function TypeOf(e: Extern): FunctionType
  {
    match e
    case StubExtern(s) => s.functionDef
    case Host(i, _) => i.functionDef
  }

  // ---------------------------------------------------------------------
  // newImports
  // ---------------------------------------------------------------------

  /** The table entries of module m, in table order. */
  function Group(fs: seq<Impl>, m: string): (g: seq<Impl>)
    ensures forall i :: i in g ==> i in fs && i.moduleName == m
  {
    if fs == [] then []
    else Group(fs[..|fs| - 1], m) + (if fs[|fs| - 1].moduleName == m then [fs[|fs| - 1]] else [])
  }

  /** The modules the table mentions. */
  function Modules(fs: seq<Impl>): set<string>
  {
    set i | 0 <= i < |fs| :: fs[i].moduleName
  }

  /** The namespace a module starts with: the stubs for `index`, nothing for the others. */
  function Seed(m: string): map<string, Extern>
  {
    if m == "index" then map name | name in IndexStubs :: StubExtern(IndexStubs[name]) else map[]
  }

  /** The entries registered one after the other, a later one replacing an earlier one of the same name. */
  function Register(ns: map<string, Extern>, impls: seq<Impl>, traced: bool): map<string, Extern>
  {
    if impls == [] then ns
    else
      var last := impls[|impls| - 1];
      Register(ns, impls[..|impls| - 1], traced)[last.name := Host(last, traced)]
  }

  /** The namespace newImports builds for module m. */
  function Namespace(fs: seq<Impl>, m: string, traced: bool): map<string, Extern>
  {
    Register(Seed(m), Group(fs, m), traced)
  }

  /** Adding an entry adds its module. */
  lemma ModulesSnoc(fs: seq<Impl>, f: Impl)
    ensures Modules(fs + [f]) == Modules(fs) + {f.moduleName}
  {
    var gs := fs + [f];
    assert gs[|fs|] == f;
    forall x | x in Modules(fs) ensures x in Modules(gs) {
      var i :| 0 <= i < |fs| && fs[i].moduleName == x;
      assert gs[i] == fs[i];
    }
  }

  /** Adding an entry extends its own module's group and no other. */
  lemma GroupSnoc(fs: seq<Impl>, f: Impl, m: string)
    ensures Group(fs + [f], m) == Group(fs, m) + (if f.moduleName == m then [f] else [])
  {
    assert (fs + [f])[..|fs|] == fs;
  }

  /**
   * The first loop of newImports (intrinsics.go:15-18): each entry appended
   * to its module's list, so every module of the table gets its entries in
   * table order.
   */
  method GroupByModule(fs: seq<Impl>) returns (byModule: map<string, seq<Impl>>)
    ensures byModule.Keys == Modules(fs)
    ensures forall m :: m in byModule ==> byModule[m] == Group(fs, m)
  {
    byModule := map[];
    for i := 0 to |fs|
      invariant Grouped(fs[..i], byModule)
    {
      var f := fs[i];
      var prior := if f.moduleName in byModule then byModule[f.moduleName] else [];
      GroupedSnoc(fs[..i], f, byModule);
      byModule := byModule[f.moduleName := prior + [f]];
      assert fs[..i + 1] == fs[..i] + [f];
    }
    assert fs[..|fs|] == fs;
  }

  /** byModule holds exactly the modules of fs, each with its group. */
  ghost predicate Grouped(fs: seq<Impl>, byModule: map<string, seq<Impl>>)
  {
    && byModule.Keys == Modules(fs)
    && forall m :: m in byModule ==> byModule[m] == Group(fs, m)
  }

  /** Appending an entry to its module's list keeps the grouping exact. */
  lemma GroupedSnoc(fs: seq<Impl>, f: Impl, byModule: map<string, seq<Impl>>)
    requires Grouped(fs, byModule)
    ensures var prior := if f.moduleName in byModule then byModule[f.moduleName] else [];
      Grouped(fs + [f], byModule[f.moduleName := prior + [f]])
  {
    var prior := if f.moduleName in byModule then byModule[f.moduleName] else [];
    var next := byModule[f.moduleName := prior + [f]];
    if f.moduleName !in byModule {
      GroupOfAbsent(fs, f.moduleName);
    }
    ModulesSnoc(fs, f);
    forall m | m in next
      ensures next[m] == Group(fs + [f], m)
    {
      GroupSnoc(fs, f, m);
    }
  }

  /**
   * The body of newImports' second loop (intrinsics.go:21-52): the seed,
   * then each entry stored under its name, in order.
   */
  method BuildNamespace(m: string, impls: seq<Impl>, traced: bool) returns (namespace: map<string, Extern>)
    ensures namespace == Register(Seed(m), impls, traced)
  {
    namespace := Seed(m);
    for j := 0 to |impls|
      invariant namespace == Register(Seed(m), impls[..j], traced)
    {
      assert impls[..j + 1][..j] == impls[..j];
      namespace := namespace[impls[j].name := Host(impls[j], traced)];
    }
    assert impls[..|impls|] == impls;
  }

  /**
   * newImports (intrinsics.go:12-58) over a table `fs` (the source's is
   * Functions): the table grouped by module, then one namespace per module,
   * seeded and filled with the module's entries in table order, and
   * registered under the module's name. Modules are visited in any order,
   * as Go's map iteration does; `traced` is whether the tracing wrapper is
   * installed.
   */
  method NewImports(fs: seq<Impl>, traced: bool) returns (imports: map<string, map<string, Extern>>)
    ensures imports.Keys == Modules(fs)
    ensures forall m :: m in imports ==> imports[m] == Namespace(fs, m, traced)
  {
    var byModule := GroupByModule(fs);
    imports := map[];
    var remaining := byModule.Keys;
    while remaining != {}
      invariant remaining <= byModule.Keys
      invariant imports.Keys == byModule.Keys - remaining
      invariant forall m :: m in imports ==> imports[m] == Namespace(fs, m, traced)
      decreases remaining
    {
      var m :| m in remaining;
      var namespace := BuildNamespace(m, byModule[m], traced);
      imports := imports[m := namespace];
      remaining := remaining - {m};
    }
  }

  lemma {:induction false} GroupOfAbsent(fs: seq<Impl>, m: string)
    requires m !in Modules(fs)
    ensures Group(fs, m) == []
  {
    if fs != [] {
      var init := fs[..|fs| - 1];
      assert Modules(init) <= Modules(fs) by {
        forall x | x in Modules(init) ensures x in Modules(fs) {
          var i :| 0 <= i < |init| && init[i].moduleName == x;
          assert fs[i] == init[i];
        }
      }
      GroupOfAbsent(init, m);
    }
  }

  /** The names a namespace holds: the seed's and those of the registered entries. */
  lemma {:induction false} RegisterKeys(ns: map<string, Extern>, impls: seq<Impl>, traced: bool)
    ensures Register(ns, impls, traced).Keys == ns.Keys + set i | 0 <= i < |impls| :: impls[i].name
  {
    if impls != [] {
      var init := impls[..|impls| - 1];
      RegisterKeys(ns, init, traced);
      var names := set i | 0 <= i < |impls| :: impls[i].name;
      var initNames := set i | 0 <= i < |init| :: init[i].name;
      assert names == initNames + {impls[|impls| - 1].name} by {
        forall x | x in names ensures x in initNames + {impls[|impls| - 1].name} {
          var i :| 0 <= i < |impls| && impls[i].name == x;
          if i < |init| { assert init[i] == impls[i]; }
        }
        forall x | x in initNames ensures x in names {
          var i :| 0 <= i < |init| && init[i].name == x;
          assert impls[i] == init[i];
        }
      }
    }
  }

  /**
   * The last registered entry of a name wins: it is what the namespace
   * holds under that name, whatever the seed or earlier entries held.
   */
  lemma {:induction false} LastRegisteredWins(ns: map<string, Extern>, impls: seq<Impl>, traced: bool, j: nat)
    requires j < |impls|
    requires forall k :: j < k < |impls| ==> impls[k].name != impls[j].name
    ensures impls[j].name in Register(ns, impls, traced)
    ensures Register(ns, impls, traced)[impls[j].name] == Host(impls[j], traced)
  {
    var n := |impls| - 1;
    if j < n {
      var init := impls[..n];
      assert forall k :: j < k < |init| ==> init[k] == impls[k];
      LastRegisteredWins(ns, init, traced, j);
    }
  }

  /** A seeded name that no entry registers keeps its seed value. */
  lemma {:induction false} SeedKept(ns: map<string, Extern>, impls: seq<Impl>, traced: bool, name: string)
    requires name in ns
    requires forall k :: 0 <= k < |impls| ==> impls[k].name != name
    ensures name in Register(ns, impls, traced) && Register(ns, impls, traced)[name] == ns[name]
  {
    if impls != [] {
      var init := impls[..|impls| - 1];
      assert forall k :: 0 <= k < |init| ==> init[k] == impls[k];
      SeedKept(ns, init, traced, name);
    }
  }

  /** The table's modules: env and index. */
  lemma ConcreteModules()
    ensures Modules(Functions) == {"env", "index"}
  {
    var fs := Functions;
    var f0, f1, f2, f3 := fs[0], fs[1], fs[2], fs[3];
    assert f0.moduleName == "env" && f1.moduleName == "index";
    assert f2.moduleName == "index" && f3.moduleName == "env";
    var p1, p2, p3 := [f0], [f0, f1], [f0, f1, f2];
    assert p1 == [] + [f0] && p2 == p1 + [f1] && p3 == p2 + [f2] && fs == p3 + [f3];
    ModulesSnoc([], f0);
    ModulesSnoc(p1, f1);
    ModulesSnoc(p2, f2);
    ModulesSnoc(p3, f3);
  }

  /** Each module's entries in table order. */
  lemma ConcreteGroups()
    ensures Group(Functions, "env") == [Functions[0], Functions[3]]
    ensures Group(Functions, "index") == [Functions[1], Functions[2]]
  {
    var fs := Functions;
    var f0, f1, f2, f3 := fs[0], fs[1], fs[2], fs[3];
    assert f0.moduleName == "env" && f1.moduleName == "index";
    assert f2.moduleName == "index" && f3.moduleName == "env";
    assert "env" != "index" by { assert "env"[0] != "index"[0]; }
    var p1, p2, p3 := [f0], [f0, f1], [f0, f1, f2];
    assert p1 == [] + [f0] && p2 == p1 + [f1] && p3 == p2 + [f2] && fs == p3 + [f3];
    ConcreteGroup([], p1, p2, p3, fs, "env");
    ConcreteGroup([], p1, p2, p3, fs, "index");
  }

  lemma ConcreteGroup(p0: seq<Impl>, p1: seq<Impl>, p2: seq<Impl>, p3: seq<Impl>, p4: seq<Impl>, m: string)
    requires p0 == [] && |p4| == 4
    requires p1 == p0 + [p4[0]] && p2 == p1 + [p4[1]] && p3 == p2 + [p4[2]] && p4 == p3 + [p4[3]]
    ensures Group(p4, m) ==
      (if p4[0].moduleName == m then [p4[0]] else []) + (if p4[1].moduleName == m then [p4[1]] else []) +
      (if p4[2].moduleName == m then [p4[2]] else []) + (if p4[3].moduleName == m then [p4[3]] else [])
  {
    GroupSnoc(p0, p4[0], m);
    GroupSnoc(p1, p4[1], m);
    GroupSnoc(p2, p4[2], m);
    GroupSnoc(p3, p4[3], m);
  }

  /**
   * The import object newImports builds from the table: `env` holds abort
   * and println, `index` holds the seven stubs plus bytesToHex and log.log,
   * and there is no other module.
   */
  lemma ConcreteImports(traced: bool)
    ensures Modules(Functions) == {"env", "index"}
    ensures Namespace(Functions, "env", traced) ==
      map["abort" := Host(Functions[0], traced), "println" := Host(Functions[3], traced)]
    ensures Namespace(Functions, "index", traced) ==
      Seed("index")["typeConversion.bytesToHex" := Host(Functions[1], traced)]["log.log" := Host(Functions[2], traced)]
  {
    ConcreteModules();
    ConcreteGroups();
    assert "env" != "index" by { assert "env"[0] != "index"[0]; }
    assert Seed("env") == map[];
    RegisterTwo(Seed("env"), Functions[0], Functions[3], traced);
    RegisterTwo(Seed("index"), Functions[1], Functions[2], traced);
  }

  lemma RegisterTwo(ns: map<string, Extern>, a: Impl, b: Impl, traced: bool)
    ensures Register(ns, [a, b], traced) == ns[a.name := Host(a, traced)][b.name := Host(b, traced)]
  {
    assert [a, b][..1] == [a] && [a][..0] == [];
    assert Register(ns, [a], traced) == ns[a.name := Host(a, traced)];
  }

  /** Every name the table provides is either one of the index stubs or a table entry. */
  lemma EntryOrigin(traced: bool, m: string, name: string)
    requires m in Modules(Functions) && name in Namespace(Functions, m, traced)
    ensures var e := Namespace(Functions, m, traced)[name];
      || (e.StubExtern? && name in IndexStubs && e.stub == IndexStubs[name])
      || (e.Host? && e.impl in Functions)
  {
    ConcreteImports(traced);
  }

  // ---------------------------------------------------------------------
  // The handlers.
  // ---------------------------------------------------------------------

  /** args[i].I32(): an index past the arguments or a value of another kind panics. */
  function ArgI32(args: seq<Value>, i: nat): (r: Result<int32>)
    ensures r.Ok? <==> i < |args| && args[i].I32?
    ensures r.Ok? ==> r.value == args[i].i32
  {
    if i >= |args| then Err(Panic(IndexOutOfRange(i, |args|)))
    else if !args[i].I32? then Err(Panic(FailedTypeAssertion))
    else Ok(args[i].i32)
  }

  /**
   * env.abort (intrinsics.go:82-97): the message, then the filename, each
   * read as a string at its pointer; the result is always an error, the
   * abort itself when both reads succeed. A message that cannot be read is
   * reported without reading the filename.
   */
  function AbortCall(env: MemoryReader, args: seq<Value>): (r: Result<seq<Value>>)
    ensures r.Err?
    ensures Conforms(args, [I32Kind, I32Kind, I32Kind, I32Kind]) ==>
      var message := env.ReadString(args[0].i32, 0);
      var filename := env.ReadString(args[1].i32, 0);
      && (message.Err? ==> r.error == Context("read message argument", message.error))
      && (message.Ok? && filename.Err? ==> r.error == Context("read filename argument", filename.error))
      && (message.Ok? && filename.Ok? ==>
            r.error == Aborted(message.value, filename.value, args[2].i32, args[3].i32))
  {
    var messagePtr :- ArgI32(args, 0);
    match env.ReadString(messagePtr, 0)
    case Err(e) => Err(Context("read message argument", e))
    case Ok(message) =>
      var filenamePtr :- ArgI32(args, 1);
      match env.ReadString(filenamePtr, 0)
      case Err(e) => Err(Context("read filename argument", e))
      case Ok(filename) =>
        var lineNumber :- ArgI32(args, 2);
        var columnNumber :- ArgI32(args, 3);
        Err(Aborted(message, filename, lineNumber, columnNumber))
  }

  /**
   * index.typeConversion.bytesToHex (intrinsics.go:106-113): the bytes are
   * read and dropped; the result is I32 0 whatever they are.
   */
  function BytesToHexCall(env: MemoryReader, args: seq<Value>): (r: Result<seq<Value>>)
    ensures Conforms(args, [I32Kind]) ==>
      var bytes := env.ReadBytes(args[0].i32);
      && (r.Ok? <==> bytes.Ok?)
      && (r.Ok? ==> r.value == [I32(0)])
      && (r.Err? ==> r.error == Context("read messages argument", bytes.error))
  {
    var ptr :- ArgI32(args, 0);
    match env.ReadBytes(ptr)
    case Err(e) => Err(Context("read messages argument", e))
    case Ok(_) => Ok([I32(0)])
  }

  /**
   * env.println (intrinsics.go:136-145): the string at args[0] of the
   * explicit length args[1]; no results. Writing it to standard output is
   * not modelled.
   */
  function PrintlnCall(env: MemoryReader, args: seq<Value>): (r: Result<seq<Value>>)
    ensures Conforms(args, [I32Kind, I32Kind]) ==>
      var message := env.ReadString(args[0].i32, args[1].i32);
      && (r.Ok? <==> message.Ok?)
      && (r.Ok? ==> r.value == [])
      && (r.Err? ==> r.error == Context("read message argument", message.error))
  {
    var ptr :- ArgI32(args, 0);
    var len :- ArgI32(args, 1);
    match env.ReadString(ptr, len)
    case Err(e) => Err(Context("read message argument", e))
    case Ok(_) => Ok([])
  }

  /**
   * The call index.log.log records (intrinsics.go:120-129): the level, then
   * the message read at args[1]; a message that cannot be read is an error.
   */
  function LogLogRecord(env: MemoryReader, args: seq<Value>): (r: Result<Call>)
    ensures Conforms(args, [I32Kind, I32Kind]) ==>
      var message := env.ReadString(args[1].i32, 0);
      && (r.Ok? <==> message.Ok?)
      && (r.Ok? ==> r.value == Call("index", "log.log", [Int32(args[0].i32), Str(message.value)], Nil))
      && (r.Err? ==> r.error == Context("read message argument", message.error))
  {
    var level :- ArgI32(args, 0);
    var ptr :- ArgI32(args, 1);
    match env.ReadString(ptr, 0)
    case Err(e) => Err(Context("read message argument", e))
    case Ok(message) => Ok(Call("index", "log.log", [Int32(level), Str(message)], Nil))
  }

  /** What calling an import returns, as a function of what it reads. */
  function Outcome(e: Extern, env: MemoryReader, args: seq<Value>): Result<seq<Value>>
  {
    match e
    case StubExtern(stub) => Ok(stub.results)
    case Host(impl, _) =>
      match impl.handler
      case AbortHandler => AbortCall(env, args)
      case BytesToHexHandler => BytesToHexCall(env, args)
      case PrintlnHandler => PrintlnCall(env, args)
      case LogLogHandler =>
        match LogLogRecord(env, args)
        case Err(err) => Err(err)
        case Ok(_) => Ok([])
  }

  /** The calls an import records: log.log records its one call when it succeeds, nothing else records. */
  function Recorded(e: Extern, env: MemoryReader, args: seq<Value>): (calls: seq<Call>)
    ensures |calls| <= 1
  {
    if e.Host? && e.impl.handler.LogLogHandler? && LogLogRecord(env, args).Ok? then [LogLogRecord(env, args).value]
    else []
  }

  /**
   * index.log.log (intrinsics.go:120-129) against an environment: exactly
   * one call recorded when the message reads, none otherwise, and no
   * results.
   */
  method LogLog(env: Env, args: seq<Value>) returns (r: Result<seq<Value>>)
    modifies env.Inner().callRecorder
    ensures var record := LogLogRecord(old(env.Reader()), args);
      && r == (if record.Ok? then Ok([]) else Err(record.error))
      && (env.Inner().callRecorder != null ==>
            env.Inner().callRecorder.calls ==
              old(env.Inner().callRecorder.calls) + (if record.Ok? then [record.value] else []))
  {
    var level := ArgI32(args, 0);
    if level.Err? {
      return Err(level.error);
    }
    var ptr := ArgI32(args, 1);
    if ptr.Err? {
      return Err(ptr.error);
    }
    var message := env.ReadString(ptr.value, 0);
    if message.Err? {
      return Err(Context("read message argument", message.error));
    }
    env.RecordCall("index", "log.log", [Int32(level.value), Str(message.value)], Nil);
    r := Ok([]);
  }

  /**
   * A call through the import object: stubs return their fixed results,
   * table entries run their handler; the tracing wrapper passes results and
   * errors through unchanged.
   */
  method Invoke(e: Extern, env: Env, args: seq<Value>) returns (r: Result<seq<Value>>)
    modifies env.Inner().callRecorder
    ensures r == Outcome(e, old(env.Reader()), args)
    ensures env.Inner().callRecorder != null ==>
      env.Inner().callRecorder.calls == old(env.Inner().callRecorder.calls) + Recorded(e, old(env.Reader()), args)
  {
    match e
    case StubExtern(stub) =>
      r := Ok(stub.results);
    case Host(impl, _) =>
      match impl.handler
      case AbortHandler => r := AbortCall(env.Reader(), args);
      case BytesToHexHandler => r := BytesToHexCall(env.Reader(), args);
      case PrintlnHandler => r := PrintlnCall(env.Reader(), args);
      case LogLogHandler => r := LogLog(env, args);
  }

  /**
   * Whatever an import the table or the stubs provide returns on arguments
   * of its parameter kinds has the kinds of its declared results.
   */
  lemma ResultsConform(traced: bool, m: string, name: string, env: MemoryReader, args: seq<Value>)
    requires m in Modules(Functions) && name in Namespace(Functions, m, traced)
    requires Conforms(args, TypeOf(Namespace(Functions, m, traced)[name]).params)
    requires Outcome(Namespace(Functions, m, traced)[name], env, args).Ok?
    ensures Conforms(Outcome(Namespace(Functions, m, traced)[name], env, args).value,
                     TypeOf(Namespace(Functions, m, traced)[name]).results)
  {
    EntryOrigin(traced, m, name);
    ExternResultsConform(Namespace(Functions, m, traced)[name], env, args);
  }

  /** A stub or a table entry returns values of its declared result kinds. */
  lemma ExternResultsConform(e: Extern, env: MemoryReader, args: seq<Value>)
    requires || (e.StubExtern? && exists name :: name in IndexStubs && e.stub == IndexStubs[name])
             || (e.Host? && e.impl in Functions)
    requires Outcome(e, env, args).Ok?
    ensures Conforms(Outcome(e, env, args).value, TypeOf(e).results)
  {
    if e.StubExtern? {
      StubsConform();
    } else {
      HostResultsConform(e.impl, e.traced, env, args);
    }
  }

  /** A table entry's results have the kinds its type declares. */
  lemma HostResultsConform(impl: Impl, traced: bool, env: MemoryReader, args: seq<Value>)
    requires impl in Functions
    requires Outcome(Host(impl, traced), env, args).Ok?
    ensures Conforms(Outcome(Host(impl, traced), env, args).value, impl.functionDef.results)
  {
    var k :| 0 <= k < |Functions| && Functions[k] == impl;
    if k == 1 {
      assert impl.handler == BytesToHexHandler && impl.functionDef.results == [I32Kind];
    } else {
      assert k == 0 || k == 2 || k == 3;
      assert impl.functionDef.results == [];
    }
  }
}
