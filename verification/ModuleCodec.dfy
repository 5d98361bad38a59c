/** Writing the reachable functions and classes of a module to a class file,
    by their numbers, and rebuilding them from it. */
module ModuleCodecs {
  import opened Options
  import opened Machine
  import opened ConstantPools
  import opened PoolBuilders
  import PoolCodec
  import opened LineTables
  import opened ModuleGraphs

  const NIL_CONST: nat := 10
  const INT_CONST: nat := 11
  const FLOAT_CONST: nat := 12
  const STRING_CONST: nat := 13
  const RUNE_CONST: nat := 14
  const BOOL_CONST: nat := 15
  const FUNCTION_REF: nat := 16
  const CLASS_REF: nat := 17

  datatype EncodedConstant = EncodedConstant(kind: nat, cpIndex: CpIndex, refIndex: CpIndex)

  /** A method of the file, with the indices of its attributes' names. */
  datatype MethodInfo = MethodInfo(
    name: CpIndex, descriptor: CpIndex, upvalues: seq<Upvalue>, maxLocals: nat,
    code: seq<byte>, lines: seq<LineEntry>, constants: seq<EncodedConstant>,
    codeName: CpIndex, linesName: CpIndex, metaName: CpIndex, declared: Declared)

  datatype ClassInfo = ClassInfo(
    id: CpIndex, name: Text, superclass: CpIndex,
    methods: map<Text, CpIndex>, methodOverloads: map<Text, seq<CpIndex>>,
    staticMethods: map<Text, CpIndex>, staticMethodOverloads: map<Text, seq<CpIndex>>,
    construct: CpIndex, constructorOverloads: seq<CpIndex>, specialMethods: map<nat, CpIndex>,
    methodOrder: seq<Text>, rest: ClassRest)

  datatype ModuleFile = ModuleFile(
    pool: seq<byte>, thisClass: CpIndex, methods: seq<MethodInfo>, classes: seq<ClassInfo>, entry: CpIndex,
    names: FileNames)

  /** The indices of the names of a file's own attributes. */
  datatype FileNames = FileNames(entry: CpIndex, classes: CpIndex, metadata: CpIndex)

  const CODE: Text := [67, 111, 100, 101]
  const LINE_NUMBER_TABLE: Text := [76, 105, 110, 101, 78, 117, 109, 98, 101, 114, 84, 97, 98, 108, 101]
  const POLYLOFT_METHOD: Text := [80, 111, 108, 121, 108, 111, 102, 116, 77, 101, 116, 104, 111, 100]
  const POLYLOFT_MODULE: Text := [80, 111, 108, 121, 108, 111, 102, 116, 77, 111, 100, 117, 108, 101]
  const POLYLOFT_CLASSES: Text := [80, 111, 108, 121, 108, 111, 102, 116, 67, 108, 97, 115, 115, 101, 115]
  const POLYLOFT_METADATA: Text := [80, 111, 108, 121, 108, 111, 102, 116, 77, 101, 116, 97, 100, 97, 116, 97]
  const SCRIPT: Text := [60, 115, 99, 114, 105, 112, 116, 62]

  function MethodName(name: Text): Text { if name == [] then SCRIPT else name }

  // ----------------------------------------------------------------- numbers

  type Functions = map<Function, CpIndex>
  type Classes = map<Class, CpIndex>

  function NumberOf<T>(x: T, index: map<T, CpIndex>): CpIndex { if x in index then index[x] else 0 }

  /** null has no number, which reads as 0. */
  function FunctionNumber(f: Function?, fi: Functions): CpIndex { if f == null then 0 else NumberOf(f as Function, fi) }
  function ClassNumber(c: Class?, ci: Classes): CpIndex { if c == null then 0 else NumberOf(c as Class, ci) }

  function FunctionNumbers(fs: seq<Function?>, fi: Functions): (r: seq<CpIndex>) {
    if fs == [] then []
    else (if fs[0] == null then [] else [FunctionNumber(fs[0], fi)]) + FunctionNumbers(fs[1..], fi)
  }

  function OverloadNumbers(m: Overloads, fi: Functions): map<Text, seq<CpIndex>> {
    map k | k in m :: FunctionNumbers(m[k], fi)
  }

  function BindingNumbers(m: Bindings, fi: Functions): map<Text, CpIndex> {
    map k | k in m :: FunctionNumber(m[k], fi)
  }

  const SPECIAL_SLOTS: nat := 10

  function SpecialNumbers(m: map<nat, Function?>, fi: Functions): map<nat, CpIndex> {
    map k | k in m && k < SPECIAL_SLOTS && m[k] != null :: FunctionNumber(m[k], fi)
  }

  // ----------------------------------------------------------------- writing

  /** The encoded constant stands for c. */
  predicate Stands(e: EncodedConstant, c: Constant, es: seq<Entry>, fi: Functions, ci: Classes) {
    match c
    case NilConst => e.kind == NIL_CONST
    case IntConst(i) => e.kind == INT_CONST && LongAt(es, e.cpIndex) == Some(i as int)
    case FloatConst(bits) => e.kind == FLOAT_CONST && DoubleAt(es, e.cpIndex) == Some(bits as nat)
    case TextConst(s) => e.kind == STRING_CONST && StringAt(es, e.cpIndex) == Some(s)
    case RuneConst(r) => e.kind == RUNE_CONST && IntegerAt(es, e.cpIndex) == Some(r as int)
    case BoolConst(b) => e.kind == BOOL_CONST && IntegerAt(es, e.cpIndex) == Some(if b then 1 else 0)
    case FunctionConst(f) => e.kind == FUNCTION_REF && e.refIndex == FunctionNumber(f, fi)
    case ClassConst(k) => e.kind == CLASS_REF && e.refIndex == ClassNumber(k, ci)
    case UnsupportedConst => false
  }

  method EncodeConstant(c: Constant, cp: CpBuilder, fi: Functions, ci: Classes) returns (r: Option<EncodedConstant>)
    requires cp.Valid()
    modifies cp
    ensures cp.Valid() && Extends(cp.entries, old(cp.entries)) && cp.attributeNames == old(cp.attributeNames)
    ensures r.None? <==> c.UnsupportedConst?
    ensures r.Some? && |cp.entries| <= LAST_INDEX ==> Stands(r.value, c, cp.entries, fi, ci)
  {
    hide Paired, Tables, EntryAt;
    var index: CpIndex := 0;
    match c
    case NilConst => return Some(EncodedConstant(NIL_CONST, 0, 0));
    case IntConst(i) =>
      index := cp.AddInt64(i);
      return Some(EncodedConstant(INT_CONST, index, 0));
    case FloatConst(bits) =>
      index := cp.AddFloat64(bits);
      return Some(EncodedConstant(FLOAT_CONST, index, 0));
    case TextConst(s) =>
      index := cp.AddString(s);
      return Some(EncodedConstant(STRING_CONST, index, 0));
    case RuneConst(ch) =>
      index := cp.AddInt32(ch);
      return Some(EncodedConstant(RUNE_CONST, index, 0));
    case BoolConst(b) =>
      index := cp.AddInt32(if b then 1 else 0);
      return Some(EncodedConstant(BOOL_CONST, index, 0));
    case FunctionConst(f) => return Some(EncodedConstant(FUNCTION_REF, 0, FunctionNumber(f, fi)));
    case ClassConst(k) => return Some(EncodedConstant(CLASS_REF, 0, ClassNumber(k, ci)));
    case UnsupportedConst => return None;
  }

  lemma StandsKept(e: EncodedConstant, c: Constant, before: seq<Entry>, after: seq<Entry>, fi: Functions, ci: Classes)
    requires Stands(e, c, before, fi, ci) && Extends(after, before)
    ensures Stands(e, c, after, fi, ci)
  {
    if EntryAt(before, e.cpIndex).Some? { LookupsKept(before, after, e.cpIndex); }
  }

  predicate AllStand(r: seq<EncodedConstant>, cs: seq<Constant>, es: seq<Entry>, fi: Functions, ci: Classes) {
    |r| == |cs| && forall k :: 0 <= k < |r| ==> Stands(r[k], cs[k], es, fi, ci)
  }

  lemma AllStandKept(
    r: seq<EncodedConstant>, cs: seq<Constant>, before: seq<Entry>, after: seq<Entry>, fi: Functions, ci: Classes)
    requires AllStand(r, cs, before, fi, ci) && Extends(after, before)
    ensures AllStand(r, cs, after, fi, ci)
  {
    forall k | 0 <= k < |r| ensures Stands(r[k], cs[k], after, fi, ci) {
      StandsKept(r[k], cs[k], before, after, fi, ci);
    }
  }

  predicate Supported(cs: seq<Constant>) { forall k :: 0 <= k < |cs| ==> !cs[k].UnsupportedConst? }

  method EncodeConstants(cs: seq<Constant>, cp: CpBuilder, fi: Functions, ci: Classes)
    returns (r: Option<seq<EncodedConstant>>)
    requires cp.Valid()
    modifies cp
    ensures cp.Valid() && Extends(cp.entries, old(cp.entries)) && cp.attributeNames == old(cp.attributeNames)
    ensures r.Some? <==> Supported(cs)
    ensures r.Some? && |cp.entries| <= LAST_INDEX ==> AllStand(r.value, cs, cp.entries, fi, ci)
  {
    hide Stands;
    var encoded: seq<EncodedConstant> := [];
    for k := 0 to |cs|
      invariant cp.Valid() && Extends(cp.entries, old(cp.entries)) && cp.attributeNames == old(cp.attributeNames)
      invariant |encoded| == k && Supported(cs[..k])
      invariant |cp.entries| <= LAST_INDEX ==> AllStand(encoded, cs[..k], cp.entries, fi, ci)
    {
      ghost var before := cp.entries;
      var e := EncodeConstant(cs[k], cp, fi, ci);
      if e.None? { return None; }
      if |cp.entries| <= LAST_INDEX { AllStandKept(encoded, cs[..k], before, cp.entries, fi, ci); }
      encoded := encoded + [e.value];
      assert cs[..k + 1] == cs[..k] + [cs[k]];
    }
    assert cs[..|cs|] == cs;
    return Some(encoded);
  }

  // ----------------------------------------------------------------- methods

  /** What the file says of a function, but for the names of attributes. A
      function without a chunk is written with none of code, lines and
      constants. */
  ghost predicate Written(m: MethodInfo, f: Function, es: seq<Entry>, fi: Functions, ci: Classes)
    reads f
  {
    Utf8At(es, m.name) == Some(MethodName(f.name)) && Utf8At(es, m.descriptor) == Some(f.descriptor) &&
    m.upvalues == f.upvalues && m.maxLocals == f.maxLocals % U16 && m.declared == f.declared &&
    var chunk := if f.chunk.Some? then f.chunk.value else Chunk([], [], []);
    m.code == chunk.code && m.lines == Wire(Runs(chunk.lines, 0)) && AllStand(m.constants, chunk.constants, es, fi, ci)
  }

  lemma WrittenKept(m: MethodInfo, f: Function, before: seq<Entry>, after: seq<Entry>, fi: Functions, ci: Classes)
    requires Written(m, f, before, fi, ci) && Extends(after, before)
    ensures Written(m, f, after, fi, ci)
  {
    LookupsKept(before, after, m.name);
    LookupsKept(before, after, m.descriptor);
    AllStandKept(m.constants, if f.chunk.Some? then f.chunk.value.constants else [], before, after, fi, ci);
  }

  ghost predicate SupportedFunction(f: Function)
    reads f
  {
    f.chunk.Some? ==> Supported(f.chunk.value.constants)
  }

  method EncodeMethod(f: Function, cp: CpBuilder, fi: Functions, ci: Classes) returns (r: Option<MethodInfo>)
    requires cp.Valid()
    modifies cp
    ensures cp.Valid() && Extends(cp.entries, old(cp.entries)) && cp.attributeNames == old(cp.attributeNames)
    ensures r.Some? <==> SupportedFunction(f)
    ensures r.Some? && |cp.entries| <= LAST_INDEX ==> Written(r.value, f, cp.entries, fi, ci)
  {
    hide AllStand, Stands, Runs, Wire, Supported, Utf8At, Tables, Paired;
    var name := cp.AddUtf8(MethodName(f.name));
    ghost var es := cp.entries;
    var descriptor := cp.AddUtf8(f.descriptor);
    ghost var mid := cp.entries;
    var chunk := if f.chunk.Some? then f.chunk.value else Chunk([], [], []);
    var encoded := EncodeConstants(chunk.constants, cp, fi, ci);
    NothingUnsupported();
    if encoded.None? { return None; }
    var entries := CompactLines(chunk.lines);
    r := Some(MethodInfo(name, descriptor, f.upvalues, f.maxLocals % U16, chunk.code, Wire(entries), encoded.value,
                         0, 0, 0, f.declared));
    if |cp.entries| <= LAST_INDEX {
      NameKept(es, cp.entries, name, MethodName(f.name));
      NameKept(mid, cp.entries, descriptor, f.descriptor);
    }
  }

  lemma NothingUnsupported()
    ensures Supported([])
  {
  }

  lemma NameKept(before: seq<Entry>, after: seq<Entry>, index: CpIndex, v: Text)
    requires Extends(after, before) && Utf8At(before, index) == Some(v)
    ensures Utf8At(after, index) == Some(v)
  {
  }

  // ----------------------------------------------------------------- classes

  function EncodeClass(c: Class, fi: Functions, ci: Classes): ClassInfo
    reads c
  {
    ClassInfo(ClassNumber(c, ci), c.name, ClassNumber(c.superclass, ci),
              BindingNumbers(c.methods, fi), OverloadNumbers(c.methodOverloads, fi),
              BindingNumbers(c.staticMethods, fi), OverloadNumbers(c.staticMethodOverloads, fi),
              FunctionNumber(c.construct, fi), FunctionNumbers(c.constructorOverloads, fi),
              SpecialNumbers(c.specialMethods, fi), c.methodOrder, c.rest)
  }

  /** The special methods are in slots that fit a byte. */
  predicate ByteSlots(c: ClassInfo) { forall k :: k in c.specialMethods ==> k < 256 }

  lemma SlotsAreBytes(c: Class, fi: Functions, ci: Classes)
    ensures ByteSlots(EncodeClass(c, fi, ci))
  {
    hide BindingNumbers, OverloadNumbers, FunctionNumbers;
  }

  // ------------------------------------------------------------------ module

  predicate Named(m: MethodInfo, es: seq<Entry>) {
    Utf8At(es, m.codeName) == Some(CODE) && Utf8At(es, m.linesName) == Some(LINE_NUMBER_TABLE) &&
    Utf8At(es, m.metaName) == Some(POLYLOFT_METHOD)
  }

  predicate OnlyNamed(r: MethodInfo, m: MethodInfo) {
    r == m.(codeName := r.codeName, linesName := r.linesName, metaName := r.metaName)
  }

  /** The file holds those functions and classes, in order. */
  ghost predicate Holding(
    file: ModuleFile, es: seq<Entry>, fs: seq<Function>, cs: seq<Class>, fi: Functions, ci: Classes)
    reads fs, cs
  {
    |file.methods| == |fs| && |file.classes| == |cs| &&
    (forall k :: 0 <= k < |fs| ==> Written(file.methods[k], fs[k], es, fi, ci) && Named(file.methods[k], es)) &&
    (forall k :: 0 <= k < |cs| ==> file.classes[k] == EncodeClass(cs[k], fi, ci))
  }

  method EncodeMethods(fs: seq<Function>, cp: CpBuilder, fi: Functions, ci: Classes)
    returns (r: Option<seq<MethodInfo>>)
    requires cp.Valid()
    modifies cp
    ensures cp.Valid() && Extends(cp.entries, old(cp.entries)) && cp.attributeNames == old(cp.attributeNames)
    ensures r.Some? <==> forall k :: 0 <= k < |fs| ==> SupportedFunction(fs[k])
    ensures r.Some? && |cp.entries| <= LAST_INDEX ==>
              |r.value| == |fs| && forall k :: 0 <= k < |fs| ==> Written(r.value[k], fs[k], cp.entries, fi, ci)
  {
    hide Written, SupportedFunction;
    var methods: seq<MethodInfo> := [];
    for k := 0 to |fs|
      invariant cp.Valid() && Extends(cp.entries, old(cp.entries)) && cp.attributeNames == old(cp.attributeNames)
      invariant |methods| == k && forall j :: 0 <= j < k ==> SupportedFunction(fs[j])
      invariant |cp.entries| <= LAST_INDEX ==>
                  forall j :: 0 <= j < k ==> Written(methods[j], fs[j], cp.entries, fi, ci)
    {
      ghost var before := cp.entries;
      var m := EncodeMethod(fs[k], cp, fi, ci);
      if m.None? { return None; }
      if |cp.entries| <= LAST_INDEX {
        forall j | 0 <= j < k ensures Written(methods[j], fs[j], cp.entries, fi, ci) {
          WrittenKept(methods[j], fs[j], before, cp.entries, fi, ci);
        }
      }
      methods := methods + [m.value];
    }
    return Some(methods);
  }

  /** The names that are looked up after the pool has been written. */
  predicate Interned(names: map<Text, CpIndex>) {
    CODE in names && LINE_NUMBER_TABLE in names && POLYLOFT_METHOD in names && POLYLOFT_MODULE in names &&
    POLYLOFT_CLASSES in names && POLYLOFT_METADATA in names
  }

  method InternNames(cp: CpBuilder)
    requires cp.Valid()
    modifies cp
    ensures cp.Valid() && Interned(cp.attributeNames)
  {
    hide Tables, Paired, EntryAt;
    var i := cp.AttributeName(CODE);
    i := cp.AttributeName(LINE_NUMBER_TABLE);
    i := cp.AttributeName(POLYLOFT_METHOD);
    i := cp.AttributeName(POLYLOFT_MODULE);
    i := cp.AttributeName(POLYLOFT_CLASSES);
    i := cp.AttributeName(POLYLOFT_METADATA);
  }

  predicate FileNamed(names: FileNames, es: seq<Entry>) {
    Utf8At(es, names.entry) == Some(POLYLOFT_MODULE) && Utf8At(es, names.classes) == Some(POLYLOFT_CLASSES) &&
    Utf8At(es, names.metadata) == Some(POLYLOFT_METADATA)
  }

  method NameFile(cp: CpBuilder) returns (names: FileNames)
    requires cp.Valid() && Interned(cp.attributeNames)
    modifies cp
    ensures cp.Valid() && cp.entries == old(cp.entries)
    ensures |cp.entries| <= LAST_INDEX ==> FileNamed(names, cp.entries)
  {
    hide Tables, Paired, EntryAt;
    var entryName := cp.AttributeName(POLYLOFT_MODULE);
    var classesName := cp.AttributeName(POLYLOFT_CLASSES);
    var metadataName := cp.AttributeName(POLYLOFT_METADATA);
    names := FileNames(entryName, classesName, metadataName);
  }

  /** The methods get the names of their attributes while they are written,
      after the pool: that adds nothing to the pool. */
  method WriteMethods(methods: seq<MethodInfo>, cp: CpBuilder) returns (r: seq<MethodInfo>)
    requires cp.Valid() && Interned(cp.attributeNames)
    modifies cp
    ensures cp.Valid() && cp.entries == old(cp.entries) && |r| == |methods| && Interned(cp.attributeNames)
    ensures forall k :: 0 <= k < |r| ==> OnlyNamed(r[k], methods[k])
    ensures |cp.entries| <= LAST_INDEX ==> forall k :: 0 <= k < |r| ==> Named(r[k], cp.entries)
  {
    hide Tables, Paired, EntryAt;
    r := [];
    for k := 0 to |methods|
      invariant cp.Valid() && cp.entries == old(cp.entries) && |r| == k
      invariant Interned(cp.attributeNames)
      invariant forall j :: 0 <= j < k ==> OnlyNamed(r[j], methods[j])
      invariant |cp.entries| <= LAST_INDEX ==> forall j :: 0 <= j < k ==> Named(r[j], cp.entries)
    {
      var linesName := cp.AttributeName(LINE_NUMBER_TABLE);
      var codeName := cp.AttributeName(CODE);
      var metaName := cp.AttributeName(POLYLOFT_METHOD);
      r := r + [methods[k].(codeName := codeName, linesName := linesName, metaName := metaName)];
    }
  }

  method EncodeClasses(cs: seq<Class>, fi: Functions, ci: Classes) returns (r: seq<ClassInfo>)
    ensures |r| == |cs| && forall k :: 0 <= k < |cs| ==> r[k] == EncodeClass(cs[k], fi, ci) && ByteSlots(r[k])
  {
    hide EncodeClass, ByteSlots;
    r := [];
    for k := 0 to |cs|
      invariant |r| == k && forall j :: 0 <= j < k ==> r[j] == EncodeClass(cs[j], fi, ci) && ByteSlots(r[j])
    {
      SlotsAreBytes(cs[k], fi, ci);
      r := r + [EncodeClass(cs[k], fi, ci)];
    }
  }

  /** Writing a module: nothing is written exactly when a reachable function has
      a constant that cannot be stored, or a string is too long. Otherwise the
      file holds exactly the reachable functions and classes, and its pool is
      the final one. */
  method WriteModule(entry: Function, internalName: Text, ghost all: Nodes)
    returns (file: Option<ModuleFile>, numbering: Numbering, cp: CpBuilder)
    requires Closed(all) && entry in all.fs
    ensures fresh(numbering) && fresh(cp) && numbering.Valid() && Paired(cp.entries)
    ensures numbering.Seen() == Reach(entry, all) && Closed(numbering.Seen())
    ensures file.Some? <==>
              (forall k :: 0 <= k < |numbering.functions| ==> SupportedFunction(numbering.functions[k])) &&
              PoolBytes(cp.entries).Some?
    ensures file.Some? ==>
              PoolBytes(cp.entries) == Some(file.value.pool) && entry in numbering.functionIndex &&
              file.value.entry == numbering.functionIndex[entry]
    ensures file.Some? && |cp.entries| <= LAST_INDEX ==>
              Holding(file.value, cp.entries, numbering.functions, numbering.classes,
                      numbering.functionIndex, numbering.classIndex)
    ensures file.Some? && |cp.entries| <= LAST_INDEX ==> FileNamed(file.value.names, cp.entries)
    ensures file.Some? ==> forall k :: 0 <= k < |file.value.classes| ==> ByteSlots(file.value.classes[k])
  {
    hide Holding, SupportedFunction, PoolBytes, Reach, Closed, Tables, Numbered, Included, Paired, Interned, FileNamed,
         ByteSlots;
    cp := new CpBuilder();
    InternNames(cp);
    numbering := new Numbering();
    numbering.CollectReachable(entry, all);
    file := WriteNumbered(entry, internalName, numbering, cp);
  }

  method WriteNumbered(entry: Function, internalName: Text, numbering: Numbering, cp: CpBuilder)
    returns (file: Option<ModuleFile>)
    requires entry in numbering.functionIndex && cp.Valid() && Interned(cp.attributeNames)
    modifies cp
    ensures Paired(cp.entries)
    ensures file.Some? <==>
              (forall k :: 0 <= k < |numbering.functions| ==> SupportedFunction(numbering.functions[k])) &&
              PoolBytes(cp.entries).Some?
    ensures file.Some? ==>
              PoolBytes(cp.entries) == Some(file.value.pool) && file.value.entry == numbering.functionIndex[entry]
    ensures file.Some? && |cp.entries| <= LAST_INDEX ==>
              Holding(file.value, cp.entries, numbering.functions, numbering.classes,
                      numbering.functionIndex, numbering.classIndex)
    ensures file.Some? && |cp.entries| <= LAST_INDEX ==> FileNamed(file.value.names, cp.entries)
    ensures file.Some? ==> forall k :: 0 <= k < |file.value.classes| ==> ByteSlots(file.value.classes[k])
  {
    hide Written, SupportedFunction, EncodeClass, PoolBytes, Tables, Utf8At, Paired, Interned, FileNamed, ByteSlots;
    var fs, fi, ci := numbering.functions, numbering.functionIndex, numbering.classIndex;
    var methods := EncodeMethods(fs, cp, fi, ci);
    var classes := EncodeClasses(numbering.classes, fi, ci);
    ghost var before := cp.entries;
    var thisClass := cp.AddClass(internalName);
    var pool := PoolCodec.WriteCP(cp.entries);
    if methods.None? || pool.None? { return None; }
    if |cp.entries| <= LAST_INDEX { AllWrittenKept(methods.value, fs, before, cp.entries, fi, ci); }
    var named := WriteMethods(methods.value, cp);
    var names := NameFile(cp);
    file := Some(ModuleFile(pool.value, thisClass, named, classes, fi[entry], names));
    if |cp.entries| <= LAST_INDEX { NamedWritten(named, methods.value, fs, cp.entries, fi, ci); }
  }

  lemma AllWrittenKept(
    ms: seq<MethodInfo>, fs: seq<Function>, before: seq<Entry>, after: seq<Entry>, fi: Functions, ci: Classes)
    requires Extends(after, before) && |ms| == |fs|
    requires forall k :: 0 <= k < |fs| ==> Written(ms[k], fs[k], before, fi, ci)
    ensures forall k :: 0 <= k < |fs| ==> Written(ms[k], fs[k], after, fi, ci)
  {
    hide Written;
    forall k | 0 <= k < |fs| ensures Written(ms[k], fs[k], after, fi, ci) {
      WrittenKept(ms[k], fs[k], before, after, fi, ci);
    }
  }

  lemma NamedWritten(
    r: seq<MethodInfo>, ms: seq<MethodInfo>, fs: seq<Function>, es: seq<Entry>, fi: Functions, ci: Classes)
    requires |ms| == |fs| == |r| && forall k :: 0 <= k < |fs| ==> Written(ms[k], fs[k], es, fi, ci)
    requires forall k :: 0 <= k < |fs| ==> OnlyNamed(r[k], ms[k])
    ensures forall k :: 0 <= k < |fs| ==> Written(r[k], fs[k], es, fi, ci)
  {
    forall k | 0 <= k < |fs| ensures Written(r[k], fs[k], es, fi, ci) {
      WrittenSame(r[k], ms[k], fs[k], es, fi, ci);
    }
  }

  lemma WrittenSame(r: MethodInfo, m: MethodInfo, f: Function, es: seq<Entry>, fi: Functions, ci: Classes)
    requires Written(m, f, es, fi, ci) && OnlyNamed(r, m)
    ensures Written(r, f, es, fi, ci)
  {
    hide AllStand, Runs, Wire, Utf8At;
  }
}
