/** A module that is written and read back is the reachable part of the graph,
    with every function and class renamed to the new one of its number. */
module ModuleRoundTrips {
  import opened Options
  import opened Machine
  import opened ConstantPools
  import opened Spelling
  import opened PoolBuilders
  import opened LineTables
  import opened ModuleGraphs
  import opened ModuleCodecs
  import opened ModuleReaders
  import opened Sections
  import opened ClassFiles
  import opened ModuleFiles

  /** The renaming. */
  datatype Names = Names(fi: Functions, ci: Classes, fs: seq<Function>, cs: ClassesById)

  /** Every number belongs to a new function or class; 0 does not. */
  predicate Covers(n: Names) {
    0 !in n.cs && (forall f :: f in n.fi ==> 1 <= n.fi[f] <= |n.fs|) && (forall c :: c in n.ci ==> n.ci[c] in n.cs)
  }

  predicate SameF(f: Function?, g: Function?, n: Names) {
    if f == null then g == null else f in n.fi && 1 <= n.fi[f] <= |n.fs| && g == n.fs[n.fi[f] - 1]
  }

  predicate SameC(c: Class?, d: Class?, n: Names) {
    if c == null then d == null else c in n.ci && n.ci[c] in n.cs && d == n.cs[n.ci[c]]
  }

  predicate SameConstant(a: Constant, b: Constant, n: Names) {
    match a
    case FunctionConst(f) => b.FunctionConst? && SameF(f, b.f, n)
    case ClassConst(c) => b.ClassConst? && SameC(c, b.c, n)
    case _ => b == a
  }

  /** The function that comes back: always with a chunk; one without a name is
      called <script>. */
  ghost predicate SameFunction(f: Function, g: Function, n: Names)
    reads f, g
  {
    (f.name != [] ==> g.name == f.name) && (f.name == [] ==> g.name == [60, 115, 99, 114, 105, 112, 116, 62]) &&
    g.descriptor == f.descriptor && g.upvalues == f.upvalues &&
    g.maxLocals == f.maxLocals % U16 && g.declared == f.declared && g.chunk.Some? &&
    var a, b := if f.chunk.Some? then f.chunk.value else Chunk([], [], []), g.chunk.value;
    b.code == a.code && (LinesFit(a.lines) && |a.lines| == |a.code| ==> b.lines == a.lines) &&
    |b.constants| == |a.constants| &&
    forall k :: 0 <= k < |a.constants| ==> SameConstant(a.constants[k], b.constants[k], n)
  }

  function NonNull(fs: seq<Function?>): (r: seq<Function>)
    ensures fs == [] ==> r == []
  {
    if fs == [] then [] else (if fs[0] == null then [] else [fs[0]]) + NonNull(fs[1..])
  }

  /** Overloads come back without the absent ones. */
  predicate SameList(a: seq<Function?>, b: seq<Function?>, n: Names) {
    |b| == |NonNull(a)| && forall k :: 0 <= k < |b| ==> SameF(NonNull(a)[k], b[k], n)
  }

  predicate SameBindings(a: Bindings, b: Bindings, n: Names) {
    b.Keys == a.Keys && forall k :: k in a ==> SameF(a[k], b[k], n)
  }

  predicate SameOverloads(a: Overloads, b: Overloads, n: Names) {
    b.Keys == a.Keys && forall k :: k in a ==> SameList(a[k], b[k], n)
  }

  /** The special methods in the ten slots there are. */
  ghost predicate SameSpecials(a: map<nat, Function?>, b: map<nat, Function?>, n: Names) {
    (forall k :: k in b <==> k in a && k < 10 && a[k] != null) &&
    (forall k :: k in b ==> SameF(a[k], b[k], n))
  }

  ghost predicate SameClass(c: Class, d: Class, n: Names)
    reads c, d
  {
    d.name == c.name && SameC(c.superclass, d.superclass, n) &&
    SameBindings(c.methods, d.methods, n) && SameOverloads(c.methodOverloads, d.methodOverloads, n) &&
    SameBindings(c.staticMethods, d.staticMethods, n) &&
    SameOverloads(c.staticMethodOverloads, d.staticMethodOverloads, n) &&
    SameF(c.construct, d.construct, n) && SameList(c.constructorOverloads, d.constructorOverloads, n) &&
    SameSpecials(c.specialMethods, d.specialMethods, n) && d.methodOrder == c.methodOrder && d.rest == c.rest &&
    (Laid(c) ==> d.methodIndex == c.methodIndex && SameTable(c.methodTable, d.methodTable, n))
  }

  /** The slots of a class are in order: what ClassLayout proves of the layout
      that the compiler makes. */
  ghost predicate Laid(c: Class)
    reads c
  {
    (forall k :: 0 <= k < |c.methodOrder| ==> c.methodOrder[k] in c.methodIndex && c.methodIndex[c.methodOrder[k]] == k) &&
    (forall x :: x in c.methodIndex ==> c.methodIndex[x] < |c.methodOrder| && c.methodOrder[c.methodIndex[x]] == x) &&
    |c.methodTable| == |c.methodOrder| &&
    forall x :: x in c.methodIndex ==> x in c.methods && c.methodTable[c.methodIndex[x]] == c.methods[x]
  }

  predicate SameTable(a: seq<Function?>, b: seq<Function?>, n: Names) {
    |b| == |a| && forall k :: 0 <= k < |a| ==> SameF(a[k], b[k], n)
  }

  // ------------------------------------------------------------ single parts

  function Known(n: Names): Nodes { Nodes(n.fi.Keys, n.ci.Keys) }

  lemma NumberBack(f: Function?, n: Names)
    requires Covers(n) && InF(f, Known(n))
    ensures SameF(f, FunctionAt(n.fs, FunctionNumber(f, n.fi)), n)
  {
  }

  lemma ConstantBack(e: EncodedConstant, c: Constant, es: seq<Entry>, n: Names)
    requires Covers(n) && ConstantIn(c, Known(n)) && Stands(e, c, es, n.fi, n.ci)
    ensures SameConstant(c, DecodeConstant(e, es, n.fs, n.cs), n)
  {
    hide LongAt, DoubleAt, StringAt, IntegerAt;
  }

  lemma {:induction false} ListBack(fs: seq<Function?>, n: Names)
    requires Covers(n) && AllIn(fs, Known(n))
    ensures SameList(fs, FunctionsAt(n.fs, FunctionNumbers(fs, n.fi)), n)
  {
    if fs != [] {
      ListBack(fs[1..], n);
      NumberBack(fs[0], n);
      if fs[0] != null {
        var ids := FunctionNumbers(fs, n.fi);
        assert ids[1..] == FunctionNumbers(fs[1..], n.fi);
      } else {
        assert FunctionNumbers(fs, n.fi) == FunctionNumbers(fs[1..], n.fi);
        assert NonNull(fs) == NonNull(fs[1..]);
      }
    }
  }

  lemma BindingsBack(m: Bindings, n: Names)
    requires Covers(n) && BoundIn(m, Known(n))
    ensures SameBindings(m, BindingsAt(n.fs, BindingNumbers(m, n.fi)), n)
  {
    forall k | k in m ensures SameF(m[k], FunctionAt(n.fs, FunctionNumber(m[k], n.fi)), n) { NumberBack(m[k], n); }
  }

  lemma SpecialsBack(m: map<nat, Function?>, n: Names)
    requires Covers(n) && BoundIn(m, Known(n))
    ensures SameSpecials(m, BindingsAt(n.fs, SpecialNumbers(m, n.fi)), n)
  {
    forall k | k in m ensures SameF(m[k], FunctionAt(n.fs, FunctionNumber(m[k], n.fi)), n) { NumberBack(m[k], n); }
  }

  lemma OverloadsBack(m: Overloads, n: Names)
    requires Covers(n) && OverloadsIn(m, Known(n))
    ensures SameOverloads(m, OverloadsAt(n.fs, OverloadNumbers(m, n.fi)), n)
  {
    hide SameList, FunctionsAt, FunctionNumbers, AllIn;
    forall k | k in m ensures SameList(m[k], FunctionsAt(n.fs, FunctionNumbers(m[k], n.fi)), n) { ListBack(m[k], n); }
  }

  lemma FunctionBack(m: MethodInfo, f: Function, g: Function, es: seq<Entry>, n: Names)
    requires Covers(n) && FunctionIn(f, Known(n)) && Written(m, f, es, n.fi, n.ci) && Named(m, es)
    requires ReadMethod(m, es).Some? && Rebuilt(g, ReadMethod(m, es).value, es, n.fs, n.cs)
    ensures SameFunction(f, g, n)
  {
    hide Stands, DecodeConstant, SameConstant, ConstantIn, LinesFit, Runs, Wire, Expand, Utf8At;
    var a := if f.chunk.Some? then f.chunk.value else Chunk([], [], []);
    forall k | 0 <= k < |a.constants|
      ensures SameConstant(a.constants[k], DecodeConstant(m.constants[k], es, n.fs, n.cs), n)
    {
      ConstantBack(m.constants[k], a.constants[k], es, n);
    }
    if LinesFit(a.lines) && |a.lines| == |a.code| { LinesRoundTrip(a.lines); }
  }

  lemma ReadsBack(m: MethodInfo, f: Function, es: seq<Entry>, fi: Functions, ci: Classes)
    requires Written(m, f, es, fi, ci) && Named(m, es)
    ensures ReadMethod(m, es).Some?
  {
  }

  /** The slots that are rebuilt are the class's own. */
  lemma SlotsBack(c: Class, d: Class, n: Names)
    requires Laid(c) && SameBindings(c.methods, d.methods, n)
    requires d.methodIndex == Positions(c.methodOrder) && d.methodTable == TableOf(c.methodOrder, d.methods)
    ensures d.methodIndex == c.methodIndex && SameTable(c.methodTable, d.methodTable, n)
  {
    hide SameF;
    forall x | x in d.methodIndex ensures x in c.methodIndex && c.methodIndex[x] == d.methodIndex[x] {
      assert c.methodOrder[d.methodIndex[x]] == x;
    }
    assert d.methodIndex == c.methodIndex;
    forall k | 0 <= k < |c.methodTable| ensures SameF(c.methodTable[k], d.methodTable[k], n) {
      var x := c.methodOrder[k];
      assert x in c.methodIndex && c.methodIndex[x] == k;
      assert SameF(c.methods[x], d.methods[x], n);
    }
  }

  lemma ClassBack(c: Class, d: Class, n: Names)
    requires Covers(n) && ClassIn(c, Known(n)) && RebuiltClass(d, EncodeClass(c, n.fi, n.ci), n.fs, n.cs)
    ensures SameClass(c, d, n)
  {
    hide SameList, FunctionsAt, FunctionNumbers, AllIn, SameBindings, SameOverloads, SameSpecials, BoundIn,
         OverloadsIn, BindingsAt, OverloadsAt, BindingNumbers, OverloadNumbers, SpecialNumbers, Positions, TableOf,
         Laid, SameTable;
    BindingsBack(c.methods, n);
    BindingsBack(c.staticMethods, n);
    OverloadsBack(c.methodOverloads, n);
    OverloadsBack(c.staticMethodOverloads, n);
    ListBack(c.constructorOverloads, n);
    SpecialsBack(c.specialMethods, n);
    NumberBack(c.construct, n);
    if Laid(c) { SlotsBack(c, d, n); }
  }

  // ------------------------------------------------------------------ module

  /** Numbers do not wrap: at most 65535 of each kind. */
  lemma NumberIs<T>(list: seq<T>, index: map<T, CpIndex>, x: T)
    requires Numbered(list, index) && x in index && |list| < U16
    ensures 1 <= index[x] <= |list| && list[index[x] - 1] == x
  {
    assert x in list;
    var k :| 0 <= k < |list| && list[k] == x;
  }

  lemma AllNumbers<T>(list: seq<T>, index: map<T, CpIndex>)
    requires Numbered(list, index) && |list| < U16
    ensures forall x :: x in index ==> 1 <= index[x] <= |list|
    ensures forall k :: 0 <= k < |list| ==> list[k] in index && index[list[k]] == k + 1
  {
    forall x | x in index ensures 1 <= index[x] <= |list| { NumberIs(list, index, x); }
  }

  /** The new functions and classes, in order of number, are the old ones, each
      with its own copy. */
  ghost predicate Renamed(functions: seq<Function>, classes: seq<Class>, r: Loaded, n: Names)
    reads functions, classes, r.fs, set i | i in r.cs :: r.cs[i]
  {
    n.fs == r.fs && n.cs == r.cs && |functions| < U16 && |classes| < U16 && |r.fs| == |functions| && Distinct(r.fs) &&
    (forall i, j :: i in r.cs && j in r.cs && i != j ==> r.cs[i] != r.cs[j]) &&
    (forall i :: i in r.cs <==> 1 <= i <= |classes|) &&
    (forall k :: 0 <= k < |functions| ==>
       functions[k] in n.fi && n.fi[functions[k]] == k + 1 && SameFunction(functions[k], r.fs[k], n)) &&
    (forall k :: 0 <= k < |classes| ==>
       classes[k] in n.ci && n.ci[classes[k]] == k + 1 && SameClass(classes[k], r.cs[k + 1], n))
  }

  lemma AllBack(file: ModuleFile, es: seq<Entry>, m: Numbering, r: Loaded)
    requires m.Valid() && Closed(m.Seen()) && |m.functions| < U16 && |m.classes| < U16
    requires Holding(file, es, m.functions, m.classes, m.functionIndex, m.classIndex)
    requires Restored(file, es, r)
    ensures Renamed(m.functions, m.classes, r, Names(m.functionIndex, m.classIndex, r.fs, r.cs))
  {
    hide Holding, Restored, Numbered, Closed, Covers, SameFunction, SameClass, Distinct;
    var n := Names(m.functionIndex, m.classIndex, r.fs, r.cs);
    FunctionsBack(file, es, m, r, n);
    ClassesBack(file, es, m, r, n);
    AllCovered(file, es, m, r);
    AllNumbers(m.functions, m.functionIndex);
    AllNumbers(m.classes, m.classIndex);
    DistinctRead(file, es, r);
  }

  lemma DistinctRead(file: ModuleFile, es: seq<Entry>, r: Loaded)
    requires Restored(file, es, r)
    ensures Distinct(r.fs) && forall i, j :: i in r.cs && j in r.cs && i != j ==> r.cs[i] != r.cs[j]
  {
  }

  lemma FunctionsBack(file: ModuleFile, es: seq<Entry>, m: Numbering, r: Loaded, n: Names)
    requires m.Valid() && Closed(m.Seen()) && |m.functions| < U16 && |m.classes| < U16
    requires Holding(file, es, m.functions, m.classes, m.functionIndex, m.classIndex) && Restored(file, es, r)
    requires n == Names(m.functionIndex, m.classIndex, r.fs, r.cs)
    ensures |r.fs| == |m.functions| && forall k :: 0 <= k < |m.functions| ==> SameFunction(m.functions[k], r.fs[k], n)
  {
    AllCovered(file, es, m, r);
    AllNumbers(m.functions, m.functionIndex);
    hide Written, Named, Rebuilt, RebuiltClass, SameFunction, FunctionIn, ClassIn, ReadMethod, Numbered, Covers,
      EncodeClass, Distinct, DistinctIds;
    assert Known(n) == m.Seen();
    forall k | 0 <= k < |m.functions| ensures SameFunction(m.functions[k], r.fs[k], n) {
      assert m.functions[k] in m.Seen().fs;
      FunctionBack(file.methods[k], m.functions[k], r.fs[k], es, n);
    }
  }

  lemma ClassesBack(file: ModuleFile, es: seq<Entry>, m: Numbering, r: Loaded, n: Names)
    requires m.Valid() && Closed(m.Seen()) && |m.functions| < U16 && |m.classes| < U16
    requires Holding(file, es, m.functions, m.classes, m.functionIndex, m.classIndex) && Restored(file, es, r)
    requires n == Names(m.functionIndex, m.classIndex, r.fs, r.cs)
    ensures forall k :: 0 <= k < |m.classes| ==> k + 1 in r.cs && SameClass(m.classes[k], r.cs[k + 1], n)
  {
    AllCovered(file, es, m, r);
    AllNumbers(m.classes, m.classIndex);
    IdsKnown(file, es, m);
    hide Written, Named, Rebuilt, RebuiltClass, SameClass, FunctionIn, ClassIn, ReadMethod, Numbered, Covers,
      EncodeClass, Distinct, DistinctIds;
    assert Known(n) == m.Seen();
    forall k | 0 <= k < |m.classes| ensures SameClass(m.classes[k], r.cs[k + 1], n) {
      assert m.classes[k] in m.Seen().cs && file.classes[k].id == k + 1;
      ClassBack(m.classes[k], r.cs[k + 1], n);
    }
  }

  /** The classes of the file have the identities 1, 2, ... */
  lemma IdsKnown(file: ModuleFile, es: seq<Entry>, m: Numbering)
    requires m.Valid() && |m.classes| < U16
    requires Holding(file, es, m.functions, m.classes, m.functionIndex, m.classIndex)
    ensures |file.classes| == |m.classes| && |file.methods| == |m.functions| && DistinctIds(file.classes)
    ensures forall k :: 0 <= k < |m.classes| ==> file.classes[k].id == k + 1
  {
    forall k | 0 <= k < |m.classes| ensures file.classes[k].id == k + 1 {
      assert m.classes[k] in m.classIndex && m.classIndex[m.classes[k]] == k + 1;
    }
  }

  lemma AllCovered(file: ModuleFile, es: seq<Entry>, m: Numbering, r: Loaded)
    requires m.Valid() && |m.functions| < U16 && |m.classes| < U16
    requires Holding(file, es, m.functions, m.classes, m.functionIndex, m.classIndex) && Restored(file, es, r)
    ensures Covers(Names(m.functionIndex, m.classIndex, r.fs, r.cs))
    ensures forall i :: i in r.cs <==> 1 <= i <= |m.classes|
  {
    hide Holding, Restored, Numbered;
    IdsKnown(file, es, m);
    IdsRead(file, es, m, r);
    AllNumbers(m.functions, m.functionIndex);
    AllNumbers(m.classes, m.classIndex);
  }

  /** The new classes have the identities of the file. */
  lemma IdsRead(file: ModuleFile, es: seq<Entry>, m: Numbering, r: Loaded)
    requires Restored(file, es, r) && |file.classes| == |m.classes| && |file.methods| == |m.functions|
    requires forall k :: 0 <= k < |m.classes| ==> file.classes[k].id == k + 1
    ensures |r.fs| == |m.functions| && forall i :: i in r.cs <==> 1 <= i <= |m.classes|
  {
    hide Rebuilt, RebuiltClass, ReadMethod, Distinct, DistinctIds;
    forall i | 1 <= i <= |m.classes| ensures i in r.cs { assert file.classes[i - 1].id == i; }
  }

  /** The new functions and classes are those of the file. */
  ghost predicate Restored(file: ModuleFile, es: seq<Entry>, r: Loaded)
    reads r.fs, set i | i in r.cs :: r.cs[i]
  {
    |r.fs| == |file.methods| && r.entry == FunctionAt(r.fs, file.entry) && Distinct(r.fs) &&
    (forall i, j :: i in r.cs && j in r.cs && i != j ==> r.cs[i] != r.cs[j]) &&
    (forall k :: 0 <= k < |r.fs| ==>
       ReadMethod(file.methods[k], es).Some? &&
       Rebuilt(r.fs[k], ReadMethod(file.methods[k], es).value, es, r.fs, r.cs)) &&
    (forall k :: 0 <= k < |file.classes| ==> file.classes[k].id in r.cs) &&
    (forall i :: i in r.cs ==> exists k :: 0 <= k < |file.classes| && file.classes[k].id == i) &&
    (DistinctIds(file.classes) ==>
       forall k :: 0 <= k < |file.classes| ==> RebuiltClass(r.cs[file.classes[k].id], file.classes[k], r.fs, r.cs))
  }

  lemma RestoredFrom(file: ModuleFile, ds: seq<DecodedMethod>, es: seq<Entry>, r: Loaded)
    requires |ds| == |file.methods| && forall k :: 0 <= k < |ds| ==> ReadMethod(file.methods[k], es) == Some(ds[k])
    requires Filled(ds, file.classes, file.entry, es, r)
    ensures Restored(file, es, r)
  {
    hide ReadMethod, Rebuilt, RebuiltClass, DistinctIds, Distinct;
  }

  /** What is written, as records. */
  datatype Saved = Saved(file: ModuleFile, classes: seq<ClassWire>)

  /** At most 65534 pool entries, 65535 functions and 65535 classes. */
  ghost predicate Small(numbering: Numbering, es: seq<Entry>)
    reads numbering
  {
    |es| <= LAST_INDEX && |numbering.functions| < U16 && |numbering.classes| < U16
  }

  /** The records are those of the reachable graph. */
  ghost predicate Records(w: Saved, numbering: Numbering, es: seq<Entry>, entry: Function)
    reads numbering, numbering.functions, numbering.classes
  {
    InfosOf(w.classes) == w.file.classes && PoolBytesAre(es, w.file.pool) && FileNamed(w.file.names, es) &&
    entry in numbering.functionIndex && w.file.entry == numbering.functionIndex[entry] &&
    Holding(w.file, es, numbering.functions, numbering.classes, numbering.functionIndex, numbering.classIndex)
  }

  predicate PoolBytesAre(es: seq<Entry>, pool: seq<byte>) { Paired(es) && PoolBytes(es) == Some(pool) }

  /** Writing a module: there are records exactly when every reachable constant
      can be stored and the pool can be written, and they become the bytes of
      their file. */
  method Save(entry: Function, internalName: Text, metadata: seq<byte>, ghost all: Nodes)
    returns (s: Option<seq<byte>>, numbering: Numbering, ghost es: seq<Entry>, ghost w: Option<Saved>)
    requires Closed(all) && entry in all.fs
    ensures fresh(numbering) && numbering.Valid() && numbering.Seen() == Reach(entry, all) && Closed(numbering.Seen())
    ensures Paired(es)
    ensures w.Some? <==>
              (forall k :: 0 <= k < |numbering.functions| ==> SupportedFunction(numbering.functions[k])) &&
              PoolBytes(es).Some?
    ensures w.Some? && |es| <= LAST_INDEX ==> Records(w.value, numbering, es, entry)
    ensures s == if w.None? then None else FileBytes(w.value.file, w.value.classes, [], metadata)
  {
    hide Holding, SupportedFunction, Reach, Closed, PoolBytes, Numbered, Paired, FileBytes, InfosOf, ByteSlots, FileNamed;
    var file, m, cp := WriteModule(entry, internalName, all);
    es, numbering, w := cp.entries, m, None;
    if file.None? { return None, numbering, es, w; }
    var classes := WireClasses(file.value.classes);
    w := Some(Saved(file.value, classes));
    s := FileBytes(file.value, classes, [], metadata);
  }

  /** The functions and classes that were numbered, renamed, with their entry. */
  ghost predicate GraphRenamed(m: Numbering, entry: Function, r: Loaded)
    reads m, m.functions, m.classes, r.fs, set i | i in r.cs :: r.cs[i]
  {
    var n := Names(m.functionIndex, m.classIndex, r.fs, r.cs);
    Renamed(m.functions, m.classes, r, n) && SameF(entry, r.entry, n)
  }

  /** Writing a module to bytes and reading the bytes, within the limits of the
      file's counts and lengths: it works exactly when all of it can be written,
      and what comes back is the reachable graph, renamed, and the metadata. */
  method SaveAndLoad(entry: Function, internalName: Text, metadata: seq<byte>, ghost all: Nodes)
    returns (r: Option<(Loaded, seq<byte>)>, numbering: Numbering, ghost es: seq<Entry>, ghost w: Option<Saved>)
    requires Closed(all) && entry in all.fs
    ensures numbering.Valid() && numbering.Seen() == Reach(entry, all)
    ensures Paired(es)
    ensures w.Some? <==>
              (forall k :: 0 <= k < |numbering.functions| ==> SupportedFunction(numbering.functions[k])) &&
              PoolBytes(es).Some?
    ensures w.Some? && |es| <= LAST_INDEX ==> Records(w.value, numbering, es, entry)
    ensures w.None? ==> r.None?
    ensures w.Some? && Small(numbering, es) && FileFits(w.value.file, w.value.classes, [], metadata) ==>
              (r.Some? <==> FileBytes(w.value.file, w.value.classes, [], metadata).Some?)
    ensures w.Some? && Small(numbering, es) && FileFits(w.value.file, w.value.classes, [], metadata) && r.Some? ==>
              GraphRenamed(numbering, entry, r.value.0) && r.value.1 == metadata
    ensures r.Some? ==> forall j :: 0 <= j < |r.value.0.fs| ==> fresh(r.value.0.fs[j])
  {
    hide Holding, Restored, Filled, GraphRenamed, SupportedFunction, Reach, Closed, PoolBytes, ReadFile, Numbered, Paired,
         ReadMethod, FileBytes, FileFits, Records;
    var s, m, entries, saved := Save(entry, internalName, metadata, all);
    numbering, es, w := m, entries, saved;
    if s.None? { return None, numbering, es, w; }
    r := ReadModule(s.value);
    if Small(m, es) && FileFits(w.value.file, w.value.classes, [], metadata) {
      BytesBack(s.value, w.value, m, es, entry, metadata);
      if r.Some? { GraphBack(s.value, w.value, m, es, entry, metadata, r.value.0); }
    }
  }

  /** What is parsed is what the records say, and there is an entry. */
  lemma BytesBack(s: seq<byte>, w: Saved, m: Numbering, es: seq<Entry>, entry: Function, metadata: seq<byte>)
    requires m.Valid() && Small(m, es) && Records(w, m, es, entry)
    requires FileFits(w.file, w.classes, [], metadata) && FileBytes(w.file, w.classes, [], metadata) == Some(s)
    ensures MethodsReadable(w.file.methods, es)
    ensures ReadFile(s) ==
            Some(Read(Parsed(es, RecordsOf(w.file.methods, es), FileParts(w.file.entry, w.classes, metadata)), |s|))
    ensures 1 <= w.file.entry <= |w.file.methods|
  {
    hide Holding, PoolBytes, ReadFile, Numbered, Paired, ReadMethod, FileBytes, InfosOf, FileNamed, FileFits, RecordsOf,
         MethodsReadable;
    AllReadable(w.file, es, m, entry);
    FitMethods(w, m, es, metadata);
    FileReads(s, w.file, w.classes, [], metadata, es);
  }

  lemma FitMethods(w: Saved, m: Numbering, es: seq<Entry>, metadata: seq<byte>)
    requires Holding(w.file, es, m.functions, m.classes, m.functionIndex, m.classIndex)
    requires FileFits(w.file, w.classes, [], metadata)
    requires forall k :: 0 <= k < |w.file.methods| ==> ReadMethod(w.file.methods[k], es).Some?
    ensures MethodsReadable(w.file.methods, es)
  {
    hide MethodFits, CLASSES, ReadMethod, Named, AllStand, Utf8At, EncodeClass;
  }

  lemma GraphBack(s: seq<byte>, w: Saved, m: Numbering, es: seq<Entry>, entry: Function, metadata: seq<byte>, r: Loaded)
    requires m.Valid() && Small(m, es) && Closed(m.Seen()) && Records(w, m, es, entry)
    requires MethodsReadable(w.file.methods, es)
    requires Filled(RecordsOf(w.file.methods, es), InfosOf(w.classes), w.file.entry, es, r)
    ensures GraphRenamed(m, entry, r)
  {
    hide Holding, Restored, Filled, Renamed, Closed, PoolBytes, Numbered, Paired, ReadMethod, InfosOf, FileNamed, SameF,
         MethodsReadable, RecordsOf;
    RestoredFrom(w.file, RecordsOf(w.file.methods, es), es, r);
    AllBack(w.file, es, m, r);
    EntryBack(w.file, es, m, r, entry);
  }

  lemma AllReadable(file: ModuleFile, es: seq<Entry>, m: Numbering, entry: Function)
    requires Holding(file, es, m.functions, m.classes, m.functionIndex, m.classIndex)
    requires m.Valid() && |m.functions| < U16 && entry in m.functionIndex && file.entry == m.functionIndex[entry]
    ensures forall k :: 0 <= k < |file.methods| ==> ReadMethod(file.methods[k], es).Some?
    ensures 1 <= file.entry <= |file.methods|
  {
    hide Written, Named, ReadMethod;
    NumberIs(m.functions, m.functionIndex, entry);
    forall k | 0 <= k < |file.methods| ensures ReadMethod(file.methods[k], es).Some? {
      ReadsBack(file.methods[k], m.functions[k], es, m.functionIndex, m.classIndex);
    }
  }

  lemma EntryBack(file: ModuleFile, es: seq<Entry>, m: Numbering, r: Loaded, entry: Function)
    requires Holding(file, es, m.functions, m.classes, m.functionIndex, m.classIndex)
    requires m.Valid() && |m.functions| < U16 && entry in m.functionIndex && file.entry == m.functionIndex[entry]
    requires Restored(file, es, r)
    ensures SameF(entry, r.entry, Names(m.functionIndex, m.classIndex, r.fs, r.cs))
  {
    hide Written, Rebuilt, RebuiltClass, ReadMethod;
    NumberIs(m.functions, m.functionIndex, entry);
  }
}
