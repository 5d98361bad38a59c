/** Rebuilding a module from its class file. */
module ModuleReaders {
  import opened Options
  import opened Machine
  import opened ConstantPools
  import opened PoolBuilders
  import opened LineTables
  import opened ModuleGraphs
  import opened ModuleCodecs

  type ClassesById = map<CpIndex, Class>

  function FunctionAt(fs: seq<Function>, i: nat): Function? { if 1 <= i <= |fs| then fs[i - 1] else null }
  function ClassWith(cs: ClassesById, i: CpIndex): Class? { if i in cs then cs[i] else null }

  /** Numbers that are not in the table are skipped. */
  function FunctionsAt(fs: seq<Function>, ids: seq<CpIndex>): seq<Function?> {
    if ids == [] then []
    else (if FunctionAt(fs, ids[0]) == null then [] else [FunctionAt(fs, ids[0])]) + FunctionsAt(fs, ids[1..])
  }

  function OverloadsAt(fs: seq<Function>, m: map<Text, seq<CpIndex>>): Overloads {
    map k | k in m :: FunctionsAt(fs, m[k])
  }

  function BindingsAt<K>(fs: seq<Function>, m: map<K, CpIndex>): map<K, Function?> {
    map k | k in m :: FunctionAt(fs, m[k])
  }

  /** What a constant of the file is; nil when its index does not resolve. */
  function DecodeConstant(e: EncodedConstant, es: seq<Entry>, fs: seq<Function>, cs: ClassesById): Constant {
    if e.kind == INT_CONST then
      var v := LongAt(es, e.cpIndex);
      if v.Some? && Fits(Long(v.value)) then IntConst(v.value) else NilConst
    else if e.kind == FLOAT_CONST then
      var v := DoubleAt(es, e.cpIndex);
      if v.Some? && Fits(Double(v.value)) then FloatConst(v.value) else NilConst
    else if e.kind == STRING_CONST then
      var v := StringAt(es, e.cpIndex);
      if v.Some? then TextConst(v.value) else NilConst
    else if e.kind == RUNE_CONST then
      var v := IntegerAt(es, e.cpIndex);
      if v.Some? && Fits(Integer(v.value)) then RuneConst(v.value) else NilConst
    else if e.kind == BOOL_CONST then
      var v := IntegerAt(es, e.cpIndex);
      if v.Some? then BoolConst(v.value != 0) else NilConst
    else if e.kind == FUNCTION_REF then FunctionConst(FunctionAt(fs, e.refIndex))
    else if e.kind == CLASS_REF then ClassConst(ClassWith(cs, e.refIndex))
    else NilConst
  }

  datatype DecodedMethod = DecodedMethod(
    name: Text, descriptor: Text, code: seq<byte>, lines: seq<nat>, maxLocals: nat,
    upvalues: seq<Upvalue>, constants: seq<EncodedConstant>, declared: Declared)

  /** A method whose names do not all resolve is an error; parts under other
      names are ignored. */
  function ReadMethod(m: MethodInfo, es: seq<Entry>): Option<DecodedMethod> {
    var name, descriptor := Utf8At(es, m.name), Utf8At(es, m.descriptor);
    var codeName, metaName := Utf8At(es, m.codeName), Utf8At(es, m.metaName);
    var linesName := Utf8At(es, m.linesName);
    if name.None? || descriptor.None? || codeName.None? || metaName.None? then None
    else
      var hasCode, hasMeta := codeName.value == CODE, metaName.value == POLYLOFT_METHOD;
      if hasCode && linesName.None? then None
      else
        var lines :=
          if !hasCode then []
          else if linesName.value == LINE_NUMBER_TABLE then Expand(m.lines, 0, 0, 0, |m.code|)
          else seq(|m.code|, _ => 0);
        Some(DecodedMethod(name.value, descriptor.value, if hasCode then m.code else [], lines,
                           if hasCode then m.maxLocals else 0,
                           if hasMeta then m.upvalues else [], if hasMeta then m.constants else [],
                           if hasMeta then m.declared else NOTHING_DECLARED))
  }

  ghost predicate Rebuilt(g: Function, d: DecodedMethod, es: seq<Entry>, fs: seq<Function>, cs: ClassesById)
    reads g
  {
    g.name == d.name && g.descriptor == d.descriptor && g.upvalues == d.upvalues && g.maxLocals == d.maxLocals &&
    g.declared == d.declared &&
    g.chunk == Some(Chunk(d.code, d.lines, DecodeAll(d.constants, es, fs, cs)))
  }

  function DecodeAll(ks: seq<EncodedConstant>, es: seq<Entry>, fs: seq<Function>, cs: ClassesById): seq<Constant> {
    seq(|ks|, k requires 0 <= k < |ks| => DecodeConstant(ks[k], es, fs, cs))
  }

  ghost predicate RebuiltClass(c: Class, info: ClassInfo, fs: seq<Function>, cs: ClassesById)
    reads c
  {
    c.name == info.name && c.superclass == ClassWith(cs, info.superclass) &&
    c.methods == BindingsAt(fs, info.methods) && c.methodOverloads == OverloadsAt(fs, info.methodOverloads) &&
    c.staticMethods == BindingsAt(fs, info.staticMethods) &&
    c.staticMethodOverloads == OverloadsAt(fs, info.staticMethodOverloads) &&
    c.construct == FunctionAt(fs, info.construct) &&
    c.constructorOverloads == FunctionsAt(fs, info.constructorOverloads) &&
    c.specialMethods == BindingsAt(fs, info.specialMethods) && c.methodOrder == info.methodOrder &&
    c.methodIndex == Positions(info.methodOrder) && c.methodTable == TableOf(info.methodOrder, c.methods) &&
    c.rest == info.rest
  }

  /** The position of every name; of a repeated one, the last. */
  function Positions(order: seq<Text>): (r: map<Text, nat>)
    ensures forall n :: n in r ==> r[n] < |order| && order[r[n]] == n
    ensures forall k :: 0 <= k < |order| ==> order[k] in r
  {
    if order == [] then map[] else Positions(order[..|order| - 1])[order[|order| - 1] := |order| - 1]
  }

  /** The functions in the slots; a slot without its own method is empty. */
  function TableOf(order: seq<Text>, methods: Bindings): (r: seq<Function?>)
    ensures |r| == |order|
  {
    seq(|order|, k requires 0 <= k < |order| =>
      if order[k] in methods && Positions(order)[order[k]] == k then methods[order[k]] else null)
  }

  /** The method slots, and the table filled in while the methods are entered,
      in any order. */
  method PopulateMethods(c: Class, info: ClassInfo, fs: seq<Function>)
    modifies c`methodOrder, c`methodIndex, c`methodTable, c`methods
    ensures c.methodOrder == info.methodOrder && c.methodIndex == Positions(info.methodOrder)
    ensures c.methods == BindingsAt(fs, info.methods) && c.methodTable == TableOf(info.methodOrder, c.methods)
  {
    hide FunctionAt, Positions, TableOf;
    c.methodOrder := info.methodOrder;
    c.methodIndex := IndexNames(info.methodOrder);
    c.methods, c.methodTable := map[], seq(|info.methodOrder|, _ => null);
    EmptyTable(info.methodOrder);
    var rest := info.methods.Keys;
    while rest != {}
      invariant rest <= info.methods.Keys && Entered(c.methods, fs, info.methods, rest)
      invariant c.methodOrder == info.methodOrder && c.methodIndex == Positions(info.methodOrder)
      invariant c.methodTable == TableOf(info.methodOrder, c.methods)
      decreases rest
    {
      var name :| name in rest;
      rest := rest - {name};
      EnterMethod(c, name, FunctionAt(fs, info.methods[name]));
    }
    assert c.methods == BindingsAt(fs, info.methods);
  }

  /** The methods that are not left over are entered. */
  predicate Entered(methods: Bindings, fs: seq<Function>, m: map<Text, CpIndex>, rest: set<Text>) {
    methods.Keys == m.Keys - rest && forall x :: x in methods ==> methods[x] == FunctionAt(fs, m[x])
  }

  method IndexNames(order: seq<Text>) returns (index: map<Text, nat>)
    ensures index == Positions(order)
  {
    index := map[];
    for k := 0 to |order|
      invariant index == Positions(order[..k])
    {
      assert order[..k + 1][..k] == order[..k];
      index := index[order[k] := k];
    }
    assert order[..|order|] == order;
  }

  method EnterMethod(c: Class, name: Text, fn: Function?)
    requires c.methodIndex == Positions(c.methodOrder) && c.methodTable == TableOf(c.methodOrder, c.methods)
    modifies c`methods, c`methodTable
    ensures c.methods == old(c.methods)[name := fn] && c.methodTable == TableOf(c.methodOrder, c.methods)
  {
    hide Positions, TableOf;
    SlotSet(c.methodOrder, c.methods, name, fn);
    c.methods := c.methods[name := fn];
    if name in c.methodIndex && c.methodIndex[name] < |c.methodTable| {
      c.methodTable := c.methodTable[c.methodIndex[name] := fn];
    }
  }

  lemma EmptyTable(order: seq<Text>)
    ensures TableOf(order, map[]) == seq(|order|, _ => null)
  {
  }

  lemma PositionOf(order: seq<Text>, x: Text)
    requires x in Positions(order)
    ensures Positions(order)[x] < |order| && order[Positions(order)[x]] == x
  {
  }

  lemma SlotSet(order: seq<Text>, methods: Bindings, name: Text, fn: Function?)
    ensures |TableOf(order, methods)| == |order| && (name in Positions(order) ==> Positions(order)[name] < |order|)
    ensures var p, t := Positions(order), TableOf(order, methods);
            TableOf(order, methods[name := fn]) == if name in p then t[p[name] := fn] else t
  {
    hide Positions;
    if name in Positions(order) { PositionOf(order, name); }
    forall k | 0 <= k < |order| ensures order[k] in Positions(order) { PositionHas(order, k); }
  }

  lemma {:induction false} PositionHas(order: seq<Text>, k: nat)
    requires k < |order|
    ensures order[k] in Positions(order)
  {
    if k < |order| - 1 { PositionHas(order[..|order| - 1], k); }
  }

  method PopulateFunction(g: Function, d: DecodedMethod, es: seq<Entry>, fs: seq<Function>, cs: ClassesById)
    modifies g
    ensures Rebuilt(g, d, es, fs, cs)
  {
    hide DecodeConstant;
    var constants: seq<Constant> := [];
    for k := 0 to |d.constants|
      invariant |constants| == k && constants == DecodeAll(d.constants, es, fs, cs)[..k]
    {
      constants := constants + [DecodeConstant(d.constants[k], es, fs, cs)];
    }
    assert DecodeAll(d.constants, es, fs, cs)[..|d.constants|] == DecodeAll(d.constants, es, fs, cs);
    g.name, g.descriptor, g.upvalues, g.maxLocals := d.name, d.descriptor, d.upvalues, d.maxLocals;
    g.declared := d.declared;
    g.chunk := Some(Chunk(d.code, d.lines, constants));
  }

  method PopulateClass(c: Class, info: ClassInfo, fs: seq<Function>, cs: ClassesById)
    modifies c
    ensures RebuiltClass(c, info, fs, cs)
  {
    hide BindingsAt, OverloadsAt, FunctionsAt, Positions, TableOf;
    c.name, c.superclass, c.rest := info.name, ClassWith(cs, info.superclass), info.rest;
    PopulateMethods(c, info, fs);
    PopulateOthers(c, info, fs);
  }

  /** The overloads, the constructors, and the static and special methods. */
  method PopulateOthers(c: Class, info: ClassInfo, fs: seq<Function>)
    modifies c`methodOverloads, c`staticMethods, c`staticMethodOverloads, c`construct, c`constructorOverloads,
             c`specialMethods
    ensures c.methodOverloads == OverloadsAt(fs, info.methodOverloads)
    ensures c.staticMethods == BindingsAt(fs, info.staticMethods)
    ensures c.staticMethodOverloads == OverloadsAt(fs, info.staticMethodOverloads)
    ensures c.construct == FunctionAt(fs, info.construct)
    ensures c.constructorOverloads == FunctionsAt(fs, info.constructorOverloads)
    ensures c.specialMethods == BindingsAt(fs, info.specialMethods)
  {
    hide BindingsAt, OverloadsAt, FunctionsAt, FunctionAt;
    c.methodOverloads := OverloadsAt(fs, info.methodOverloads);
    c.staticMethods := BindingsAt(fs, info.staticMethods);
    c.staticMethodOverloads := OverloadsAt(fs, info.staticMethodOverloads);
    c.construct, c.constructorOverloads := FunctionAt(fs, info.construct), FunctionsAt(fs, info.constructorOverloads);
    c.specialMethods := BindingsAt(fs, info.specialMethods);
  }

  datatype Loaded = Loaded(entry: Function, fs: seq<Function>, cs: ClassesById)

  predicate Distinct(fs: seq<Function>) { forall i, j :: 0 <= i < j < |fs| ==> fs[i] != fs[j] }

  predicate DistinctIds(infos: seq<ClassInfo>) {
    forall i, j :: 0 <= i < j < |infos| ==> infos[i].id != infos[j].id
  }

  method NewFunctions(ds: seq<DecodedMethod>) returns (fs: seq<Function>)
    ensures |fs| == |ds| && Distinct(fs) && forall j :: 0 <= j < |fs| ==> fresh(fs[j])
  {
    fs := [];
    for k := 0 to |ds|
      invariant |fs| == k && Distinct(fs) && forall j :: 0 <= j < |fs| ==> fresh(fs[j])
    {
      var f := new Function(ds[k].name);
      fs := fs + [f];
    }
  }

  method NewClasses(infos: seq<ClassInfo>) returns (cs: ClassesById)
    ensures forall i :: i in cs ==> fresh(cs[i])
    ensures forall k :: 0 <= k < |infos| ==> infos[k].id in cs
    ensures forall i :: i in cs ==> exists k :: 0 <= k < |infos| && infos[k].id == i
    ensures forall i, j :: i in cs && j in cs && i != j ==> cs[i] != cs[j]
  {
    cs := map[];
    for k := 0 to |infos|
      invariant forall i :: i in cs ==> fresh(cs[i])
      invariant forall j :: 0 <= j < k ==> infos[j].id in cs
      invariant forall i :: i in cs ==> exists j :: 0 <= j < k && infos[j].id == i
      invariant forall i, j :: i in cs && j in cs && i != j ==> cs[i] != cs[j]
    {
      var c := new Class();
      cs := cs[infos[k].id := c];
    }
  }

  method PopulateClasses(infos: seq<ClassInfo>, fs: seq<Function>, cs: ClassesById)
    requires forall k :: 0 <= k < |infos| ==> infos[k].id in cs
    requires forall i, j :: i in cs && j in cs && i != j ==> cs[i] != cs[j]
    modifies set i | i in cs :: cs[i]
    ensures DistinctIds(infos) ==> forall k :: 0 <= k < |infos| ==> RebuiltClass(cs[infos[k].id], infos[k], fs, cs)
  {
    hide RebuiltClass;
    for k := 0 to |infos|
      invariant DistinctIds(infos) ==> forall j :: 0 <= j < k ==> RebuiltClass(cs[infos[j].id], infos[j], fs, cs)
    {
      PopulateClass(cs[infos[k].id], infos[k], fs, cs);
    }
  }

  method PopulateFunctions(ds: seq<DecodedMethod>, es: seq<Entry>, fs: seq<Function>, cs: ClassesById)
    requires |ds| == |fs| && Distinct(fs)
    modifies fs
    ensures forall k :: 0 <= k < |fs| ==> Rebuilt(fs[k], ds[k], es, fs, cs)
  {
    hide Rebuilt;
    for k := 0 to |fs|
      invariant forall j :: 0 <= j < k ==> Rebuilt(fs[j], ds[j], es, fs, cs)
    {
      PopulateFunction(fs[k], ds[k], es, fs, cs);
    }
  }

  /** New functions and classes, filled in from what was read; an error exactly
      when there is no entry. */
  method Populate(ds: seq<DecodedMethod>, infos: seq<ClassInfo>, entry: nat, es: seq<Entry>) returns (r: Option<Loaded>)
    ensures r.Some? <==> 1 <= entry <= |ds|
    ensures r.Some? ==> Filled(ds, infos, entry, es, r.value)
    ensures r.Some? ==> forall j :: 0 <= j < |r.value.fs| ==> fresh(r.value.fs[j])
    ensures r.Some? ==> forall i :: i in r.value.cs ==> fresh(r.value.cs[i])
  {
    hide Rebuilt, RebuiltClass, DistinctIds;
    var fs := NewFunctions(ds);
    var cs := NewClasses(infos);
    PopulateClasses(infos, fs, cs);
    PopulateFunctions(ds, es, fs, cs);
    var first := FunctionAt(fs, entry);
    if first == null { return None; }
    r := Some(Loaded(first, fs, cs));
  }

  /** The new functions and classes are those that were read. */
  ghost predicate Filled(ds: seq<DecodedMethod>, infos: seq<ClassInfo>, entry: nat, es: seq<Entry>, r: Loaded)
    reads r.fs, set i | i in r.cs :: r.cs[i]
  {
    |r.fs| == |ds| && r.entry == FunctionAt(r.fs, entry) && Distinct(r.fs) &&
    (forall i, j :: i in r.cs && j in r.cs && i != j ==> r.cs[i] != r.cs[j]) &&
    (forall k :: 0 <= k < |r.fs| ==> Rebuilt(r.fs[k], ds[k], es, r.fs, r.cs)) &&
    (forall k :: 0 <= k < |infos| ==> infos[k].id in r.cs) &&
    (forall i :: i in r.cs ==> exists k :: 0 <= k < |infos| && infos[k].id == i) &&
    (DistinctIds(infos) ==> forall k :: 0 <= k < |infos| ==> RebuiltClass(r.cs[infos[k].id], infos[k], r.fs, r.cs))
  }
}
