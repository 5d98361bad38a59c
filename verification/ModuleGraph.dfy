/** The functions and classes of a module, a cyclic graph, and the depth-first
    search that numbers the ones reachable from its entry. */
module ModuleGraphs {
  import opened Options
  import opened Machine
  import opened ConstantPools

  type int64 = i: int | -TWO_63 <= i < TWO_63
  type int32 = i: int | -0x8000_0000 <= i < 0x8000_0000
  type bits64 = b: int | 0 <= b < TWO_64

  datatype Constant =
    | NilConst
    | IntConst(i: int64)
    | FloatConst(bits: bits64)
    | TextConst(s: Text)
    | RuneConst(r: int32)
    | BoolConst(b: bool)
    | FunctionConst(f: Function?)
    | ClassConst(c: Class?)
    | UnsupportedConst

  datatype Chunk = Chunk(code: seq<byte>, lines: seq<nat>, constants: seq<Constant>)

  datatype Upvalue = Upvalue(index: byte, isLocal: bool)

  /** A method that an interface asks for, and an interface, by name. */
  datatype InterfaceMethod = InterfaceMethod(key: Text, name: Text, params: seq<Text>, result: Text)
  datatype Interface = Interface(key: Text, name: Text, functional: Text, methods: seq<InterfaceMethod>)

  /** What else a function declares, as it is stored. */
  datatype Declared = Declared(
    owner: Text, result: Text, slotCount: CpIndex, slotNames: seq<Text>, interfaces: seq<Interface>)

  const NOTHING_DECLARED: Declared := Declared([], [], 0, [], [])

  datatype FieldDef = FieldDef(name: Text, typ: Text, visibility: Text, mutable: bool)

  /** What else a class declares. */
  datatype Supers = Supers(implements: seq<Text>, permits: seq<Text>, enumOrder: seq<Text>)
  datatype FieldLists = FieldLists(
    fields: seq<FieldDef>, order: seq<Text>, slots: seq<(Text, CpIndex)>, staticFields: seq<FieldDef>)
  datatype Visibilities = Visibilities(
    methods: seq<(Text, Text)>, statics: seq<(Text, Text)>, annotations: seq<(Text, seq<Text>)>, constructors: Text)
  datatype ClassRest = ClassRest(flags: CpIndex, supers: Supers, fields: FieldLists, visible: Visibilities)

  const NO_REST: ClassRest :=
    ClassRest(0, Supers([], [], []), FieldLists([], [], [], []), Visibilities([], [], [], []))

  class Function {
    var name: Text
    var descriptor: Text
    var upvalues: seq<Upvalue>
    var maxLocals: nat
    var chunk: Option<Chunk>
    var declared: Declared

    constructor (name: Text)
      ensures this.name == name && descriptor == [] && upvalues == [] && maxLocals == 0 && chunk == None
    {
      this.name := name;
      descriptor, upvalues, maxLocals, chunk, declared := [], [], 0, None, NOTHING_DECLARED;
    }
  }

  type Bindings = map<Text, Function?>
  type Overloads = map<Text, seq<Function?>>

  class Class {
    var name: Text
    var superclass: Class?
    var methods: Bindings
    var methodOverloads: Overloads
    var staticMethods: Bindings
    var staticMethodOverloads: Overloads
    var construct: Function?
    var constructorOverloads: seq<Function?>
    var specialMethods: map<nat, Function?>
    var methodOrder: seq<Text>
    var methodIndex: map<Text, nat>
    var methodTable: seq<Function?>
    var rest: ClassRest

    constructor ()
    {
      name, superclass := [], null;
      methods, methodOverloads, staticMethods, staticMethodOverloads := map[], map[], map[], map[];
      construct, constructorOverloads, specialMethods := null, [], map[];
      methodOrder, methodIndex, methodTable, rest := [], map[], [], NO_REST;
    }
  }

  // --------------------------------------------------------------- reachable

  datatype Nodes = Nodes(fs: set<Function>, cs: set<Class>)

  predicate Included(a: Nodes, b: Nodes) { a.fs <= b.fs && a.cs <= b.cs }

  predicate InF(f: Function?, s: Nodes) { f != null ==> f in s.fs }
  predicate InC(c: Class?, s: Nodes) { c != null ==> c in s.cs }

  predicate ConstantIn(c: Constant, s: Nodes) {
    match c
    case FunctionConst(f) => InF(f, s)
    case ClassConst(k) => InC(k, s)
    case _ => true
  }

  predicate AllIn(fs: seq<Function?>, s: Nodes) { forall i :: 0 <= i < |fs| ==> InF(fs[i], s) }
  predicate BoundIn<K>(m: map<K, Function?>, s: Nodes) { forall k :: k in m ==> InF(m[k], s) }
  predicate OverloadsIn(m: Overloads, s: Nodes) { forall k :: k in m ==> AllIn(m[k], s) }

  predicate ConstantsIn(cs: seq<Constant>, s: Nodes) { forall k :: 0 <= k < |cs| ==> ConstantIn(cs[k], s) }

  /** All that a function or a class refers to is among these nodes. */
  ghost predicate FunctionIn(f: Function, s: Nodes)
    reads f
  {
    f.chunk.Some? ==> ConstantsIn(f.chunk.value.constants, s)
  }

  ghost predicate ClassIn(c: Class, s: Nodes)
    reads c
  {
    InC(c.superclass, s) && BoundIn(c.methods, s) && OverloadsIn(c.methodOverloads, s) &&
    BoundIn(c.staticMethods, s) && OverloadsIn(c.staticMethodOverloads, s) && InF(c.construct, s) &&
    AllIn(c.constructorOverloads, s) && BoundIn(c.specialMethods, s)
  }

  ghost predicate Closed(s: Nodes)
    reads s.fs, s.cs
  {
    (forall f :: f in s.fs ==> FunctionIn(f, s)) && (forall c :: c in s.cs ==> ClassIn(c, s))
  }

  /** The nodes that are in `now` but not in `before` refer to nodes in `now`. */
  ghost predicate Done(before: Nodes, now: Nodes)
    reads now.fs, now.cs
  {
    (forall f :: f in now.fs && f !in before.fs ==> FunctionIn(f, now)) &&
    (forall c :: c in now.cs && c !in before.cs ==> ClassIn(c, now))
  }

  /** At most `rank` nodes of the graph have not been visited. */
  ghost predicate Bounded(s: Nodes, all: Nodes, rank: nat) { |all.fs - s.fs| + |all.cs - s.cs| <= rank }

  lemma BoundedKept(a: Nodes, b: Nodes, all: Nodes, rank: nat)
    requires Included(a, b) && Bounded(a, all, rank)
    ensures Bounded(b, all, rank)
  {
    Smaller(all.fs - b.fs, all.fs - a.fs);
    Smaller(all.cs - b.cs, all.cs - a.cs);
  }

  lemma Smaller<T>(a: set<T>, b: set<T>)
    requires a <= b
    ensures |a| <= |b|
  {
    if a != {} {
      var x :| x in a;
      Smaller(a - {x}, b - {x});
    }
  }

  lemma BoundedByFunction(s: Nodes, f: Function, all: Nodes, rank: nat)
    requires f in all.fs && f !in s.fs && Bounded(s, all, rank) && Included(s, all)
    ensures rank > 0 && Bounded(Nodes(s.fs + {f}, s.cs), all, rank - 1)
    ensures Included(Nodes(s.fs + {f}, s.cs), all)
  {
    assert all.fs - s.fs == (all.fs - (s.fs + {f})) + {f};
  }

  lemma BoundedByClass(s: Nodes, c: Class, all: Nodes, rank: nat)
    requires c in all.cs && c !in s.cs && Bounded(s, all, rank) && Included(s, all)
    ensures rank > 0 && Bounded(Nodes(s.fs, s.cs + {c}), all, rank - 1)
    ensures Included(Nodes(s.fs, s.cs + {c}), all)
  {
    assert all.cs - s.cs == (all.cs - (s.cs + {c})) + {c};
  }

  lemma ConstantKept(c: Constant, a: Nodes, b: Nodes)
    requires ConstantIn(c, a) && Included(a, b)
    ensures ConstantIn(c, b)
  {
  }

  lemma ConstantsKept(cs: seq<Constant>, a: Nodes, b: Nodes)
    requires ConstantsIn(cs, a) && Included(a, b)
    ensures ConstantsIn(cs, b)
  {
    forall k | 0 <= k < |cs| ensures ConstantIn(cs[k], b) { ConstantKept(cs[k], a, b); }
  }

  lemma FunctionKept(f: Function, a: Nodes, b: Nodes)
    requires FunctionIn(f, a) && Included(a, b)
    ensures FunctionIn(f, b)
  {
    if f.chunk.Some? {
      ConstantsKept(f.chunk.value.constants, a, b);
    }
  }

  lemma OverloadsKept(m: Overloads, a: Nodes, b: Nodes)
    requires OverloadsIn(m, a) && Included(a, b)
    ensures OverloadsIn(m, b)
  {
    forall k | k in m ensures AllIn(m[k], b) { assert AllIn(m[k], a); }
  }

  lemma BoundKept<K>(m: map<K, Function?>, a: Nodes, b: Nodes)
    requires BoundIn(m, a) && Included(a, b)
    ensures BoundIn(m, b)
  {
  }

  lemma BoundOnce<K>(m: map<K, Function?>, rest: set<K>, k: K, a: Nodes, b: Nodes)
    requires k in m && BoundIn(m - (rest + {k}), a) && InF(m[k], b) && Included(a, b)
    ensures BoundIn(m - rest, b)
  {
    forall j | j in m - rest ensures InF(m[j], b) {
      if j != k { assert InF((m - (rest + {k}))[j], a); }
    }
  }

  lemma OverloadsOnce(m: Overloads, rest: set<Text>, k: Text, a: Nodes, b: Nodes)
    requires k in m && OverloadsIn(m - (rest + {k}), a) && AllIn(m[k], b) && Included(a, b)
    ensures OverloadsIn(m - rest, b)
  {
    forall j | j in m - rest ensures AllIn(m[j], b) {
      if j != k { assert AllIn((m - (rest + {k}))[j], a); }
    }
  }

  lemma SuperKept(c: Class?, a: Nodes, b: Nodes, d: Nodes, e: Nodes)
    requires InC(c, a) && Included(a, b) && Included(b, d) && Included(d, e)
    ensures InC(c, e)
  {
  }

  lemma ConstructKept(f: Function?, fs: seq<Function?>, a: Nodes, b: Nodes, c: Nodes)
    requires InF(f, a) && AllIn(fs, b) && (a == b || Included(a, b)) && Included(b, c)
    ensures InF(f, c) && AllIn(fs, c)
  {
  }

  lemma MethodsKept(m: Bindings, overloads: Overloads, a: Nodes, b: Nodes)
    requires BoundIn(m, a) && OverloadsIn(overloads, a) && Included(a, b)
    ensures BoundIn(m, b) && OverloadsIn(overloads, b)
  {
    OverloadsKept(overloads, a, b);
  }

  lemma ClassKept(c: Class, a: Nodes, b: Nodes)
    requires ClassIn(c, a) && Included(a, b)
    ensures ClassIn(c, b)
  {
    OverloadsKept(c.methodOverloads, a, b);
    OverloadsKept(c.staticMethodOverloads, a, b);
  }

  lemma NothingDone(s: Nodes)
    ensures Done(s, s) && Included(s, s)
  {
  }

  lemma FunctionFrom(f: Function, all: Nodes)
    requires Closed(all) && f in all.fs
    ensures FunctionIn(f, all)
    ensures f.chunk.Some? ==> ConstantsIn(f.chunk.value.constants, all)
  {
  }

  lemma Joined(a: Nodes, b: Nodes, c: Nodes, all: Nodes, rank: nat)
    requires Done(a, b) && Done(b, c) && Included(a, b) && Included(b, c) && Bounded(b, all, rank)
    ensures Done(a, c) && Included(a, c) && Bounded(c, all, rank)
  {
    hide Done, Bounded;
    DoneJoined(a, b, c);
    BoundedKept(b, c, all, rank);
  }

  lemma ClassFrom(c: Class, all: Nodes)
    requires Closed(all) && c in all.cs
    ensures ClassIn(c, all)
    ensures InC(c.superclass, all) && BoundIn(c.methods, all) && OverloadsIn(c.methodOverloads, all)
    ensures BoundIn(c.staticMethods, all) && OverloadsIn(c.staticMethodOverloads, all)
    ensures InF(c.construct, all) && AllIn(c.constructorOverloads, all) && BoundIn(c.specialMethods, all)
  {
  }

  lemma ClassDone(c: Class, s: Nodes)
    requires InC(c.superclass, s) && BoundIn(c.methods, s) && OverloadsIn(c.methodOverloads, s)
    requires BoundIn(c.staticMethods, s) && OverloadsIn(c.staticMethodOverloads, s)
    requires InF(c.construct, s) && AllIn(c.constructorOverloads, s) && BoundIn(c.specialMethods, s)
    ensures ClassIn(c, s)
  {
  }

  lemma DoneClass(before: Nodes, c: Class, now: Nodes)
    requires Done(Nodes(before.fs, before.cs + {c}), now) && ClassIn(c, now)
    requires Included(Nodes(before.fs, before.cs + {c}), now)
    ensures Done(before, now) && Included(before, now) && InC(c, now)
  {
  }

  lemma DoneAll(s: Nodes)
    requires Done(Nodes({}, {}), s)
    ensures Closed(s)
  {
  }

  lemma DoneFunction(before: Nodes, f: Function, now: Nodes)
    requires Done(Nodes(before.fs + {f}, before.cs), now) && FunctionIn(f, now)
    requires Included(Nodes(before.fs + {f}, before.cs), now)
    ensures Done(before, now) && Included(before, now) && InF(f, now)
  {
  }

  lemma DoneJoined(a: Nodes, b: Nodes, c: Nodes)
    requires Done(a, b) && Done(b, c) && Included(b, c)
    ensures Done(a, c)
  {
    hide FunctionIn, ClassIn;
    forall f | f in c.fs && f !in a.fs ensures FunctionIn(f, c) {
      if f in b.fs { FunctionKept(f, b, c); }
    }
    forall k | k in c.cs && k !in a.cs ensures ClassIn(k, c) {
      if k in b.cs { ClassKept(k, b, c); }
    }
  }

  // ----------------------------------------------------------- the least set

  /** The nodes that every closed set with the entry contains. */
  ghost function Reach(entry: Function, all: Nodes): Nodes
    reads all.fs, all.cs
  {
    Nodes(set f | f in all.fs && InEveryF(entry, f, all), set c | c in all.cs && InEveryC(entry, c, all))
  }

  ghost predicate InEveryF(entry: Function, f: Function, all: Nodes)
    reads all.fs, all.cs
  {
    forall fs, cs :: fs <= all.fs && cs <= all.cs && Closed(Nodes(fs, cs)) && entry in fs ==> f in fs
  }

  ghost predicate InEveryC(entry: Function, c: Class, all: Nodes)
    reads all.fs, all.cs
  {
    forall fs, cs :: fs <= all.fs && cs <= all.cs && Closed(Nodes(fs, cs)) && entry in fs ==> c in cs
  }
  lemma ReachLeast(entry: Function, all: Nodes, s: Nodes)
    requires Closed(s) && Included(s, all) && entry in s.fs
    ensures Included(Reach(entry, all), s)
  {
    hide Closed;
    var fs, cs := s.fs, s.cs;
    assert Closed(Nodes(fs, cs));
  }

  lemma ReachClosed(entry: Function, all: Nodes)
    requires Closed(all) && entry in all.fs
    ensures var r := Reach(entry, all); Closed(r) && Included(r, all) && entry in r.fs
  {
    hide FunctionIn, ClassIn, InEveryF, InEveryC;
    var r := Reach(entry, all);
    EntryInEvery(entry, all);
    forall f | f in r.fs ensures FunctionIn(f, r) { FunctionReaches(entry, f, all); }
    forall c | c in r.cs ensures ClassIn(c, r) { ClassReaches(entry, c, all); }
  }

  lemma EntryInEvery(entry: Function, all: Nodes)
    ensures InEveryF(entry, entry, all)
  {
  }

  lemma FunctionReaches(entry: Function, f: Function, all: Nodes)
    requires Closed(all) && f in all.fs && InEveryF(entry, f, all)
    ensures FunctionIn(f, Reach(entry, all))
  {
    hide Closed, ClassIn;
    FunctionFrom(f, all);
    if f.chunk.Some? {
      var constants := f.chunk.value.constants;
      forall k | 0 <= k < |constants| ensures ConstantIn(constants[k], Reach(entry, all)) {
        forall fs: set<Function>, cs: set<Class> | fs <= all.fs && cs <= all.cs && Closed(Nodes(fs, cs)) && entry in fs
          ensures ConstantIn(constants[k], Nodes(fs, cs))
        {
          FunctionFrom(f, Nodes(fs, cs));
        }
      }
    }
  }

  lemma ClassReaches(entry: Function, c: Class, all: Nodes)
    requires Closed(all) && c in all.cs && InEveryC(entry, c, all)
    ensures ClassIn(c, Reach(entry, all))
  {
    hide Closed, FunctionIn;
    ClassFrom(c, all);
    forall fs: set<Function>, cs: set<Class> | fs <= all.fs && cs <= all.cs && Closed(Nodes(fs, cs)) && entry in fs
      ensures ClassIn(c, Nodes(fs, cs))
    {
      ClassFrom(c, Nodes(fs, cs));
    }
  }

  // ------------------------------------------------------------------ search

  /** Every node of the list has its position, from 1, as its index; indices
      wrap. */
  ghost predicate Numbered<T>(list: seq<T>, index: map<T, CpIndex>) {
    (forall k :: 0 <= k < |list| ==> list[k] in index && index[list[k]] == (k + 1) % U16) &&
    (forall x :: x in index ==> x in list) &&
    (forall i, j :: 0 <= i < j < |list| ==> list[i] != list[j])
  }

  lemma NumberedNext<T>(list: seq<T>, index: map<T, CpIndex>, x: T)
    requires Numbered(list, index) && x !in index
    ensures Numbered(list + [x], index[x := (|list| + 1) % U16])
  {
    var list', index' := list + [x], index[x := (|list| + 1) % U16];
    forall y | y in index' ensures y in list' {
      if y == x { assert list'[|list|] == x; } else { assert y in list; }
    }
  }

  class Numbering {
    var functions: seq<Function>
    var functionIndex: map<Function, CpIndex>
    var classes: seq<Class>
    var classIndex: map<Class, CpIndex>

    constructor ()
      ensures Valid() && Seen() == Nodes({}, {})
    {
      functions, functionIndex, classes, classIndex := [], map[], [], map[];
    }

    ghost predicate Valid()
      reads this
    {
      Numbered(functions, functionIndex) && Numbered(classes, classIndex)
    }

    ghost predicate Ready(all: Nodes)
      reads this, all.fs, all.cs
    {
      Valid() && Closed(all) && Included(Seen(), all)
    }

    ghost function Seen(): Nodes
      reads this
    {
      Nodes(functionIndex.Keys, classIndex.Keys)
    }

    method AddFunction(fn: Function)
      requires Valid() && fn !in functionIndex
      modifies this
      ensures Valid() && Seen() == Nodes(old(functionIndex.Keys) + {fn}, old(classIndex.Keys))
    {
      NumberedNext<Function>(functions, functionIndex, fn);
      functions := functions + [fn];
      functionIndex := functionIndex[fn := |functions| % U16];
    }

    method AddClass(c: Class)
      requires Valid() && c !in classIndex
      modifies this
      ensures Valid() && Seen() == Nodes(old(functionIndex.Keys), old(classIndex.Keys) + {c})
    {
      NumberedNext<Class>(classes, classIndex, c);
      classes := classes + [c];
      classIndex := classIndex[c := |classes| % U16];
    }

    /** A new function is numbered; one node less is left to visit. */
    method EnterFunction(f: Function, ghost all: Nodes, ghost rank: nat)
      requires Ready(all) && Bounded(Seen(), all, rank) && f in all.fs && f !in functionIndex
      modifies this
      ensures Ready(all) && rank > 0 && Bounded(Seen(), all, rank - 1)
      ensures Seen() == Nodes(old(Seen()).fs + {f}, old(Seen()).cs)
      ensures f.chunk.Some? ==> ConstantsIn(f.chunk.value.constants, all)
    {
      hide Numbered, Bounded, Closed, FunctionIn, ClassIn, Included, ConstantsIn;
      BoundedByFunction(Seen(), f, all, rank);
      FunctionFrom(f, all);
      AddFunction(f);
    }

    method EnterClass(c: Class, ghost all: Nodes, ghost rank: nat)
      requires Ready(all) && Bounded(Seen(), all, rank) && c in all.cs && c !in classIndex
      modifies this
      ensures Ready(all) && Closed(all) && rank > 0 && Bounded(Seen(), all, rank - 1)
      ensures Seen() == Nodes(old(Seen()).fs, old(Seen()).cs + {c})
    {
      hide Numbered, Bounded, Closed, FunctionIn, ClassIn, Included;
      BoundedByClass(Seen(), c, all, rank);
      AddClass(c);
    }

    method CollectFunction(fn: Function?, ghost all: Nodes, ghost rank: nat)
      requires Ready(all) && Bounded(Seen(), all, rank) && InF(fn, all)
      modifies this
      ensures Ready(all) && InF(fn, Seen())
      ensures Done(old(Seen()), Seen()) && Included(old(Seen()), Seen())
      decreases rank, 0
    {
      hide Numbered, Done, Bounded, Closed, FunctionIn, ClassIn, Included, ConstantsIn, Ready;
      if fn == null || fn in functionIndex {
        NothingDone(Seen());
        return;
      }
      ghost var before := Seen();
      EnterFunction(fn, all, rank);
      NothingDone(Seen());
      if fn.chunk.Some? { CollectConstants(fn.chunk.value.constants, all, rank - 1); }
      DoneFunction(before, fn, Seen());
    }

    method CollectConstants(constants: seq<Constant>, ghost all: Nodes, ghost rank: nat)
      requires Ready(all) && Bounded(Seen(), all, rank) && ConstantsIn(constants, all)
      modifies this
      ensures Ready(all) && ConstantsIn(constants, Seen())
      ensures Done(old(Seen()), Seen()) && Included(old(Seen()), Seen())
      decreases rank, 1
    {
      hide Numbered, Done, Bounded, Closed, FunctionIn, ClassIn, Included;
      ghost var start := Seen();
      NothingDone(start);
      for k := 0 to |constants|
        invariant Ready(all) && Bounded(Seen(), all, rank) && Done(start, Seen()) && Included(start, Seen())
        invariant ConstantsIn(constants[..k], Seen())
      {
        ghost var was := Seen();
        match constants[k] {
          case FunctionConst(f) => CollectFunction(f, all, rank);
          case ClassConst(c) => CollectClass(c, all, rank);
          case _ => NothingDone(was);
        }
        Joined(start, was, Seen(), all, rank);
        ConstantsKept(constants[..k], was, Seen());
        assert constants[..k + 1] == constants[..k] + [constants[k]];
      }
      assert constants[..|constants|] == constants;
    }

    method CollectSlice(fs: seq<Function?>, ghost all: Nodes, ghost rank: nat)
      requires Ready(all) && Bounded(Seen(), all, rank) && AllIn(fs, all)
      modifies this
      ensures Ready(all) && AllIn(fs, Seen())
      ensures Done(old(Seen()), Seen()) && Included(old(Seen()), Seen())
      decreases rank, 1
    {
      hide Numbered, Done, Bounded, Closed, FunctionIn, ClassIn, Included;
      ghost var start := Seen();
      NothingDone(start);
      for k := 0 to |fs|
        invariant Ready(all) && Bounded(Seen(), all, rank) && Done(start, Seen()) && Included(start, Seen()) && AllIn(fs[..k], Seen())
      {
        ghost var was := Seen();
        CollectFunction(fs[k], all, rank);
        Joined(start, was, Seen(), all, rank);
        ConstructKept(null, fs[..k], was, was, Seen());
        assert fs[..k + 1] == fs[..k] + [fs[k]];
      }
      assert fs[..|fs|] == fs;
    }

    /** Maps are walked in any order. */
    method CollectBound<K>(m: map<K, Function?>, ghost all: Nodes, ghost rank: nat)
      requires Ready(all) && Bounded(Seen(), all, rank) && BoundIn(m, all)
      modifies this
      ensures Ready(all) && BoundIn(m, Seen())
      ensures Done(old(Seen()), Seen()) && Included(old(Seen()), Seen())
      decreases rank, 1
    {
      hide Numbered, Done, Bounded, Closed, FunctionIn, ClassIn, Included;
      ghost var start := Seen();
      NothingDone(start);
      var rest := m.Keys;
      while rest != {}
        invariant rest <= m.Keys && Ready(all) && Bounded(Seen(), all, rank) && Done(start, Seen()) && Included(start, Seen())
        invariant BoundIn(m - rest, Seen())
        decreases rest
      {
        ghost var was := Seen();
        var k :| k in rest;
        ghost var left := rest;
        rest := rest - {k};
        assert rest + {k} == left;
        CollectFunction(m[k], all, rank);
        Joined(start, was, Seen(), all, rank);
        BoundOnce(m, rest, k, was, Seen());
      }
      assert m - {} == m;
    }

    method CollectOverloads(m: Overloads, ghost all: Nodes, ghost rank: nat)
      requires Ready(all) && Bounded(Seen(), all, rank) && OverloadsIn(m, all)
      modifies this
      ensures Ready(all) && OverloadsIn(m, Seen())
      ensures Done(old(Seen()), Seen()) && Included(old(Seen()), Seen())
      decreases rank, 2
    {
      hide Numbered, Done, Bounded, Closed, FunctionIn, ClassIn, Included;
      ghost var start := Seen();
      NothingDone(start);
      var rest := m.Keys;
      while rest != {}
        invariant rest <= m.Keys && Ready(all) && Bounded(Seen(), all, rank) && Done(start, Seen()) && Included(start, Seen())
        invariant OverloadsIn(m - rest, Seen())
        decreases rest
      {
        ghost var was := Seen();
        var k :| k in rest;
        ghost var left := rest;
        rest := rest - {k};
        assert rest + {k} == left;
        CollectSlice(m[k], all, rank);
        Joined(start, was, Seen(), all, rank);
        OverloadsOnce(m, rest, k, was, Seen());
      }
      assert m - {} == m;
    }

    method CollectClass(c: Class?, ghost all: Nodes, ghost rank: nat)
      requires Ready(all) && Bounded(Seen(), all, rank) && InC(c, all)
      modifies this
      ensures Ready(all) && InC(c, Seen())
      ensures Done(old(Seen()), Seen()) && Included(old(Seen()), Seen())
      decreases rank, 0
    {
      hide Numbered, Done, Bounded, Closed, FunctionIn, ClassIn, Included, ConstantsIn, AllIn, BoundIn, OverloadsIn, Ready;
      if c == null || c in classIndex {
        NothingDone(Seen());
        return;
      }
      ghost var before := Seen();
      EnterClass(c, all, rank);
      CollectParts(c, all, rank - 1);
      DoneClass(before, c, Seen());
    }

    method CollectParts(c: Class, ghost all: Nodes, ghost rank: nat)
      requires Ready(all) && Closed(all) && Bounded(Seen(), all, rank) && c in all.cs
      modifies this
      ensures Ready(all) && ClassIn(c, Seen())
      ensures Done(old(Seen()), Seen()) && Included(old(Seen()), Seen())
      decreases rank, 4
    {
      hide Numbered, Done, Bounded, Closed, FunctionIn, ClassIn, Included, ConstantsIn, AllIn, BoundIn, OverloadsIn;
      hide Ready;
      ClassFrom(c, all);
      ghost var start := Seen();
      NothingDone(start);
      CollectClass(c.superclass, all, rank);
      ghost var s1 := Seen();
      Joined(start, start, s1, all, rank);
      CollectMethods(c.methods, c.methodOverloads, all, rank);
      ghost var s2 := Seen();
      Joined(start, s1, s2, all, rank);
      CollectMethods(c.staticMethods, c.staticMethodOverloads, all, rank);
      ghost var s3 := Seen();
      Joined(start, s2, s3, all, rank);
      CollectConstructors(c, all, rank);
      Joined(start, s3, Seen(), all, rank);
      SuperKept(c.superclass, s1, s2, s3, Seen());
      MethodsKept(c.methods, c.methodOverloads, s2, s3);
      MethodsKept(c.methods, c.methodOverloads, s3, Seen());
      MethodsKept(c.staticMethods, c.staticMethodOverloads, s3, Seen());
      ClassDone(c, Seen());
    }

    method CollectMethods(m: Bindings, overloads: Overloads, ghost all: Nodes, ghost rank: nat)
      requires Ready(all) && Bounded(Seen(), all, rank) && BoundIn(m, all) && OverloadsIn(overloads, all)
      modifies this
      ensures Ready(all) && BoundIn(m, Seen()) && OverloadsIn(overloads, Seen())
      ensures Done(old(Seen()), Seen()) && Included(old(Seen()), Seen())
      decreases rank, 3
    {
      hide Numbered, Done, Bounded, Closed, FunctionIn, ClassIn, Included;
      ghost var start := Seen();
      NothingDone(start);
      CollectBound(m, all, rank);
      ghost var mid := Seen();
      Joined(start, start, mid, all, rank);
      CollectOverloads(overloads, all, rank);
      Joined(start, mid, Seen(), all, rank);
      BoundKept(m, mid, Seen());
    }

    method CollectConstructors(c: Class, ghost all: Nodes, ghost rank: nat)
      requires Ready(all) && Bounded(Seen(), all, rank)
      requires InF(c.construct, all) && AllIn(c.constructorOverloads, all) && BoundIn(c.specialMethods, all)
      modifies this
      ensures Ready(all) && Done(old(Seen()), Seen()) && Included(old(Seen()), Seen())
      ensures InF(c.construct, Seen()) && AllIn(c.constructorOverloads, Seen()) && BoundIn(c.specialMethods, Seen())
      decreases rank, 3
    {
      hide Numbered, Done, Bounded, Closed, FunctionIn, ClassIn, Included;
      ghost var start := Seen();
      NothingDone(start);
      CollectFunction(c.construct, all, rank);
      ghost var s1 := Seen();
      Joined(start, start, s1, all, rank);
      CollectSlice(c.constructorOverloads, all, rank);
      ghost var s2 := Seen();
      Joined(start, s1, s2, all, rank);
      CollectBound(c.specialMethods, all, rank);
      Joined(start, s2, Seen(), all, rank);
      ConstructKept(c.construct, c.constructorOverloads, s1, s2, Seen());
    }

    /** The search from the entry numbers exactly the reachable functions and
        classes, each once. */
    method CollectReachable(entry: Function, ghost all: Nodes)
      requires Valid() && Seen() == Nodes({}, {}) && Closed(all) && entry in all.fs
      modifies this
      ensures Valid() && Seen() == Reach(entry, all) && Closed(Seen()) && entry in functionIndex
    {
      hide Numbered, InEveryF, InEveryC, Done, FunctionIn, ClassIn;
      ghost var reach := Reach(entry, all);
      ReachClosed(entry, all);
      CollectFunction(entry, reach, |reach.fs| + |reach.cs|);
      DoneAll(Seen());
      ReachLeast(entry, all, Seen());
    }
  }
}
