/** The slots of fields and methods along an inheritance chain. */
module ClassLayout {
  import opened Options

  datatype Field = Field(name: string, isStatic: bool)

  datatype Kind = Instance | Static | Constructor | Abstract | Native

  /** A method of a class declaration; functions are numbered. */
  datatype Method = Method(name: string, kind: Kind, fn: nat)

  datatype Decl = Decl(isEnum: bool, fields: seq<Field>, methods: seq<Method>)

  datatype Layout = Layout(
    fieldOrder: seq<string>, fieldIndex: map<string, nat>,
    methodOrder: seq<string>, methodIndex: map<string, nat>, methodTable: seq<nat>, methods: map<string, nat>)

  const EMPTY: Layout := Layout([], map[], [], map[], [], map[])

  // ----------------------------------------------------------- specification

  /** The names are the positions' and the other way round. */
  ghost predicate Indexed(order: seq<string>, index: map<string, nat>) {
    (forall k :: 0 <= k < |order| ==> order[k] in index && index[order[k]] == k) &&
    (forall n :: n in index ==> index[n] < |order| && order[index[n]] == n)
  }

  /** The function that a declaration gives an instance method: its last one. */
  function Declared(methods: seq<Method>, name: string): Option<nat> {
    if methods == [] then None
    else
      var m := methods[|methods| - 1];
      if m.kind == Instance && m.name == name then Some(m.fn) else Declared(methods[..|methods| - 1], name)
  }

  /** The function that the last class of the chain runs for a method: its own,
      or else the one it inherits. */
  function MostDerived(chain: seq<Decl>, name: string): Option<nat> {
    if chain == [] then None
    else
      match Declared(chain[|chain| - 1].methods, name)
      case Some(fn) => Some(fn)
      case None => MostDerived(chain[..|chain| - 1], name)
  }

  /** Method m of class c of the chain is the one that runs: an instance method
      of that name, with no later one in its class, nor in a later class. */
  predicate Overrides(chain: seq<Decl>, name: string, c: nat, m: nat) {
    c < |chain| && DeclaredAt(chain[c].methods, name, m) &&
    forall d :: c < d < |chain| ==> NotDeclared(chain[d].methods, name)
  }

  predicate DeclaredAt(methods: seq<Method>, name: string, m: nat) {
    m < |methods| && methods[m].kind == Instance && methods[m].name == name &&
    forall i :: m < i < |methods| ==> Another(methods[i], name)
  }

  predicate NotDeclared(methods: seq<Method>, name: string) {
    forall i :: 0 <= i < |methods| ==> Another(methods[i], name)
  }

  predicate Another(m: Method, name: string) { m.kind != Instance || m.name != name }

  lemma {:induction false} DeclaredLast(methods: seq<Method>, name: string)
    ensures match Declared(methods, name)
            case Some(fn) => exists m: nat :: DeclaredAt(methods, name, m) && methods[m].fn == fn
            case None => NotDeclared(methods, name)
  {
    if methods != [] {
      var n := |methods| - 1;
      var last := methods[n];
      if last.kind == Instance && last.name == name {
        assert DeclaredAt(methods, name, n);
      } else {
        DeclaredLast(methods[..n], name);
        if Declared(methods[..n], name).Some? {
          var m: nat :| DeclaredAt(methods[..n], name, m) && methods[..n][m].fn == Declared(methods, name).value;
          OneMore(methods, name, m);
        } else {
          NoneMore(methods, name);
        }
      }
    }
  }

  lemma OneMore(methods: seq<Method>, name: string, m: nat)
    requires methods != [] && Another(methods[|methods| - 1], name) && DeclaredAt(methods[..|methods| - 1], name, m)
    ensures DeclaredAt(methods, name, m) && methods[m] == methods[..|methods| - 1][m]
  {
    hide Another;
    forall i | m < i < |methods| ensures Another(methods[i], name) {
      if i < |methods| - 1 { assert methods[..|methods| - 1][i] == methods[i]; }
    }
  }

  lemma NoneMore(methods: seq<Method>, name: string)
    requires methods != [] && Another(methods[|methods| - 1], name) && NotDeclared(methods[..|methods| - 1], name)
    ensures NotDeclared(methods, name)
  {
    hide Another;
    forall i | 0 <= i < |methods| ensures Another(methods[i], name) {
      if i < |methods| - 1 { assert methods[..|methods| - 1][i] == methods[i]; }
    }
  }

  /** MostDerived finds the function of the method that runs, if there is one. */
  lemma {:induction false} MostDerivedRuns(chain: seq<Decl>, name: string)
    ensures match MostDerived(chain, name)
            case Some(fn) => exists c: nat, m: nat :: Overrides(chain, name, c, m) && chain[c].methods[m].fn == fn
            case None => forall c :: 0 <= c < |chain| ==> NotDeclared(chain[c].methods, name)
  {
    if chain != [] {
      var n := |chain| - 1;
      DeclaredLast(chain[n].methods, name);
      hide DeclaredAt, NotDeclared, Declared;
      if Declared(chain[n].methods, name).Some? {
        var m: nat :| DeclaredAt(chain[n].methods, name, m) && chain[n].methods[m].fn == MostDerived(chain, name).value;
        assert Overrides(chain, name, n, m);
      } else {
        MostDerivedRuns(chain[..n], name);
        if MostDerived(chain[..n], name).Some? {
          var c: nat, m: nat :| Overrides(chain[..n], name, c, m) &&
            chain[..n][c].methods[m].fn == MostDerived(chain, name).value;
          forall d | c < d < |chain| ensures NotDeclared(chain[d].methods, name) {
            if d < n { assert chain[d] == chain[..n][d]; }
          }
          assert Overrides(chain, name, c, m);
        }
      }
    }
  }

  /** The order with every name that it does not have appended, in order and
      once each. */
  function Extended(order: seq<string>, names: seq<string>): (r: seq<string>)
    ensures order <= r && forall x :: x in r <==> x in order || x in names
    decreases |names|
  {
    if names == [] then order
    else
      var n := |names| - 1;
      var r := Extended(order, names[..n]);
      assert names == names[..n] + [names[n]];
      if names[n] in r then r else r + [names[n]]
  }

  /** The fields that get slots: an enum's two own, then the instance fields. */
  function FieldNames(decl: Decl): seq<string> {
    (if decl.isEnum then ["name", "ordinal"] else []) + InstanceFields(decl.fields)
  }

  function InstanceFields(fields: seq<Field>): (r: seq<string>)
    ensures forall x :: x in r <==> exists k :: 0 <= k < |fields| && fields[k].name == x && !fields[k].isStatic
  {
    if fields == [] then []
    else
      var n := |fields| - 1;
      InstanceFields(fields[..n]) + if fields[n].isStatic then [] else [fields[n].name]
  }

  function InstanceMethods(methods: seq<Method>): (r: seq<string>)
    ensures forall x :: x in r <==> exists k :: 0 <= k < |methods| && methods[k].name == x && methods[k].kind == Instance
  {
    if methods == [] then []
    else
      var n := |methods| - 1;
      InstanceMethods(methods[..n]) + if methods[n].kind == Instance then [methods[n].name] else []
  }

  function Dispatch(chain: seq<Decl>): string -> Option<nat> { n => MostDerived(chain, n) }

  /** The layout is well formed and says what to run for every method. */
  ghost predicate Lays(l: Layout, runs: string -> Option<nat>) {
    Indexed(l.fieldOrder, l.fieldIndex) && Indexed(l.methodOrder, l.methodIndex) &&
    |l.methodTable| == |l.methodOrder| && l.methods.Keys == l.methodIndex.Keys &&
    (forall n :: n in l.methodIndex <==> runs(n).Some?) &&
    (forall n :: n in l.methodIndex ==> l.methodTable[l.methodIndex[n]] == runs(n).value == l.methods[n])
  }

  /** Every slot of the superclass is the same slot here. */
  ghost predicate Inherits(sub: Layout, super: Layout) {
    super.fieldOrder <= sub.fieldOrder && super.methodOrder <= sub.methodOrder
  }

  // -------------------------------------------------------------- the layout

  function WithField(l: Layout, name: string): Layout {
    if name in l.fieldIndex then l
    else l.(fieldIndex := l.fieldIndex[name := |l.fieldOrder|], fieldOrder := l.fieldOrder + [name])
  }

  function WithMethod(l: Layout, m: Method): Layout
    requires forall n :: n in l.methodIndex ==> l.methodIndex[n] < |l.methodTable|
  {
    if m.kind != Instance then l
    else if m.name in l.methodIndex then
      l.(methodTable := l.methodTable[l.methodIndex[m.name] := m.fn], methods := l.methods[m.name := m.fn])
    else
      l.(methodIndex := l.methodIndex[m.name := |l.methodOrder|], methodOrder := l.methodOrder + [m.name],
         methodTable := l.methodTable + [m.fn], methods := l.methods[m.name := m.fn])
  }

  lemma IndexedNext(order: seq<string>, index: map<string, nat>, name: string)
    requires Indexed(order, index) && name !in index
    ensures Indexed(order + [name], index[name := |order|])
  {
  }

  lemma FieldLaid(l: Layout, name: string, runs: string -> Option<nat>)
    requires Lays(l, runs)
    ensures Lays(WithField(l, name), runs) && Inherits(WithField(l, name), l) && name in WithField(l, name).fieldIndex
    ensures l.fieldIndex.Keys <= WithField(l, name).fieldIndex.Keys
  {
    hide Indexed;
    if name !in l.fieldIndex { IndexedNext(l.fieldOrder, l.fieldIndex, name); }
  }

  /** A method goes to its inherited slot, or to a new one. */
  lemma MethodLaid(l: Layout, m: Method, runs: string -> Option<nat>)
    requires Lays(l, runs)
    ensures Inherits(WithMethod(l, m), l)
    ensures Lays(WithMethod(l, m), n => if m.kind == Instance && n == m.name then Some(m.fn) else runs(n))
  {
  }

  /** What the methods so far change in what is inherited. */
  function Runs(chain: seq<Decl>, methods: seq<Method>): string -> Option<nat> {
    n => match Declared(methods, n) case Some(fn) => Some(fn) case None => MostDerived(chain, n)
  }

  /** The layout of the last class of the chain. An enum has no superclass: its
      two fields come first. */
  method CompileClass(ghost chain: seq<Decl>, superclass: Layout, decl: Decl) returns (l: Layout)
    requires Lays(superclass, Dispatch(chain))
    requires decl.isEnum ==> superclass == EMPTY
    ensures Lays(l, Dispatch(chain + [decl])) && Inherits(l, superclass)
    ensures l.fieldOrder == Extended(superclass.fieldOrder, FieldNames(decl))
    ensures l.methodOrder == Extended(superclass.methodOrder, InstanceMethods(decl.methods))
  {
    hide Lays;
    LaysSame(superclass, Dispatch(chain), Runs(chain, []));
    var fields := LayFields(Runs(chain, []), superclass, decl);
    l := LayMethods(chain, fields, decl.methods);
    assert (chain + [decl])[..|chain|] == chain;
    LaysSame(l, Runs(chain, decl.methods), Dispatch(chain + [decl]));
  }

  method LayFields(ghost runs: string -> Option<nat>, superclass: Layout, decl: Decl) returns (l: Layout)
    requires Lays(superclass, runs)
    ensures Lays(l, runs) && Inherits(l, superclass) && l.methodOrder == superclass.methodOrder
    ensures l.fieldOrder == Extended(superclass.fieldOrder, FieldNames(decl))
  {
    hide Lays, WithField, Extended, InstanceFields;
    l := superclass;
    ghost var names: seq<string> := [];
    NoneExtended(l.fieldOrder);
    if decl.isEnum {
      l := AddField(l, "name", runs, superclass, []);
      l := AddField(l, "ordinal", runs, superclass, [] + ["name"]);
      names := [] + ["name"] + ["ordinal"];
      assert names == ["name", "ordinal"];
    }
    NoFields();
    assert decl.fields[..0] == [] && names + [] == names;
    for k := 0 to |decl.fields|
      invariant Lays(l, runs) && Inherits(l, superclass) && l.methodOrder == superclass.methodOrder
      invariant l.fieldOrder == Extended(superclass.fieldOrder, names + InstanceFields(decl.fields[..k]))
    {
      FieldsNext(decl.fields, k);
      if !decl.fields[k].isStatic {
        l := AddField(l, decl.fields[k].name, runs, superclass, names + InstanceFields(decl.fields[..k]));
        assert names + InstanceFields(decl.fields[..k]) + [decl.fields[k].name] ==
               names + InstanceFields(decl.fields[..k + 1]);
      } else {
        assert InstanceFields(decl.fields[..k]) + [] == InstanceFields(decl.fields[..k]);
      }
    }
    assert decl.fields[..|decl.fields|] == decl.fields;
  }

  method AddField(l: Layout, name: string, ghost runs: string -> Option<nat>, ghost superclass: Layout,
                  ghost names: seq<string>) returns (r: Layout)
    requires Lays(l, runs) && Inherits(l, superclass) && l.methodOrder == superclass.methodOrder
    requires l.fieldOrder == Extended(superclass.fieldOrder, names)
    ensures Lays(r, runs) && Inherits(r, superclass) && r.methodOrder == superclass.methodOrder
    ensures r.fieldOrder == Extended(superclass.fieldOrder, names + [name])
  {
    FieldLaid(l, name, runs);
    assert (names + [name])[..|names|] == names;
    r := WithField(l, name);
  }

  lemma NoneExtended(order: seq<string>)
    ensures Extended(order, []) == order
  {
  }

  lemma NoFields()
    ensures InstanceFields([]) == []
  {
  }

  lemma FieldsNext(fields: seq<Field>, k: nat)
    requires k < |fields|
    ensures InstanceFields(fields[..k + 1]) ==
            InstanceFields(fields[..k]) + if fields[k].isStatic then [] else [fields[k].name]
  {
    assert fields[..k + 1][..k] == fields[..k];
  }

  lemma NoMethods()
    ensures InstanceMethods([]) == []
  {
  }

  lemma RunsNext(chain: seq<Decl>, methods: seq<Method>, k: nat, l: Layout)
    requires k < |methods|
    requires var before, m := Runs(chain, methods[..k]), methods[k];
             Lays(l, n => if m.kind == Instance && n == m.name then Some(m.fn) else before(n))
    ensures Lays(l, Runs(chain, methods[..k + 1]))
  {
    hide Lays;
    assert methods[..k + 1][..k] == methods[..k];
    var before, m := Runs(chain, methods[..k]), methods[k];
    LaysSame(l, n => if m.kind == Instance && n == m.name then Some(m.fn) else before(n), Runs(chain, methods[..k + 1]));
  }

  lemma MethodsNext(methods: seq<Method>, k: nat)
    requires k < |methods|
    ensures InstanceMethods(methods[..k + 1]) ==
            InstanceMethods(methods[..k]) + if methods[k].kind == Instance then [methods[k].name] else []
  {
    assert methods[..k + 1][..k] == methods[..k];
  }

  method LayMethods(ghost chain: seq<Decl>, fields: Layout, methods: seq<Method>) returns (l: Layout)
    requires Lays(fields, Runs(chain, []))
    ensures Lays(l, Runs(chain, methods)) && Inherits(l, fields) && l.fieldOrder == fields.fieldOrder
    ensures l.methodOrder == Extended(fields.methodOrder, InstanceMethods(methods))
  {
    hide Lays, Extended, InstanceMethods, Runs;
    l := fields;
    assert methods[..0] == [];
    NoneExtended(l.methodOrder);
    NoMethods();
    for k := 0 to |methods|
      invariant Lays(l, Runs(chain, methods[..k])) && Inherits(l, fields) && l.fieldOrder == fields.fieldOrder
      invariant l.methodOrder == Extended(fields.methodOrder, InstanceMethods(methods[..k]))
    {
      MethodsNext(methods, k);
      l := AddMethod(l, methods[k], Runs(chain, methods[..k]), fields.methodOrder, InstanceMethods(methods[..k]));
      RunsNext(chain, methods, k, l);
    }
    assert methods[..|methods|] == methods;
  }

  method AddMethod(l: Layout, m: Method, ghost runs: string -> Option<nat>, ghost order: seq<string>,
                   ghost names: seq<string>) returns (r: Layout)
    requires Lays(l, runs) && l.methodOrder == Extended(order, names)
    ensures Lays(r, n => if m.kind == Instance && n == m.name then Some(m.fn) else runs(n))
    ensures Inherits(r, l) && r.fieldOrder == l.fieldOrder
    ensures r.methodOrder == Extended(order, names + if m.kind == Instance then [m.name] else [])
  {
    MethodLaid(l, m, runs);
    assert (names + [m.name])[..|names|] == names && names + [] == names;
    r := WithMethod(l, m);
  }

  lemma LaysSame(l: Layout, f: string -> Option<nat>, g: string -> Option<nat>)
    requires Lays(l, f) && forall n :: f(n) == g(n)
    ensures Lays(l, g)
  {
  }

  // --------------------------------------------------------------- hierarchy

  /** The layouts of a chain of classes, each a subclass of the one before. */
  ghost predicate Hierarchy(chain: seq<Decl>, ls: seq<Layout>) {
    |ls| == |chain| &&
    forall k :: 0 <= k < |chain| ==>
      Lays(ls[k], Dispatch(chain[..k + 1])) && (k > 0 ==> Inherits(ls[k], ls[k - 1]))
  }

  method CompileChain(chain: seq<Decl>) returns (ls: seq<Layout>)
    requires forall k :: 0 < k < |chain| ==> !chain[k].isEnum
    ensures Hierarchy(chain, ls)
  {
    hide Hierarchy, Lays, Inherits, Dispatch;
    ls := [];
    var last := EMPTY;
    EmptyLaid();
    NoClasses();
    assert chain[..0] == [];
    for k := 0 to |chain|
      invariant |ls| == k && last == (if k == 0 then EMPTY else ls[k - 1])
      invariant Lays(last, Dispatch(chain[..k])) && Hierarchy(chain[..k], ls)
    {
      var l := CompileClass(chain[..k], last, chain[k]);
      assert chain[..k] + [chain[k]] == chain[..k + 1];
      HierarchyNext(chain, ls, l);
      last := l;
      ls := ls + [last];
    }
    assert chain[..|chain|] == chain;
  }

  lemma HierarchyNext(chain: seq<Decl>, ls: seq<Layout>, l: Layout)
    requires |ls| < |chain| && Hierarchy(chain[..|ls|], ls) && Lays(l, Dispatch(chain[..|ls| + 1]))
    requires ls != [] ==> Inherits(l, ls[|ls| - 1])
    ensures Hierarchy(chain[..|ls| + 1], ls + [l])
  {
    hide Lays, Inherits, Dispatch;
    var before, after := chain[..|ls|], chain[..|ls| + 1];
    forall k | 0 <= k < |after|
      ensures Lays((ls + [l])[k], Dispatch(after[..k + 1])) && (k > 0 ==> Inherits((ls + [l])[k], (ls + [l])[k - 1]))
    {
      if k < |ls| { assert after[..k + 1] == before[..k + 1]; } else { assert after[..k + 1] == after; }
    }
  }

  lemma NoClasses()
    ensures Hierarchy([], [])
  {
  }

  lemma EmptyLaid()
    ensures Lays(EMPTY, Dispatch([]))
  {
  }

  lemma {:induction false} SlotsInherited(chain: seq<Decl>, ls: seq<Layout>, i: nat, j: nat)
    requires Hierarchy(chain, ls) && i <= j < |ls|
    ensures Inherits(ls[j], ls[i])
    decreases j
  {
    hide Lays;
    if i < j { SlotsInherited(chain, ls, i, j - 1); }
  }

  /** A call compiled against class i, through the slot that its layout gives
      the name, runs on an instance of any subclass j the function of the most
      derived override; a field keeps its slot too. */
  lemma StaticSlots(chain: seq<Decl>, ls: seq<Layout>, i: nat, j: nat, name: string)
    requires Hierarchy(chain, ls) && i <= j < |ls|
    ensures name in ls[i].methodIndex ==>
              var slot := ls[i].methodIndex[name];
              slot < |ls[j].methodTable| &&
              exists c: nat, m: nat :: Overrides(chain[..j + 1], name, c, m) && chain[c].methods[m].fn == ls[j].methodTable[slot]
    ensures name in ls[i].fieldIndex ==>
              name in ls[j].fieldIndex && ls[j].fieldIndex[name] == ls[i].fieldIndex[name]
  {
    SlotsInherited(chain, ls, i, j);
    MostDerivedRuns(chain[..j + 1], name);
    hide Overrides;
    var a, b := ls[i], ls[j];
    assert Lays(a, Dispatch(chain[..i + 1])) && Lays(b, Dispatch(chain[..j + 1]));
    if name in a.methodIndex { assert b.methodOrder[a.methodIndex[name]] == name; }
    if name in a.fieldIndex { assert b.fieldOrder[a.fieldIndex[name]] == name; }
  }
}
