/** Deep copies of cyclic, shared object graphs, on the heap. */
module DeepCopies {
  datatype Scalar = SNil | SBool(b: bool) | SNumber(i: int) | SChar(c: char) | SText(s: string)

  /** A runtime value: a scalar, an object value without an object, or a
      reference. */
  datatype Val = Atom(s: Scalar) | NoObject | Ref(o: Node)

  /** What an object is, apart from the values it holds. Class, function and
      handle identities are numbers. Shared stands for the objects that are
      never copied: functions, builtins, modules, classes, native handles. */
  datatype Shape =
    | Tuple
    | Array
    | DenseArray(kind: nat, data: seq<Scalar>)
    | Map
    | Instance(cls: nat, frozen: bool)
    | Cell
    | Closure(fn: nat)
    | Range(start: int, end: int, step: int)
    | Shared(handle: nat)

  /** The fields of an object. Elements, fields, the value of a cell and the
      captures of a closure are in `elems`; maps use `entries`. */
  datatype Content = Content(shape: Shape, elems: seq<Val>, entries: map<string, Val>)

  /** A heap object. */
  class Node {
    var shape: Shape
    var elems: seq<Val>
    var entries: map<string, Val>

    constructor (shape: Shape, elems: seq<Val>, entries: map<string, Val>)
      ensures Now() == Content(shape, elems, entries)
    {
      this.shape, this.elems, this.entries := shape, elems, entries;
    }

    function Now(): Content
      reads this
    {
      Content(shape, elems, entries)
    }
  }

  /** A set of objects with their fields at one moment. */
  type Graph = map<Node, Content>

  /** The objects still have those fields. */
  ghost predicate Unchanged(g: Graph)
    reads g.Keys
  {
    forall n :: n in g ==> n.Now() == g[n]
  }

  /** Maps have entries, the others elements, dense arrays and ranges neither,
      cells exactly one value. */
  predicate WellShaped(c: Content) {
    (!c.shape.Map? ==> c.entries == map[]) &&
    (c.shape.Map? || c.shape.DenseArray? || c.shape.Range? ==> c.elems == []) &&
    (c.shape.Cell? ==> |c.elems| == 1)
  }

  predicate Within(v: Val, g: Graph) { v.Ref? ==> v.o in g }

  /** Every object that is referred to is in the graph. */
  ghost predicate Closed(g: Graph) {
    forall n :: n in g ==> ContentClosed(g[n], g)
  }

  ghost predicate ContentClosed(c: Content, g: Graph) {
    WellShaped(c) &&
    (forall i :: 0 <= i < |c.elems| ==> Within(c.elems[i], g)) &&
    (forall k :: k in c.entries ==> Within(c.entries[k], g))
  }

  predicate Copied(v: Val, g: Graph) { v.Ref? && v.o in g && !g[v.o].shape.Shared? }

  /** The copy of a value, under a map from objects to their copies: only
      objects that are never copied are shared. */
  predicate Image(v: Val, r: Val, copies: map<Node, Node>, g: Graph) {
    if Copied(v, g) then v.o in copies && r == Ref(copies[v.o]) else r == v
  }

  /** b is a with every value replaced by its copy. */
  ghost predicate CopyOf(a: Content, b: Content, copies: map<Node, Node>, g: Graph) {
    b.shape == a.shape && |b.elems| == |a.elems| && b.entries.Keys == a.entries.Keys &&
    (forall i :: 0 <= i < |a.elems| ==> Image(a.elems[i], b.elems[i], copies, g)) &&
    (forall k :: k in a.entries ==> Image(a.entries[k], b.entries[k], copies, g))
  }

  ghost predicate Injective(m: map<Node, Node>) {
    forall a, b :: a in m && b in m && a != b ==> m[a] != m[b]
  }

  ghost predicate Extends(after: map<Node, Node>, before: map<Node, Node>) {
    forall n :: n in before ==> n in after && after[n] == before[n]
  }

  lemma ImageKept(v: Val, r: Val, before: map<Node, Node>, after: map<Node, Node>, g: Graph)
    requires Image(v, r, before, g) && Extends(after, before)
    ensures Image(v, r, after, g)
  {
  }

  lemma CopyKept(a: Content, b: Content, before: map<Node, Node>, after: map<Node, Node>, g: Graph)
    requires CopyOf(a, b, before, g) && Extends(after, before)
    ensures CopyOf(a, b, after, g)
  {
    forall i | 0 <= i < |a.elems| ensures Image(a.elems[i], b.elems[i], after, g) {
      ImageKept(a.elems[i], b.elems[i], before, after, g);
    }
    forall k | k in a.entries ensures Image(a.entries[k], b.entries[k], after, g) {
      ImageKept(a.entries[k], b.entries[k], before, after, g);
    }
  }

  /** The objects copied after `before`. */
  ghost function NewKeys(visited: map<Node, Node>, before: map<Node, Node>): set<Node> {
    visited.Keys - before.Keys
  }

  ghost function NewCopies(visited: map<Node, Node>, before: map<Node, Node>): set<Node> {
    set n | n in NewKeys(visited, before) :: visited[n]
  }

  /** A table of copies: only copyable objects of the graph, each to its own
      object outside the graph. */
  ghost predicate Table(visited: map<Node, Node>, g: Graph) {
    Injective(visited) && forall n :: n in visited ==> n in g && !g[n].shape.Shared? && visited[n] !in g
  }

  /** At most `rank` objects are not in the table. */
  ghost predicate Bounded(visited: map<Node, Node>, g: Graph, rank: nat) { |g.Keys - visited.Keys| <= rank }

  /** The copies made after `before` are complete. */
  ghost predicate Complete(visited: map<Node, Node>, before: map<Node, Node>, g: Graph)
    reads NewCopies(visited, before)
  {
    forall n :: n in NewKeys(visited, before) ==>
      visited[n] in NewCopies(visited, before) && n in g && CopyOf(g[n], visited[n].Now(), visited, g)
  }

  // -------------------------------------------------------------- set lemmas

  lemma NewCopyOf(visited: map<Node, Node>, before: map<Node, Node>, n: Node)
    requires n in NewKeys(visited, before)
    ensures n in visited && n !in before && visited[n] in NewCopies(visited, before)
  {
  }

  lemma CompleteAt(visited: map<Node, Node>, before: map<Node, Node>, g: Graph, n: Node)
    requires Complete(visited, before, g) && n in NewKeys(visited, before)
    ensures n in visited && n in g && CopyOf(g[n], visited[n].Now(), visited, g)
  {
    hide CopyOf;
  }

  lemma CompleteFrom(visited: map<Node, Node>, before: map<Node, Node>, g: Graph)
    requires forall n :: n in NewKeys(visited, before) ==> n in g && CopyOf(g[n], visited[n].Now(), visited, g)
    ensures Complete(visited, before, g)
  {
    hide CopyOf;
    forall n | n in NewKeys(visited, before) ensures visited[n] in NewCopies(visited, before) {
      NewCopyOf(visited, before, n);
    }
  }

  /** Copies made since `before` were made before or after `mid`. */
  lemma NewCopiesSplit(before: map<Node, Node>, mid: map<Node, Node>, visited: map<Node, Node>)
    requires Extends(visited, mid)
    ensures forall c :: c in NewCopies(visited, before) ==> c in NewCopies(mid, before) || c in NewCopies(visited, mid)
  {
    forall c | c in NewCopies(visited, before) ensures c in NewCopies(mid, before) || c in NewCopies(visited, mid) {
      var n :| n in NewKeys(visited, before) && visited[n] == c;
      if n in mid { NewCopyOf(mid, before, n); } else { NewCopyOf(visited, mid, n); }
    }
  }

  lemma NothingNew(visited: map<Node, Node>, g: Graph)
    ensures Extends(visited, visited) && NewCopies(visited, visited) == {} && Complete(visited, visited, g)
  {
  }

  lemma ExtendsAt(before: map<Node, Node>, after: map<Node, Node>, n: Node)
    requires Extends(after, before) && n in before
    ensures n in after && after[n] == before[n]
  {
  }

  lemma ExtendsTwice(a: map<Node, Node>, b: map<Node, Node>, c: map<Node, Node>)
    requires Extends(b, a) && Extends(c, b)
    ensures Extends(c, a)
  {
  }

  /** A new object enters the table. */
  lemma NewEntry(m: map<Node, Node>, n: Node, c: Node, g: Graph, rank: nat)
    requires Table(m, g) && n in g && n !in m && !g[n].shape.Shared? && c !in g
    requires forall k :: k in m ==> m[k] != c
    ensures Table(m[n := c], g) && Extends(m[n := c], m) && NewCopies(m[n := c], m) == {c}
    ensures Bounded(m, g, rank) ==> rank > 0 && Bounded(m[n := c], g, rank - 1)
  {
    hide Injective, Bounded, NewCopies, Table, Extends;
    TableEntry(m, n, c, g);
    OneCopy(m, n, c);
    if Bounded(m, g, rank) { BoundSpent(m, n, c, g, rank); }
  }

  lemma TableEntry(m: map<Node, Node>, n: Node, c: Node, g: Graph)
    requires Table(m, g) && n in g && n !in m && !g[n].shape.Shared? && c !in g
    requires forall k :: k in m ==> m[k] != c
    ensures Table(m[n := c], g) && Extends(m[n := c], m)
  {
    StillInjective(m, n, c);
    hide Injective;
  }

  lemma OneCopy(m: map<Node, Node>, n: Node, c: Node)
    requires n !in m
    ensures NewCopies(m[n := c], m) == {c}
  {
    assert NewKeys(m[n := c], m) == {n};
  }

  lemma BoundSpent(m: map<Node, Node>, n: Node, c: Node, g: Graph, rank: nat)
    requires n in g && n !in m && Bounded(m, g, rank)
    ensures rank > 0 && Bounded(m[n := c], g, rank - 1)
  {
    assert g.Keys - m.Keys == (g.Keys - m[n := c].Keys) + {n};
  }

  lemma StillInjective(m: map<Node, Node>, n: Node, c: Node)
    requires Injective(m) && forall k :: k in m ==> m[k] != c
    ensures Injective(m[n := c])
  {
  }

  lemma BoundKept(before: map<Node, Node>, after: map<Node, Node>, g: Graph, rank: nat)
    requires Extends(after, before) && Bounded(before, g, rank)
    ensures Bounded(after, g, rank)
  {
    var a, b := g.Keys - after.Keys, g.Keys - before.Keys;
    assert a <= b;
    assert |b| == |a| + |b - a|;
  }

  /** The copy of one object is the only one that is not complete. */
  lemma CompleteWith(before: map<Node, Node>, obj: Node, clone: Node, visited: map<Node, Node>, g: Graph)
    requires obj !in before && Extends(visited, before[obj := clone]) && obj in g
    requires Complete(visited, before[obj := clone], g) && CopyOf(g[obj], clone.Now(), visited, g)
    ensures Complete(visited, before, g)
  {
    hide CopyOf, Complete;
    var mid := before[obj := clone];
    assert obj in mid && visited[obj] == mid[obj];
    forall n | n in NewKeys(visited, before) ensures n in g && CopyOf(g[n], visited[n].Now(), visited, g) {
      if n != obj { CompleteAt(visited, mid, g, n); }
    }
    CompleteFrom(visited, before, g);
  }

  /** An object under construction is neither in the graph nor among the later
      copies. */
  lemma NotAmongCopies(visited: map<Node, Node>, before: map<Node, Node>, obj: Node, g: Graph)
    requires Table(visited, g) && Extends(visited, before) && obj in before
    ensures before[obj] !in g && before[obj] !in NewCopies(visited, before)
  {
    var clone := before[obj];
    assert obj in visited && visited[obj] == clone;
    forall n | n in NewKeys(visited, before) ensures visited[n] != clone {
      assert n != obj;
    }
  }

  lemma SameNow(n: Node, g: Graph)
    requires Unchanged(g) && n in g
    ensures n.Now() == g[n]
  {
  }

  lemma ShapeOf(n: Node, g: Graph)
    requires Closed(g) && n in g
    ensures ContentClosed(g[n], g)
  {
  }

  lemma ShapeFacts(a: Content, g: Graph)
    requires ContentClosed(a, g)
    ensures WellShaped(a)
  {
  }

  /** The first i elements are in place. */
  ghost predicate ElemsDone(c: Content, a: Content, i: nat, copies: map<Node, Node>, g: Graph) {
    i <= |a.elems| && c == Content(a.shape, c.elems, map[]) && |c.elems| == |a.elems| &&
    forall j :: 0 <= j < i ==> Image(a.elems[j], c.elems[j], copies, g)
  }

  lemma ElemsKept(c: Content, a: Content, i: nat, before: map<Node, Node>, after: map<Node, Node>, g: Graph)
    requires ElemsDone(c, a, i, before, g) && Extends(after, before)
    ensures ElemsDone(c, a, i, after, g)
  {
    forall j | 0 <= j < i ensures Image(a.elems[j], c.elems[j], after, g) {
      ImageKept(a.elems[j], c.elems[j], before, after, g);
    }
  }

  lemma ElemSet(c: Content, a: Content, i: nat, v: Val, copies: map<Node, Node>, g: Graph)
    requires ElemsDone(c, a, i, copies, g) && i < |a.elems| && Image(a.elems[i], v, copies, g)
    ensures ElemsDone(c.(elems := c.elems[i := v]), a, i + 1, copies, g)
  {
  }

  lemma ElemsAll(c: Content, a: Content, copies: map<Node, Node>, g: Graph)
    requires ElemsDone(c, a, |a.elems|, copies, g) && a.entries == map[]
    ensures CopyOf(a, c, copies, g)
  {
  }

  /** The entries of the first i keys are in place. */
  ghost predicate EntriesDone(c: Content, a: Content, keys: seq<string>, i: nat, copies: map<Node, Node>, g: Graph) {
    i <= |keys| && c == Content(a.shape, [], c.entries) && (forall j :: 0 <= j < i ==> keys[j] in c.entries) &&
    (forall k :: k in c.entries ==> k in a.entries && Image(a.entries[k], c.entries[k], copies, g))
  }

  lemma EntriesKept(c: Content, a: Content, keys: seq<string>, i: nat, before: map<Node, Node>, after: map<Node, Node>,
                    g: Graph)
    requires EntriesDone(c, a, keys, i, before, g) && Extends(after, before)
    ensures EntriesDone(c, a, keys, i, after, g)
  {
    forall k | k in c.entries ensures Image(a.entries[k], c.entries[k], after, g) {
      ImageKept(a.entries[k], c.entries[k], before, after, g);
    }
  }

  lemma EntrySet(c: Content, a: Content, keys: seq<string>, i: nat, v: Val, copies: map<Node, Node>, g: Graph)
    requires EntriesDone(c, a, keys, i, copies, g) && i < |keys| && keys[i] in a.entries
    requires Image(a.entries[keys[i]], v, copies, g)
    ensures EntriesDone(c.(entries := c.entries[keys[i] := v]), a, keys, i + 1, copies, g)
  {
  }

  lemma EntriesAll(c: Content, a: Content, keys: seq<string>, copies: map<Node, Node>, g: Graph)
    requires EntriesDone(c, a, keys, |keys|, copies, g) && a.elems == []
    requires forall k :: k in a.entries ==> k in keys
    ensures CopyOf(a, c, copies, g)
  {
    forall k | k in a.entries ensures k in c.entries {
      var j :| 0 <= j < |keys| && keys[j] == k;
    }
    assert c.entries.Keys == a.entries.Keys;
  }

  lemma NoEntries(c: Content, a: Content, keys: seq<string>, copies: map<Node, Node>, g: Graph)
    requires EntriesDone(c, a, [], 0, copies, g)
    ensures EntriesDone(c, a, keys, 0, copies, g)
  {
  }

  /** The keys of a map, in any order. */
  method KeyList(m: map<string, Val>) returns (keys: seq<string>)
    ensures forall k :: k in keys <==> k in m
  {
    var rest := m.Keys;
    keys := [];
    while rest != {}
      invariant rest <= m.Keys && forall k :: k in keys <==> k in m && k !in rest
      decreases rest
    {
      var k :| k in rest;
      keys, rest := keys + [k], rest - {k};
    }
  }

  /** The values of an object lead into the graph. */
  lemma ElemWithin(a: Content, i: nat, g: Graph)
    requires ContentClosed(a, g) && i < |a.elems|
    ensures Within(a.elems[i], g)
  {
  }

  lemma EntryWithin(a: Content, k: string, g: Graph)
    requires ContentClosed(a, g) && k in a.entries
    ensures Within(a.entries[k], g)
  {
  }

  /** The `visited` table of one deep copy. */
  class Copier {
    var visited: map<Node, Node>

    constructor ()
      ensures visited == map[]
    {
      visited := map[];
    }

    /** deepCopyValue: nothing but the table and new objects change. */
    method CopyValue(v: Val, ghost g: Graph, ghost rank: nat) returns (r: Val)
      requires Closed(g) && Unchanged(g) && Within(v, g) && Table(visited, g) && Bounded(visited, g, rank)
      modifies this
      ensures Table(visited, g) && Extends(visited, old(visited)) && Image(v, r, visited, g)
      ensures forall c :: c in NewCopies(visited, old(visited)) ==> fresh(c)
      ensures Complete(visited, old(visited), g)
      decreases rank, 1
    {
      hide Closed, Injective, CopyOf, Bounded;
      if !v.Ref? { return v; }
      var obj := v.o;
      assert obj.Now() == g[obj];
      if obj in visited { return Ref(visited[obj]); }
      if obj.shape.Shared? { return v; }
      var clone := CopyObject(obj, g, rank);
      r := Ref(clone);
    }

    /** A first visit: the copy enters the table before its values are copied,
        so that cycles meet it. */
    method CopyObject(obj: Node, ghost g: Graph, ghost rank: nat) returns (clone: Node)
      requires Closed(g) && Unchanged(g) && Table(visited, g) && obj in g && obj !in visited && !g[obj].shape.Shared?
      requires Bounded(visited, g, rank)
      modifies this
      ensures Table(visited, g) && Extends(visited, old(visited)) && obj in visited && visited[obj] == clone
      ensures forall c :: c in NewCopies(visited, old(visited)) ==> fresh(c)
      ensures Complete(visited, old(visited), g)
      decreases rank, 0
    {
      hide Closed, Injective, CopyOf, Complete, Table, NewCopies, Extends, Bounded, Unchanged;
      ghost var before := visited;
      SameNow(obj, g);
      clone := NewClone(obj);
      NewEntry(before, obj, clone, g, rank);
      visited := visited[obj := clone];
      ghost var mid := visited;
      NothingNew(mid, g);
      BuildStarts(obj, clone, g);
      if obj.shape.Map? { CopyEntries(obj, clone, g, rank - 1); }
      else { CopyElements(obj, clone, g, rank - 1); }
      BuildFacts(obj, clone, mid, g);
      NewCopiesSplit(before, mid, visited);
      ExtendsTwice(before, mid, visited);
      ExtendsAt(mid, visited, obj);
      CompleteWith(before, obj, clone, visited, g);
    }

    lemma BuildStarts(obj: Node, clone: Node, g: Graph)
      requires Closed(g) && Unchanged(g) && Table(visited, g) && obj in g && obj in visited && visited[obj] == clone
      requires clone.Now() == Content(g[obj].shape, clone.elems, map[]) && |clone.elems| == |g[obj].elems|
      ensures Building(obj, clone, visited, g)
      ensures if g[obj].shape.Map? then EntriesDone(clone.Now(), g[obj], [], 0, visited, g)
              else ElemsDone(clone.Now(), g[obj], 0, visited, g)
    {
      NothingNew(visited, g);
      ShapeOf(obj, g);
    }

    lemma BuildFacts(obj: Node, clone: Node, before: map<Node, Node>, g: Graph)
      requires Building(obj, clone, before, g)
      ensures Table(visited, g) && Extends(visited, before) && Complete(visited, before, g)
    {
    }

    /** A blank object of the same shape and size. */
    method NewClone(obj: Node) returns (clone: Node)
      ensures fresh(clone) && clone.Now() == Content(obj.shape, clone.elems, map[]) && |clone.elems| == |obj.elems|
    {
      var blank := seq(|obj.elems|, i => Atom(SNil));
      clone := new Node(obj.shape, blank, map[]);
    }

    /** Copies one more value: everything copied since `before` stays complete. */
    method CopyNext(v: Val, ghost before: map<Node, Node>, ghost g: Graph, ghost rank: nat) returns (r: Val)
      requires Closed(g) && Unchanged(g) && Table(visited, g) && Within(v, g)
      requires Extends(visited, before) && Complete(visited, before, g) && Bounded(visited, g, rank)
      modifies this
      ensures Table(visited, g) && Extends(visited, old(visited)) && Extends(visited, before) && Image(v, r, visited, g)
      ensures forall c :: c in NewCopies(visited, before) ==> c in NewCopies(old(visited), before) || fresh(c)
      ensures Complete(visited, before, g)
      decreases rank, 2
    {
      hide Closed, Injective, CopyOf, NewCopies, Table, Bounded;
      ghost var was := visited;
      r := CopyValue(v, g, rank);
      assert Complete(was, before, g);
      NewCopiesSplit(before, was, visited);
      ExtendsTwice(before, was, visited);
      forall n | n in NewKeys(visited, before) ensures n in g && CopyOf(g[n], visited[n].Now(), visited, g) {
        if n in was {
          CompleteAt(was, before, g, n);
          CopyKept(g[n], visited[n].Now(), was, visited, g);
        } else {
          CompleteAt(visited, was, g, n);
        }
      }
      CompleteFrom(visited, before, g);
    }

    /** The copy `clone` of obj is under construction since the table was
        `before`, and everything else copied since is complete. */
    ghost predicate Building(obj: Node, clone: Node, before: map<Node, Node>, g: Graph)
      reads this, g.Keys, NewCopies(visited, before)
    {
      Closed(g) && Unchanged(g) && Table(visited, g) && Extends(visited, before) && Complete(visited, before, g) &&
      obj in g && obj in before && before[obj] == clone
    }

    lemma NotCopying(obj: Node, clone: Node, before: map<Node, Node>, g: Graph)
      requires Building(obj, clone, before, g)
      ensures clone !in g && clone !in NewCopies(visited, before) && obj in g && obj.Now() == g[obj]
      ensures ContentClosed(g[obj], g)
    {
      hide Complete;
      NotAmongCopies(visited, before, obj, g);
    }

    /** One more value of the object under construction. */
    method CopySlot(v: Val, obj: Node, clone: Node, ghost before: map<Node, Node>, ghost g: Graph, ghost rank: nat) returns (r: Val)
      requires Building(obj, clone, before, g) && Within(v, g) && Bounded(before, g, rank)
      modifies this
      ensures Building(obj, clone, before, g) && Extends(visited, old(visited)) && Image(v, r, visited, g)
      ensures clone !in g && clone !in NewCopies(visited, before)
      ensures forall c :: c in NewCopies(visited, before) ==> c in NewCopies(old(visited), before) || fresh(c)
      decreases rank, 3
    {
      hide Closed, Injective, CopyOf, NewCopies, Extends, Table, Complete, Bounded;
      BoundKept(before, visited, g, rank);
      r := CopyNext(v, before, g, rank);
      NotAmongCopies(visited, before, obj, g);
    }

    method CopyElement(v: Val, i: nat, obj: Node, clone: Node, ghost before: map<Node, Node>, ghost g: Graph, ghost rank: nat)
      requires Bounded(before, g, rank)
      requires Building(obj, clone, before, g) && i < |g[obj].elems| && ElemsDone(clone.Now(), g[obj], i, visited, g)
      requires v == g[obj].elems[i]
      modifies this, clone
      ensures Building(obj, clone, before, g) && ElemsDone(clone.Now(), g[obj], i + 1, visited, g)
      ensures forall c :: c in NewCopies(visited, before) ==> c in NewCopies(old(visited), before) || fresh(c)
      decreases rank, 4
    {
      NotCopying(obj, clone, before, g);
      hide Building, NewCopies, Bounded, Extends, Image, ElemsDone, ContentClosed, Within;
      ghost var was, c, a := visited, clone.Now(), g[obj];
      ElemWithin(a, i, g);
      var copied := CopySlot(v, obj, clone, before, g, rank);
      ElemsKept(c, a, i, was, visited, g);
      ElemSet(c, a, i, copied, visited, g);
      SetElem(clone, i, copied);
      assert clone.Now() == c.(elems := c.elems[i := copied]);
    }

    method SetElem(clone: Node, i: nat, v: Val)
      requires i < |clone.elems|
      modifies clone
      ensures clone.Now() == old(clone.Now()).(elems := old(clone.elems)[i := v])
    {
      clone.elems := clone.elems[i := v];
    }

    /** Fills in the elements of a copy that is already in the table. */
    method CopyElements(obj: Node, clone: Node, ghost g: Graph, ghost rank: nat)
      requires Bounded(visited, g, rank)
      requires Building(obj, clone, visited, g) && !g[obj].shape.Map? && ElemsDone(clone.Now(), g[obj], 0, visited, g)
      modifies this, clone
      ensures Building(obj, clone, old(visited), g) && CopyOf(g[obj], clone.Now(), visited, g)
      ensures forall c :: c in NewCopies(visited, old(visited)) ==> fresh(c)
      decreases rank, 5
    {
      ghost var before := visited;
      NotCopying(obj, clone, before, g);
      NothingNew(visited, g);
      ShapeFacts(g[obj], g);
      assert g[obj].entries == map[];
      hide Building, NewCopies, Bounded, Image, CopyOf, ElemsDone, ContentClosed, WellShaped, Complete, Extends;
      var values := obj.elems;
      var i := 0;
      while i < |values|
        invariant 0 <= i <= |values|
        invariant Building(obj, clone, before, g) && ElemsDone(clone.Now(), g[obj], i, visited, g)
        invariant forall c :: c in NewCopies(visited, before) ==> fresh(c)
      {
        CopyElement(values[i], i, obj, clone, before, g, rank);
        i := i + 1;
      }
      ElemsAll(clone.Now(), g[obj], visited, g);
    }

    method CopyEntry(v: Val, keys: seq<string>, i: nat, obj: Node, clone: Node, ghost before: map<Node, Node>,
                     ghost g: Graph, ghost rank: nat)
      requires Bounded(before, g, rank) && Building(obj, clone, before, g)
      requires i < |keys| && keys[i] in g[obj].entries && v == g[obj].entries[keys[i]]
      requires EntriesDone(clone.Now(), g[obj], keys, i, visited, g)
      modifies this, clone
      ensures Building(obj, clone, before, g) && EntriesDone(clone.Now(), g[obj], keys, i + 1, visited, g)
      ensures forall c :: c in NewCopies(visited, before) ==> c in NewCopies(old(visited), before) || fresh(c)
      decreases rank, 4
    {
      NotCopying(obj, clone, before, g);
      hide Building, NewCopies, Bounded, Extends, Image, EntriesDone, ContentClosed, Within;
      ghost var was, c, a := visited, clone.Now(), g[obj];
      EntryWithin(a, keys[i], g);
      var copied := CopySlot(v, obj, clone, before, g, rank);
      EntriesKept(c, a, keys, i, was, visited, g);
      EntrySet(c, a, keys, i, copied, visited, g);
      SetEntry(clone, keys[i], copied);
      assert clone.Now() == c.(entries := c.entries[keys[i] := copied]);
    }

    method SetEntry(clone: Node, key: string, v: Val)
      modifies clone
      ensures clone.Now() == old(clone.Now()).(entries := old(clone.entries)[key := v])
    {
      clone.entries := clone.entries[key := v];
    }

    /** Fills in the entries of a copied map, in any order. */
    method CopyEntries(obj: Node, clone: Node, ghost g: Graph, ghost rank: nat)
      requires Bounded(visited, g, rank)
      requires Building(obj, clone, visited, g) && g[obj].shape.Map?
      requires EntriesDone(clone.Now(), g[obj], [], 0, visited, g)
      modifies this, clone
      ensures Building(obj, clone, old(visited), g) && CopyOf(g[obj], clone.Now(), visited, g)
      ensures forall c :: c in NewCopies(visited, old(visited)) ==> fresh(c)
      decreases rank, 6
    {
      NotCopying(obj, clone, visited, g);
      ShapeFacts(g[obj], g);
      assert g[obj].elems == [];
      hide Building, NewCopies, Bounded, Image, CopyOf, EntriesDone, ContentClosed, WellShaped, Complete, Extends;
      var values := obj.entries;
      var keys := KeyList(values);
      NoEntries(clone.Now(), g[obj], keys, visited, g);
      FillEntries(values, keys, obj, clone, g, rank);
      EntriesAll(clone.Now(), g[obj], keys, visited, g);
    }

    method FillEntries(values: map<string, Val>, keys: seq<string>, obj: Node, clone: Node, ghost g: Graph,
                       ghost rank: nat)
      requires Bounded(visited, g, rank) && Building(obj, clone, visited, g)
      requires values == g[obj].entries && (forall i :: 0 <= i < |keys| ==> keys[i] in values)
      requires EntriesDone(clone.Now(), g[obj], keys, 0, visited, g)
      modifies this, clone
      ensures Building(obj, clone, old(visited), g) && EntriesDone(clone.Now(), g[obj], keys, |keys|, visited, g)
      ensures forall c :: c in NewCopies(visited, old(visited)) ==> fresh(c)
      decreases rank, 5
    {
      ghost var before := visited;
      NothingNew(visited, g);
      assert obj in g;
      hide Building, NewCopies, Bounded, Image, EntriesDone, Complete, Extends, CopyOf, ContentClosed, WellShaped,
           Closed, Table, Unchanged, NewKeys, Injective, Within;
      var i := 0;
      while i < |keys|
        invariant 0 <= i <= |keys|
        invariant Building(obj, clone, before, g) && EntriesDone(clone.Now(), g[obj], keys, i, visited, g)
        invariant forall c :: c in NewCopies(visited, before) ==> fresh(c)
      {
        var key := keys[i];
        CopyEntry(values[key], keys, i, obj, clone, before, g, rank);
        i := i + 1;
      }
    }
  }

  ghost function Snapshot(heap: set<Node>): (g: Graph)
    reads heap
    ensures g.Keys == heap && Unchanged(g)
  {
    map n | n in heap :: n.Now()
  }

  /** The fields of the copies. */
  ghost function CopyGraph(copies: map<Node, Node>): (h: Graph)
    reads copies.Values
  {
    map c | c in copies.Values :: c.Now()
  }

  /** r with the objects h is a copy of v with the objects g: `copies` maps
      objects one to one, and every field follows it. */
  ghost predicate IsCopy(v: Val, g: Graph, r: Val, h: Graph, copies: map<Node, Node>) {
    Table(copies, g) && Image(v, r, copies, g) && h.Keys == copies.Values &&
    forall n :: n in copies ==> copies[n] in h && CopyOf(g[n], h[copies[n]], copies, g)
  }

  /** DeepCopy. The ghost results are the original objects, the copies, and
      which copy is whose. Nothing that existed before is changed. */
  method DeepCopy(v: Val, ghost heap: set<Node>) returns (r: Val, ghost g: Graph, ghost h: Graph, ghost copies: map<Node, Node>)
    requires Closed(Snapshot(heap)) && (v.Ref? ==> v.o in heap)
    ensures g == old(Snapshot(heap)) && Unchanged(g) && Unchanged(h)
    ensures IsCopy(v, g, r, h, copies) && forall n :: n in copies ==> fresh(copies[n])
  {
    hide Closed, CopyOf, Injective, Table, Complete, Image, Bounded, CopyGraph, IsCopy, NewCopies;
    g := Snapshot(heap);
    var copier := new Copier();
    Unbounded(g);
    r := copier.CopyValue(v, g, |g.Keys|);
    copies := copier.visited;
    h := CopyGraph(copies);
    GraphIsCopy(v, r, g, copies);
    forall n | n in copies ensures fresh(copies[n]) { NewCopyOf(copies, map[], n); }
  }

  lemma GraphIsCopy(v: Val, r: Val, g: Graph, copies: map<Node, Node>)
    requires Table(copies, g) && Complete(copies, map[], g) && Image(v, r, copies, g)
    ensures IsCopy(v, g, r, CopyGraph(copies), copies) && Unchanged(CopyGraph(copies))
  {
    hide CopyOf, Injective, Image;
    var h := CopyGraph(copies);
    forall n | n in copies ensures copies[n] in h && CopyOf(g[n], h[copies[n]], copies, g) {
      CompleteAt(copies, map[], g, n);
    }
  }

  lemma Unbounded(g: Graph)
    ensures Bounded(map[], g, |g.Keys|) && Table(map[], g)
  {
    var none: map<Node, Node> := map[];
    assert g.Keys - none.Keys == g.Keys;
  }

  // -------------------------------------------------------- what a copy means

  /** A step from an object to one of its values. */
  datatype Step = Elem(i: nat) | Entry(k: string)

  function Value(c: Content, s: Step): (r: seq<Val>)
    ensures |r| <= 1
  {
    match s
    case Elem(i) => if i < |c.elems| then [c.elems[i]] else []
    case Entry(k) => if k in c.entries then [c.entries[k]] else []
  }

  /** The value at the end of a path through objects of g that are copied;
      nothing if the path does not exist. */
  function Follow(v: Val, path: seq<Step>, g: Graph): (r: seq<Val>)
    ensures |r| <= 1
    decreases |path|
  {
    if |path| == 0 then [v]
    else if !Copied(v, g) then []
    else
      var next := Value(g[v.o], path[0]);
      if next == [] then [] else Follow(next[0], path[1..], g)
  }

  /** Every value that an object at the end of a path holds is at the end of a
      path. */
  lemma {:induction false} EveryPath(v: Val, p: seq<Step>, g: Graph)
    requires |Follow(v, p, g)| == 1
    ensures var e := Follow(v, p, g)[0];
            (Copied(e, g) ==>
               (forall i :: 0 <= i < |g[e.o].elems| ==> Follow(v, p + [Elem(i)], g) == [g[e.o].elems[i]]) &&
               forall k :: k in g[e.o].entries ==> Follow(v, p + [Entry(k)], g) == [g[e.o].entries[k]])
    decreases |p|
  {
    if p == [] {
      forall s: Step ensures [] + [s] == [s] && [s][1..] == [] {}
    } else {
      var next := Value(g[v.o], p[0])[0];
      EveryPath(next, p[1..], g);
      forall s: Step ensures (p + [s])[0] == p[0] && (p + [s])[1..] == p[1..] + [s] {}
    }
  }

  lemma StepSame(a: Content, b: Content, s: Step, copies: map<Node, Node>, g: Graph)
    requires CopyOf(a, b, copies, g)
    ensures |Value(a, s)| == |Value(b, s)|
    ensures |Value(a, s)| == 1 ==> Image(Value(a, s)[0], Value(b, s)[0], copies, g)
  {
  }

  /** A copied value leads to its copy; any other value leads nowhere in h. */
  lemma CopiedSame(v: Val, r: Val, g: Graph, h: Graph, copies: map<Node, Node>)
    requires IsCopy(v, g, r, h, copies) && Within(v, g)
    ensures Copied(r, h) == Copied(v, g)
    ensures Copied(v, g) ==> v.o in copies && r == Ref(copies[v.o]) && CopyOf(g[v.o], h[r.o], copies, g)
  {
    hide Injective;
    forall c | c in h ensures c !in g {
      var n :| n in copies && copies[n] == c;
    }
    if Copied(v, g) { assert copies[v.o] in h; }
  }

  /** The same paths exist in the original and in the copy, and they end in
      corresponding values. */
  lemma {:induction false} PathsCorrespond(v: Val, g: Graph, r: Val, h: Graph, copies: map<Node, Node>, path: seq<Step>)
    requires IsCopy(v, g, r, h, copies) && Closed(g) && Within(v, g)
    ensures |Follow(v, path, g)| == |Follow(r, path, h)|
    ensures |Follow(v, path, g)| == 1 ==>
              Image(Follow(v, path, g)[0], Follow(r, path, h)[0], copies, g) && Within(Follow(v, path, g)[0], g)
    decreases |path|
  {
    hide Closed, CopyOf, Table;
    if |path| > 0 {
      CopiedSame(v, r, g, h, copies);
      if Copied(v, g) {
        StepSame(g[v.o], h[r.o], path[0], copies, g);
        var next := Value(g[v.o], path[0]);
        if next != [] {
          ShapeOf(v.o, g);
          ValueWithin(g[v.o], path[0], g);
          PathsCorrespond(next[0], g, Value(h[r.o], path[0])[0], h, copies, path[1..]);
        }
      }
    }
  }

  lemma ValueWithin(c: Content, s: Step, g: Graph)
    requires ContentClosed(c, g) && Value(c, s) != []
    ensures Within(Value(c, s)[0], g)
  {
  }

  /** Two paths end in the same value of the original if and only if they end in
      the same value of the copy: sharing and cycles are kept exactly. */
  lemma SharingKept(v: Val, g: Graph, r: Val, h: Graph, copies: map<Node, Node>, p: seq<Step>, q: seq<Step>)
    requires IsCopy(v, g, r, h, copies) && Closed(g) && Within(v, g)
    requires |Follow(v, p, g)| == 1 && |Follow(v, q, g)| == 1
    ensures |Follow(r, p, h)| == 1 && |Follow(r, q, h)| == 1
    ensures Follow(v, p, g) == Follow(v, q, g) <==> Follow(r, p, h) == Follow(r, q, h)
  {
    IsCopyTable(v, g, r, h, copies);
    hide Follow, Closed, Table, Image, CopyOf, IsCopy, Within;
    PathsCorrespond(v, g, r, h, copies, p);
    PathsCorrespond(v, g, r, h, copies, q);
    var a, b, ra, rb := Follow(v, p, g), Follow(v, q, g), Follow(r, p, h), Follow(r, q, h);
    ImagesDiffer(a[0], b[0], ra[0], rb[0], copies, g);
    OneValue(a, b);
    OneValue(ra, rb);
  }

  lemma OneValue(s: seq<Val>, t: seq<Val>)
    requires |s| == 1 && |t| == 1
    ensures s == t <==> s[0] == t[0]
  {
  }

  lemma IsCopyTable(v: Val, g: Graph, r: Val, h: Graph, copies: map<Node, Node>)
    requires IsCopy(v, g, r, h, copies)
    ensures Table(copies, g)
  {
  }

  lemma ImagesDiffer(a: Val, b: Val, ra: Val, rb: Val, copies: map<Node, Node>, g: Graph)
    requires Table(copies, g) && Image(a, ra, copies, g) && Image(b, rb, copies, g) && Within(a, g) && Within(b, g)
    ensures a == b <==> ra == rb
  {
  }

  /** No object that a path from the copy reaches is an object of the original,
      except the ones that are never copied. */
  lemma NothingShared(v: Val, g: Graph, r: Val, h: Graph, copies: map<Node, Node>, p: seq<Step>)
    requires IsCopy(v, g, r, h, copies) && Closed(g) && Within(v, g) && |Follow(r, p, h)| == 1
    ensures var end := Follow(r, p, h)[0]; end.Ref? && end.o in g ==> g[end.o].shape.Shared?
  {
    PathsCorrespond(v, g, r, h, copies, p);
  }
}
